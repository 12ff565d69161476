/** The two executors of the intermediate code.  What happens inside texts (expansion of references,
    string methods) and inside the Python interpreter are parameters. */
module PythonExecutor {
  import opened PythonIR
  import opened Wrappers
  import StringOrder
  import Text

  type Vars = map<string, string>

  datatype ExecutionResult =
    ExecutionResult(variablesSet: Vars, variablesRead: seq<string>, success: bool, strategyUsed: ExecutionStrategy)

  /** What the interpreter has set and read. */
  datatype PythonRun = PythonRun(variablesSet: Vars, variablesRead: seq<string>)

  /** The parts that are not modelled: expansion of references in names and in values, the text that
      a string method makes of its arguments, and the interpreter, which may fail. */
  datatype Library = Library(expandRefs: (Vars, string) -> string, expandValue: (Vars, string) -> string,
                             methodText: (StringMethodKind, string, seq<string>) -> string,
                             runPython: (string, Vars) -> Option<PythonRun>)

  datatype Exec = Exec(vars: Vars, values: map<ValueId, string>, log: seq<string>) {
    /** The value, or the empty text if it was never defined. */
    function Value(id: ValueId): string {
      if id in values then values[id] else ""
    }

    function Variable(name: string): string {
      if name in vars then vars[name] else ""
    }

    function Define(id: Option<ValueId>, text: string): Exec {
      if id.Some? then this.(values := values[id.value := text]) else this
    }

    function Assign(name: string, text: string): Exec {
      this.(vars := vars[name := text])
    }

    function Logged(name: string): Exec {
      this.(log := log + [name])
    }
  }

  // ---- Pure parts ----

  function EvaluateCondition(condition: string): bool {
    if condition == "True" || condition == "true" || condition == "1" || condition == "yes" then true
    else if condition == "False" || condition == "false" || condition == "0" || condition == "no" || condition == ""
    then false
    else condition != ""
  }

  function CompareTexts(left: string, right: string, op: CompareOp): bool {
    match op
    case Eq => left == right
    case Ne => left != right
    case Lt => left != right && StringOrder.AtMost(left, right)
    case Le => StringOrder.AtMost(left, right)
    case Gt => left != right && StringOrder.AtMost(right, left)
    case Ge => StringOrder.AtMost(right, left)
    case In => left in Text.Words(right)
  }

  function CombineTexts(left: string, right: string, op: LogicalOp): bool {
    match op
    case LogicalAnd => EvaluateCondition(left) && EvaluateCondition(right)
    case LogicalOr => EvaluateCondition(left) || EvaluateCondition(right)
    case LogicalNot => !EvaluateCondition(left)
  }

  function Verdict(b: bool): string {
    if b then "True" else "False"
  }

  function Arity(m: StringMethodKind): nat {
    if m.Replace? then 2
    else if m.StartsWith? || m.EndsWith? || m.Find? || m.RFind? || m.Join? then 1
    else 0
  }

  function ValuesOf(s: Exec, ids: seq<ValueId>): seq<string> {
    if ids == [] then [] else ValuesOf(s, ids[..|ids| - 1]) + [s.Value(ids[|ids| - 1])]
  }

  /** The defined values among ids, separated by spaces. */
  function JoinDefined(s: Exec, ids: seq<ValueId>): string {
    if ids == [] then ""
    else
      var front, last := JoinDefined(s, ids[..|ids| - 1]), ids[|ids| - 1];
      if last !in s.values then front
      else if forall i :: 0 <= i < |ids| - 1 ==> ids[i] !in s.values then s.values[last]
      else front + " " + s.values[last]
  }

  // ---- One operation ----

  predicate IsStore(kind: OpKind) {
    kind.SetVar? || kind.AppendVar? || kind.PrependVar?
  }

  /** Setting, appending and prepending are the same in both modes; an undefined value changes nothing. */
  function Store(lib: Library, s: Exec, kind: OpKind): Exec
    requires IsStore(kind)
  {
    var name := lib.expandRefs(s.vars, kind.varName);
    if kind.value !in s.values then s
    else if kind.SetVar? then s.Assign(name, s.values[kind.value])
    else if kind.AppendVar? then s.Assign(name, s.Variable(name) + s.values[kind.value])
    else s.Assign(name, s.values[kind.value] + s.Variable(name))
  }

  function StepStatic(lib: Library, s: Exec, op: Operation): Exec {
    if op.kind.StringLiteral? then s.Define(op.result, op.kind.text)
    else if op.kind.GetVar? then s.Logged(op.kind.varName).Define(op.result, s.Variable(op.kind.varName))
    else if IsStore(op.kind) then Store(lib, s, op.kind)
    else s
  }

  datatype Outcome = Outcome(state: Exec, failed: bool)

  function ReadVariable(lib: Library, vars: Vars, name: string, expand: bool): string {
    if name !in vars then "" else if expand then lib.expandValue(vars, vars[name]) else vars[name]
  }

  predicate HasItem(vars: Vars, name: string, item: string) {
    item in Text.Words(if name in vars then vars[name] else "")
  }

  /** The operations that hybrid execution does not support. */
  predicate NeedsPython(kind: OpKind) {
    kind.ListComp? || kind.ForLoop? || kind.IfStmt? || kind.ComplexPython?
  }

  /** A string method fails only if its result is wanted and an argument is missing. */
  predicate LacksArgument(op: Operation) {
    op.kind.StringMethod? && op.result.Some? && |op.kind.args| < Arity(op.kind.method')
  }

  function StepHybrid(lib: Library, s: Exec, op: Operation): Outcome {
    if NeedsPython(op.kind) || LacksArgument(op) then Outcome(s, true) else Outcome(StepSupported(lib, s, op), false)
  }

  function StepSupported(lib: Library, s: Exec, op: Operation): Exec
    requires !NeedsPython(op.kind) && !LacksArgument(op)
  {
    var kind := op.kind;
    if kind.StringLiteral? then s.Define(op.result, kind.text)
    else if kind.GetVar? then
      s.Logged(kind.varName).Define(op.result, ReadVariable(lib, s.vars, kind.varName, kind.expand))
    else if IsStore(kind) then Store(lib, s, kind)
    else if kind.Concat? then s.Define(op.result, s.Value(kind.left) + s.Value(kind.right))
    else if kind.Conditional? then
      s.Define(op.result, s.Value(if EvaluateCondition(s.Value(kind.condition)) then kind.trueVal else kind.falseVal))
    else if kind.Contains? then
      s.Logged(kind.varName)
      .Define(op.result, s.Value(if HasItem(s.vars, kind.varName, kind.item) then kind.trueVal else kind.falseVal))
    else if kind.StringMethod? then
      s.Define(op.result, lib.methodText(kind.method', s.Value(kind.value), ValuesOf(s, kind.args)))
    else if kind.Compare? then
      s.Define(op.result, Verdict(CompareTexts(s.Value(kind.left), s.Value(kind.right), kind.compareOp)))
    else if kind.Logical? then
      s.Define(op.result, Verdict(CombineTexts(s.Value(kind.left), s.Value(kind.right), kind.logicalOp)))
    else if kind.ListLiteral? then s.Define(op.result, JoinDefined(s, kind.items))
    else s.(vars := s.vars - {kind.varName})
  }

  // ---- All operations ----

  function RunStatic(lib: Library, s: Exec, code: seq<Operation>): Exec {
    if code == [] then s else StepStatic(lib, RunStatic(lib, s, code[..|code| - 1]), code[|code| - 1])
  }

  /** Execution stops at the first operation that fails. */
  function RunHybrid(lib: Library, s: Exec, code: seq<Operation>): Outcome {
    if code == [] then Outcome(s, false)
    else
      var before := RunHybrid(lib, s, code[..|code| - 1]);
      if before.failed then before else StepHybrid(lib, before.state, code[|code| - 1])
  }

  lemma {:induction false} FailureStays(lib: Library, s: Exec, code: seq<Operation>, k: nat)
    requires k <= |code| && RunHybrid(lib, s, code[..k]).failed
    ensures RunHybrid(lib, s, code) == RunHybrid(lib, s, code[..k])
  {
    if k == |code| {
      assert code[..k] == code;
    } else {
      assert code[..|code| - 1][..k] == code[..k];
      FailureStays(lib, s, code[..|code| - 1], k);
    }
  }

  /** The first piece of complex code. */
  function FirstComplex(code: seq<Operation>): Option<string>
    decreases |code|
  {
    if code == [] then None
    else if code[0].kind.ComplexPython? then Some(code[0].kind.code)
    else FirstComplex(code[1..])
  }

  lemma {:induction false} FirstComplexIsFirst(code: seq<Operation>)
    ensures FirstComplex(code).None? ==> forall op :: op in code ==> !op.kind.ComplexPython?
    ensures FirstComplex(code).Some? ==>
              exists i :: 0 <= i < |code| && code[i].kind == ComplexPython(FirstComplex(code).value)
                          && forall j :: 0 <= j < i ==> !code[j].kind.ComplexPython?
    decreases |code|
  {
    if code != [] && !code[0].kind.ComplexPython? {
      var tail := code[1..];
      FirstComplexIsFirst(tail);
      if FirstComplex(tail).Some? {
        var i :| 0 <= i < |tail| && tail[i].kind == ComplexPython(FirstComplex(tail).value)
                 && forall j :: 0 <= j < i ==> !tail[j].kind.ComplexPython?;
        assert code[i + 1] == tail[i];
        forall j | 0 <= j < i + 1 ensures !code[j].kind.ComplexPython? {
          assert j > 0 ==> code[j] == tail[j - 1];
        }
      }
    }
  }

  function Failed(strategy: ExecutionStrategy): ExecutionResult {
    ExecutionResult(map[], [], false, strategy)
  }

  /** What the interpreter makes of the first piece of complex code; without one there is nothing to run. */
  function PythonResult(lib: Library, initialVars: Vars, code: seq<Operation>): ExecutionResult {
    match FirstComplex(code)
    case None => Failed(RustPython)
    case Some(text) =>
      match lib.runPython(text, initialVars)
      case None => Failed(RustPython)
      case Some(run) => ExecutionResult(run.variablesSet, run.variablesRead, true, RustPython)
  }

  /** What executing code with the given score does: the state that it ends in, and the result. */
  ghost predicate Executes(lib: Library, initialVars: Vars, s: Exec, code: seq<Operation>, score: nat,
                           after: Exec, result: ExecutionResult) {
    match StrategyFor(score)
    case Static =>
      after == RunStatic(lib, s, code) && result == ExecutionResult(after.vars, after.log, true, Static)
    case Hybrid =>
      Outcome(after, !result.success) == RunHybrid(lib, s, code)
      && result == if result.success then ExecutionResult(after.vars, after.log, true, Hybrid)
                   else Failed(Hybrid)
    case RustPython =>
      after == s && result == PythonResult(lib, initialVars, code)
  }

  class IRExecutor {
    const lib: Library
    const initialVars: Vars
    var currentVars: Vars
    var values: map<ValueId, string>
    var variablesRead: seq<string>

    ghost function State(): Exec
      reads this
    {
      Exec(currentVars, values, variablesRead)
    }

    constructor (lib: Library, initialVars: Vars)
      ensures this.lib == lib && this.initialVars == initialVars && State() == Exec(initialVars, map[], [])
    {
      this.lib, this.initialVars := lib, initialVars;
      currentVars, values, variablesRead := initialVars, map[], [];
    }

    method ExecuteStore(kind: OpKind)
      requires IsStore(kind)
      modifies this`currentVars
      ensures State() == Store(lib, old(State()), kind)
    {
      var name := lib.expandRefs(currentVars, kind.varName);
      if kind.value in values {
        var current := if name in currentVars then currentVars[name] else "";
        if kind.SetVar? {
          currentVars := currentVars[name := values[kind.value]];
        } else if kind.AppendVar? {
          currentVars := currentVars[name := current + values[kind.value]];
        } else {
          currentVars := currentVars[name := values[kind.value] + current];
        }
      }
    }

    method SetResult(result: Option<ValueId>, text: string)
      modifies this`values
      ensures State() == old(State()).Define(result, text)
    {
      if result.Some? {
        values := values[result.value := text];
      }
    }

    method ExecuteOperationStatic(op: Operation)
      modifies this
      ensures State() == StepStatic(lib, old(State()), op)
    {
      if op.kind.StringLiteral? {
        SetResult(op.result, op.kind.text);
      } else if op.kind.GetVar? {
        variablesRead := variablesRead + [op.kind.varName];
        SetResult(op.result, if op.kind.varName in currentVars then currentVars[op.kind.varName] else "");
      } else if IsStore(op.kind) {
        ExecuteStore(op.kind);
      }
    }

    function ValueOr(id: ValueId): string
      reads this`values
    {
      if id in values then values[id] else ""
    }

    method ExecuteOperationHybrid(op: Operation) returns (ok: bool)
      modifies this
      ensures Outcome(State(), !ok) == StepHybrid(lib, old(State()), op)
    {
      ok := true;
      if op.kind.GetVar? {
        variablesRead := variablesRead + [op.kind.varName];
        SetResult(op.result, ReadVariable(lib, currentVars, op.kind.varName, op.kind.expand));
      } else if op.kind.Contains? {
        variablesRead := variablesRead + [op.kind.varName];
        var contains := HasItem(currentVars, op.kind.varName, op.kind.item);
        SetResult(op.result, if contains then ValueOr(op.kind.trueVal) else ValueOr(op.kind.falseVal));
      } else if IsStore(op.kind) {
        ExecuteStore(op.kind);
      } else if op.kind.DelVar? {
        currentVars := currentVars - {op.kind.varName};
      } else if NeedsPython(op.kind) || LacksArgument(op) {
        ok := false;
      } else {
        ComputeResult(op);
      }
    }

    /** The operations that only define a value from other values. */
    method ComputeResult(op: Operation)
      requires !NeedsPython(op.kind) && !LacksArgument(op) && !IsStore(op.kind)
      requires !op.kind.GetVar? && !op.kind.Contains? && !op.kind.DelVar?
      modifies this`values
      ensures State() == StepSupported(lib, old(State()), op)
    {
      var kind := op.kind;
      var s := Exec(currentVars, values, variablesRead);
      var text;
      if kind.StringLiteral? {
        text := kind.text;
      } else if kind.Concat? {
        text := ValueOr(kind.left) + ValueOr(kind.right);
      } else if kind.Conditional? {
        var isTrue := EvaluateCondition(ValueOr(kind.condition));
        text := if isTrue then ValueOr(kind.trueVal) else ValueOr(kind.falseVal);
      } else if kind.StringMethod? {
        text := lib.methodText(kind.method', ValueOr(kind.value), ValuesOf(s, kind.args));
      } else if kind.Compare? {
        text := Verdict(CompareTexts(ValueOr(kind.left), ValueOr(kind.right), kind.compareOp));
      } else if kind.Logical? {
        text := Verdict(CombineTexts(ValueOr(kind.left), ValueOr(kind.right), kind.logicalOp));
      } else {
        text := JoinDefined(s, kind.items);
      }
      SetResult(op.result, text);
    }

    method ExecuteStatic(ir: PythonIR) returns (result: ExecutionResult)
      requires ir.Valid()
      modifies this
      ensures State() == RunStatic(lib, old(State()), ir.Code())
      ensures result == ExecutionResult(currentVars, variablesRead, true, Static)
    {
      ghost var code := ir.Code();
      for i := 0 to |ir.executionOrder|
        invariant State() == RunStatic(lib, old(State()), code[..i])
      {
        assert code[..i + 1][..i] == code[..i];
        if ir.executionOrder[i] in ir.operations {
          ExecuteOperationStatic(ir.operations[ir.executionOrder[i]]);
        }
      }
      assert code[..|code|] == code;
      result := ExecutionResult(currentVars, variablesRead, true, Static);
    }

    method ExecuteHybrid(ir: PythonIR) returns (result: ExecutionResult)
      requires ir.Valid()
      modifies this
      ensures Outcome(State(), !result.success) == RunHybrid(lib, old(State()), ir.Code())
      ensures result == if result.success then ExecutionResult(currentVars, variablesRead, true, Hybrid)
                        else Failed(Hybrid)
    {
      ghost var code := ir.Code();
      for i := 0 to |ir.executionOrder|
        invariant Outcome(State(), false) == RunHybrid(lib, old(State()), code[..i])
      {
        assert code[..i + 1][..i] == code[..i];
        if ir.executionOrder[i] in ir.operations {
          var ok := ExecuteOperationHybrid(ir.operations[ir.executionOrder[i]]);
          if !ok {
            FailureStays(lib, old(State()), code, i + 1);
            return Failed(Hybrid);
          }
        }
      }
      assert code[..|code|] == code;
      result := ExecutionResult(currentVars, variablesRead, true, Hybrid);
    }

    /** Hands the first piece of complex code to the interpreter. */
    method ExecutePython(ir: PythonIR) returns (result: ExecutionResult)
      requires ir.Valid()
      ensures result == PythonResult(lib, initialVars, ir.Code())
    {
      ghost var code := ir.Code();
      assert code[0..] == code;
      for i := 0 to |ir.executionOrder|
        invariant FirstComplex(code) == FirstComplex(code[i..])
      {
        assert code[i..][0] == code[i] && code[i..][1..] == code[i + 1..];
        if ir.executionOrder[i] in ir.operations {
          var op := ir.operations[ir.executionOrder[i]];
          if op.kind.ComplexPython? {
            var run := lib.runPython(op.kind.code, initialVars);
            return if run.Some? then ExecutionResult(run.value.variablesSet, run.value.variablesRead, true, RustPython)
                   else Failed(RustPython);
          }
        }
      }
      result := Failed(RustPython);
    }

    method Execute(ir: PythonIR) returns (result: ExecutionResult)
      requires ir.Valid()
      modifies this
      ensures Executes(lib, initialVars, old(State()), ir.Code(), ir.complexityScore, State(), result)
    {
      var strategy := ir.ExecutionStrategy();
      if strategy == Static {
        result := ExecuteStatic(ir);
      } else if strategy == Hybrid {
        result := ExecuteHybrid(ir);
      } else {
        result := ExecutePython(ir);
      }
    }
  }
}
