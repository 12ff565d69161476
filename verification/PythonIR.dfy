/** The flat intermediate code for Python in recipes: its builder, and the score that chooses how it
    is executed. */
module PythonIR {
  import opened Wrappers

  datatype OpId = OpId(number: nat)
  datatype ValueId = ValueId(number: nat)

  datatype StringMethodKind =
    | StartsWith | EndsWith | Find | RFind | Upper | Lower | Strip | LStrip | RStrip | Replace | Split | Join

  datatype CompareOp = Eq | Ne | Lt | Le | Gt | Ge | In

  datatype LogicalOp = LogicalAnd | LogicalOr | LogicalNot

  datatype OpKind =
    | GetVar(varName: string, expand: bool)
    | SetVar(varName: string, value: ValueId)
    | AppendVar(varName: string, value: ValueId)
    | PrependVar(varName: string, value: ValueId)
    | DelVar(varName: string)
    | Contains(varName: string, item: string, trueVal: ValueId, falseVal: ValueId)
    | StringLiteral(text: string)
    | Concat(left: ValueId, right: ValueId)
    | StringMethod(value: ValueId, method': StringMethodKind, args: seq<ValueId>)
    | Conditional(condition: ValueId, trueVal: ValueId, falseVal: ValueId)
    | Compare(left: ValueId, right: ValueId, compareOp: CompareOp)
    | Logical(left: ValueId, right: ValueId, logicalOp: LogicalOp)
    | ListLiteral(items: seq<ValueId>)
    | ListComp(expr: ValueId, varName: string, source: ValueId, filter: Option<ValueId>)
    | ForLoop(varName: string, source: ValueId, body: seq<OpId>)
    | IfStmt(condition: ValueId, thenBody: seq<OpId>, elseBody: seq<OpId>)
    | ComplexPython(code: string)

  datatype Operation = Operation(id: OpId, kind: OpKind, result: Option<ValueId>, dependsOn: seq<OpId>)

  // ---- The code as a value ----

  /** The operations in execution order, the next value id, and what the analysis has recorded. */
  datatype Ir = Ir(code: seq<Operation>, nextValue: nat, readLog: seq<string>, written: map<string, ValueId>) {
    /** One more operation without a result. */
    function Perform(kind: OpKind): Ir {
      this.(code := code + [Operation(OpId(|code|), kind, None, [])])
    }

    /** One more operation whose result is a new value. */
    function Produce(kind: OpKind): Ir {
      this.(code := code + [Operation(OpId(|code|), kind, Some(ValueId(nextValue)), [])], nextValue := nextValue + 1)
    }

    function Reading(name: string): Ir {
      this.(readLog := readLog + [name])
    }

    function Writing(name: string, value: ValueId): Ir {
      this.(written := written[name := value])
    }

    function WritingFirst(name: string, value: ValueId): Ir {
      if name in written then this else Writing(name, value)
    }
  }

  const EMPTY: Ir := Ir([], 0, [], map[])

  // ---- Complexity ----

  function Cost(kind: OpKind): nat {
    if kind.StringLiteral? then 0
    else if kind.SetVar? then 1
    else if kind.GetVar? then (if kind.expand then 4 else 1)
    else if kind.AppendVar? || kind.PrependVar? then 2
    else if kind.Contains? then 5
    else if kind.Concat? then 2
    else if kind.StringMethod? then 4
    else if kind.Conditional? then 5
    else if kind.Compare? then 3
    else if kind.Logical? then 4
    else if kind.ListLiteral? then 3
    else if kind.ListComp? then (if kind.filter.Some? then 8 else 5)
    else if kind.ForLoop? then 10
    else if kind.IfStmt? then 8
    else if kind.ComplexPython? then 51
    else 5
  }

  function TotalCost(code: seq<Operation>): nat {
    if code == [] then 0 else TotalCost(code[..|code| - 1]) + Cost(code[|code| - 1].kind)
  }

  function Score(code: seq<Operation>): nat {
    if TotalCost(code) < 100 then TotalCost(code) else 100
  }

  datatype ExecutionStrategy = Static | Hybrid | RustPython

  function StrategyFor(score: nat): ExecutionStrategy {
    if score <= 3 then Static else if score <= 50 then Hybrid else RustPython
  }

  /** The cost of the operations among `keys`. */
  ghost function CostAmong(code: seq<Operation>, keys: set<OpId>): nat {
    if code == [] then 0
    else
      var last := |code| - 1;
      CostAmong(code[..last], keys) + if OpId(last) in keys then Cost(code[last].kind) else 0
  }

  lemma {:induction false} CostAmongAll(code: seq<Operation>, keys: set<OpId>)
    requires forall i :: 0 <= i < |code| ==> OpId(i) in keys
    ensures CostAmong(code, keys) == TotalCost(code)
  {
    if code != [] {
      CostAmongAll(code[..|code| - 1], keys);
    }
  }

  lemma {:induction false} CostAmongNone(code: seq<Operation>)
    ensures CostAmong(code, {}) == 0
  {
    if code != [] {
      CostAmongNone(code[..|code| - 1]);
    }
  }

  lemma {:induction false} CostAmongFewer(code: seq<Operation>, keys: set<OpId>, k: nat)
    requires OpId(k) in keys
    ensures CostAmong(code, keys)
            == CostAmong(code, keys - {OpId(k)}) + if k < |code| then Cost(code[k].kind) else 0
  {
    if code != [] {
      CostAmongFewer(code[..|code| - 1], keys, k);
    }
  }

  ghost function InOrder(operations: map<OpId, Operation>, n: nat): (code: seq<Operation>)
    requires forall i :: 0 <= i < n ==> OpId(i) in operations
    ensures |code| == n && forall i :: 0 <= i < n ==> code[i] == operations[OpId(i)]
  {
    seq(n, i requires 0 <= i < n => operations[OpId(i)])
  }

  lemma OneMoreInOrder(operations: map<OpId, Operation>, n: nat, op: Operation, more: map<OpId, Operation>, m: nat)
    requires forall i :: 0 <= i < n ==> OpId(i) in operations
    requires m == n + 1 && more == operations[OpId(n) := op]
    ensures (forall i :: 0 <= i < m ==> OpId(i) in more) && InOrder(more, m) == InOrder(operations, n) + [op]
  {
  }

  // ---- PythonIR ----

  class PythonIR {
    var operations: map<OpId, Operation>
    var executionOrder: seq<OpId>
    var nextOpId: nat
    var nextValueId: nat
    var variablesRead: seq<string>
    var variablesWritten: map<string, ValueId>
    var complexityScore: nat

    ghost predicate Valid()
      reads this`operations, this`executionOrder, this`nextOpId
    {
      && |executionOrder| == nextOpId
      && (forall i :: 0 <= i < nextOpId ==> executionOrder[i] == OpId(i))
      && (forall id :: id in operations <==> id.number < nextOpId)
    }

    /** The operations in execution order. */
    ghost function Code(): seq<Operation>
      requires Valid()
      reads this`operations, this`executionOrder, this`nextOpId
    {
      InOrder(operations, nextOpId)
    }

    ghost function Model(): Ir
      requires Valid()
      reads this
    {
      Ir(Code(), nextValueId, variablesRead, variablesWritten)
    }

    constructor ()
      ensures Valid() && Model() == EMPTY && complexityScore == 0
    {
      operations, executionOrder, nextOpId, nextValueId := map[], [], 0, 0;
      variablesRead, variablesWritten, complexityScore := [], map[], 0;
    }

    method AddOperation(kind: OpKind) returns (id: OpId)
      requires Valid()
      modifies this`operations, this`executionOrder, this`nextOpId
      ensures Valid() && Model() == old(Model()).Perform(kind) && id == OpId(|old(Code())|)
    {
      ghost var before, op := operations, Operation(OpId(nextOpId), kind, None, []);
      id := OpId(nextOpId);
      nextOpId := nextOpId + 1;
      operations := operations[id := Operation(id, kind, None, [])];
      executionOrder := executionOrder + [id];
      OneMoreInOrder(before, old(nextOpId), op, operations, nextOpId);
    }

    method NewValue() returns (id: ValueId)
      modifies this`nextValueId
      ensures id == ValueId(old(nextValueId)) && nextValueId == old(nextValueId) + 1
    {
      id := ValueId(nextValueId);
      nextValueId := nextValueId + 1;
    }

    /** Adds an operation and makes a new value its result. */
    method AddProducer(kind: OpKind) returns (value: ValueId)
      requires Valid()
      modifies this`operations, this`executionOrder, this`nextOpId, this`nextValueId
      ensures Valid() && Model() == old(Model()).Produce(kind) && value == ValueId(old(nextValueId))
    {
      value := NewValue();
      var opId := AddOperation(kind);
      SetResult(opId, value);
    }

    method SetResult(id: OpId, value: ValueId)
      requires Valid() && id.number < nextOpId
      modifies this`operations
      ensures Valid() && Code() == old(Code())[id.number := old(Code())[id.number].(result := Some(value))]
    {
      if id in operations {
        operations := operations[id := operations[id].(result := Some(value))];
      }
      assert id == OpId(id.number);
    }

    method AddStringLiteral(text: string) returns (value: ValueId)
      requires Valid()
      modifies this`operations, this`executionOrder, this`nextOpId, this`nextValueId
      ensures Valid() && Model() == old(Model()).Produce(StringLiteral(text)) && value == ValueId(old(nextValueId))
    {
      value := AddProducer(StringLiteral(text));
    }

    method AddGetVar(varName: string, expand: bool) returns (value: ValueId)
      requires Valid()
      modifies this
      ensures Valid() && Model() == old(Model()).Reading(varName).Produce(GetVar(varName, expand))
      ensures value == ValueId(old(nextValueId)) && complexityScore == old(complexityScore)
    {
      variablesRead := variablesRead + [varName];
      value := AddProducer(GetVar(varName, expand));
    }

    method AddSetVar(varName: string, value: ValueId) returns (id: OpId)
      requires Valid()
      modifies this
      ensures Valid() && Model() == old(Model()).Writing(varName, value).Perform(SetVar(varName, value))
      ensures id == OpId(|old(Code())|) && complexityScore == old(complexityScore)
    {
      variablesWritten := variablesWritten[varName := value];
      id := AddOperation(SetVar(varName, value));
    }

    method AddAppendVar(varName: string, value: ValueId) returns (id: OpId)
      requires Valid()
      modifies this
      ensures Valid() && Model() == old(Model()).WritingFirst(varName, value).Perform(AppendVar(varName, value))
      ensures id == OpId(|old(Code())|) && complexityScore == old(complexityScore)
    {
      if varName !in variablesWritten {
        variablesWritten := variablesWritten[varName := value];
      }
      id := AddOperation(AppendVar(varName, value));
    }

    method AddPrependVar(varName: string, value: ValueId) returns (id: OpId)
      requires Valid()
      modifies this
      ensures Valid() && Model() == old(Model()).WritingFirst(varName, value).Perform(PrependVar(varName, value))
      ensures id == OpId(|old(Code())|) && complexityScore == old(complexityScore)
    {
      if varName !in variablesWritten {
        variablesWritten := variablesWritten[varName := value];
      }
      id := AddOperation(PrependVar(varName, value));
    }

    method AddConditional(condition: ValueId, trueVal: ValueId, falseVal: ValueId) returns (value: ValueId)
      requires Valid()
      modifies this`operations, this`executionOrder, this`nextOpId, this`nextValueId
      ensures Valid() && Model() == old(Model()).Produce(Conditional(condition, trueVal, falseVal))
      ensures value == ValueId(old(nextValueId))
    {
      value := AddProducer(Conditional(condition, trueVal, falseVal));
    }

    method AddContains(varName: string, item: string, trueVal: ValueId, falseVal: ValueId) returns (value: ValueId)
      requires Valid()
      modifies this
      ensures Valid() && Model() == old(Model()).Reading(varName).Produce(Contains(varName, item, trueVal, falseVal))
      ensures value == ValueId(old(nextValueId)) && complexityScore == old(complexityScore)
    {
      variablesRead := variablesRead + [varName];
      value := AddProducer(Contains(varName, item, trueVal, falseVal));
    }

    /** The score, summed over the operations in whatever order the map yields them. */
    method CalculateComplexity()
      requires Valid()
      modifies this`complexityScore
      ensures complexityScore == Score(Code())
    {
      var score: nat := 0;
      var rest := operations.Keys;
      ghost var code := Code();
      CostAmongAll(code, rest);
      while rest != {}
        invariant rest <= operations.Keys && score + CostAmong(code, rest) == TotalCost(code)
        decreases rest
      {
        var id :| id in rest;
        CostAmongFewer(code, rest, id.number);
        assert id == OpId(id.number);
        score := score + Cost(operations[id].kind);
        rest := rest - {id};
      }
      CostAmongNone(code);
      complexityScore := if score < 100 then score else 100;
    }

    method ExecutionStrategy() returns (strategy: ExecutionStrategy)
      ensures strategy == StrategyFor(complexityScore)
    {
      if complexityScore <= 3 {
        strategy := Static;
      } else if complexityScore <= 50 {
        strategy := Hybrid;
      } else {
        strategy := RustPython;
      }
    }
  }

  // ---- PythonIRBuilder ----

  class PythonIRBuilder {
    var ir: PythonIR

    ghost predicate Valid()
      reads this, ir
    {
      ir.Valid()
    }

    ghost function Model(): Ir
      requires Valid()
      reads this, ir
    {
      ir.Model()
    }

    constructor ()
      ensures Valid() && fresh(ir) && Model() == EMPTY
    {
      ir := new PythonIR();
    }

    method Literal(text: string) returns (value: ValueId)
      requires Valid()
      modifies ir
      ensures Valid() && ir == old(ir) && Model() == old(Model()).Produce(StringLiteral(text))
      ensures value == ValueId(old(Model()).nextValue)
    {
      value := ir.AddStringLiteral(text);
    }

    method GetVarWithExpand(varName: string, expand: bool) returns (value: ValueId)
      requires Valid()
      modifies ir
      ensures Valid() && ir == old(ir) && Model() == old(Model()).Reading(varName).Produce(GetVar(varName, expand))
      ensures value == ValueId(old(Model()).nextValue)
    {
      value := ir.AddGetVar(varName, expand);
    }

    method SetVariable(varName: string, value: ValueId)
      requires Valid()
      modifies ir
      ensures Valid() && ir == old(ir) && Model() == old(Model()).Writing(varName, value).Perform(SetVar(varName, value))
    {
      var _ := ir.AddSetVar(varName, value);
    }

    method Append(varName: string, value: ValueId)
      requires Valid()
      modifies ir
      ensures Valid() && ir == old(ir)
      ensures Model() == old(Model()).WritingFirst(varName, value).Perform(AppendVar(varName, value))
    {
      var _ := ir.AddAppendVar(varName, value);
    }

    method Prepend(varName: string, value: ValueId)
      requires Valid()
      modifies ir
      ensures Valid() && ir == old(ir)
      ensures Model() == old(Model()).WritingFirst(varName, value).Perform(PrependVar(varName, value))
    {
      var _ := ir.AddPrependVar(varName, value);
    }

    method IfElse(condition: ValueId, trueVal: ValueId, falseVal: ValueId) returns (value: ValueId)
      requires Valid()
      modifies ir
      ensures Valid() && ir == old(ir) && Model() == old(Model()).Produce(Conditional(condition, trueVal, falseVal))
      ensures value == ValueId(old(Model()).nextValue)
    {
      value := ir.AddConditional(condition, trueVal, falseVal);
    }

    method ContainsItem(varName: string, item: string, trueVal: ValueId, falseVal: ValueId) returns (value: ValueId)
      requires Valid()
      modifies ir
      ensures Valid() && ir == old(ir)
      ensures Model() == old(Model()).Reading(varName).Produce(Contains(varName, item, trueVal, falseVal))
      ensures value == ValueId(old(Model()).nextValue)
    {
      value := ir.AddContains(varName, item, trueVal, falseVal);
    }

    method AddComplexPython(code: string)
      requires Valid()
      modifies ir
      ensures Valid() && ir == old(ir) && Model() == old(Model()).Perform(ComplexPython(code))
    {
      var _ := ir.AddOperation(ComplexPython(code));
    }

    method Build() returns (built: PythonIR)
      requires Valid()
      modifies ir
      ensures built == old(ir) && built.Valid() && built.Model() == old(Model())
      ensures built.complexityScore == Score(built.Code())
    {
      ir.CalculateComplexity();
      built := ir;
    }
  }
}
