/** The score chooses a sound way of execution, and compiling expression trees keeps their meaning. */
module PythonTheorems {
  import opened PythonExecutor
  import opened PythonIR
  import opened PythonOperations
  import opened Wrappers
  import WordTheorems

  // ---- Code made through the interface ----

  /** The calls by which code is made: those of the builder, and `CallAdd` for adding an operation of
      any kind directly. */
  datatype Call =
    | CallLiteral(text: string)
    | CallGetVar(name: string, expand: bool)
    | CallSet(name: string, value: ValueId)
    | CallAppend(name: string, value: ValueId)
    | CallPrepend(name: string, value: ValueId)
    | CallConditional(condition: ValueId, trueVal: ValueId, falseVal: ValueId)
    | CallContains(name: string, item: string, trueVal: ValueId, falseVal: ValueId)
    | CallComplex(code: string)
    | CallAdd(kind: OpKind)

  function Apply(ir: Ir, call: Call): Ir {
    match call
    case CallLiteral(text) => ir.Produce(StringLiteral(text))
    case CallGetVar(name, expand) => ir.Reading(name).Produce(GetVar(name, expand))
    case CallSet(name, value) => ir.Writing(name, value).Perform(SetVar(name, value))
    case CallAppend(name, value) => ir.WritingFirst(name, value).Perform(AppendVar(name, value))
    case CallPrepend(name, value) => ir.WritingFirst(name, value).Perform(PrependVar(name, value))
    case CallConditional(c, t, f) => ir.Produce(Conditional(c, t, f))
    case CallContains(name, item, t, f) => ir.Reading(name).Produce(Contains(name, item, t, f))
    case CallComplex(code) => ir.Perform(ComplexPython(code))
    case CallAdd(kind) => ir.Perform(kind)
  }

  function Made(calls: seq<Call>): Ir {
    if calls == [] then EMPTY else Apply(Made(calls[..|calls| - 1]), calls[|calls| - 1])
  }

  ghost predicate BuilderCalls(calls: seq<Call>) {
    forall call :: call in calls ==> !call.CallAdd?
  }

  predicate Produces(kind: OpKind) {
    kind.StringLiteral? || kind.GetVar? || kind.Conditional? || kind.Contains?
  }

  /** Only literals, reads, conditionals and containment tests are ever given a result. */
  ghost predicate ResultsAreMade(code: seq<Operation>) {
    forall op :: op in code && op.result.Some? ==> Produces(op.kind)
  }

  predicate BuilderKind(kind: OpKind) {
    Produces(kind) || IsStore(kind) || kind.ComplexPython?
  }

  /** A call adds one operation. */
  lemma ApplyAdds(ir: Ir, call: Call) returns (op: Operation)
    ensures Apply(ir, call).code == ir.code + [op]
    ensures op.result.Some? ==> Produces(op.kind)
    ensures !call.CallAdd? ==> BuilderKind(op.kind)
  {
    op := Apply(ir, call).code[|ir.code|];
  }

  lemma {:induction false} MadeCode(calls: seq<Call>)
    ensures ResultsAreMade(Made(calls).code)
    ensures BuilderCalls(calls) ==> forall op :: op in Made(calls).code ==> BuilderKind(op.kind)
  {
    if calls != [] {
      var front, call := calls[..|calls| - 1], calls[|calls| - 1];
      MadeCode(front);
      assert calls == front + [call];
      var op := ApplyAdds(Made(front), call);
    }
  }

  // ---- Costs ----

  lemma {:induction false} CostIsCounted(code: seq<Operation>, op: Operation)
    requires op in code
    ensures Cost(op.kind) <= TotalCost(code)
  {
    var last := |code| - 1;
    assert code == code[..last] + [code[last]];
    if op != code[last] {
      CostIsCounted(code[..last], op);
    }
  }

  /** Any complex operation forces the interpreter. */
  lemma ComplexForcesPython(code: seq<Operation>, op: Operation)
    requires op in code && op.kind.ComplexPython?
    ensures StrategyFor(Score(code)) == RustPython
  {
    CostIsCounted(code, op);
  }

  // ---- Static execution ----

  lemma StepsAgree(lib: Library, s: Exec, op: Operation)
    requires Cost(op.kind) <= 3 && (op.result.Some? ==> Produces(op.kind))
    ensures StepHybrid(lib, s, op) == Outcome(StepStatic(lib, s, op), false)
  {
  }

  lemma {:induction false} RunsAgree(lib: Library, s: Exec, code: seq<Operation>)
    requires ResultsAreMade(code) && forall op :: op in code ==> Cost(op.kind) <= 3
    ensures RunHybrid(lib, s, code) == Outcome(RunStatic(lib, s, code), false)
  {
    if code != [] {
      var last := |code| - 1;
      assert code == code[..last] + [code[last]];
      RunsAgree(lib, s, code[..last]);
      StepsAgree(lib, RunStatic(lib, s, code[..last]), code[last]);
    }
  }

  /** Code that is executed statically would end in the same variables, values and read log if it
      were executed in hybrid mode. */
  lemma StaticIsSound(lib: Library, s: Exec, calls: seq<Call>)
    requires StrategyFor(Score(Made(calls).code)) == Static
    ensures RunHybrid(lib, s, Made(calls).code) == Outcome(RunStatic(lib, s, Made(calls).code), false)
  {
    var code := Made(calls).code;
    MadeCode(calls);
    forall op | op in code ensures Cost(op.kind) <= 3 {
      CostIsCounted(code, op);
    }
    RunsAgree(lib, s, code);
  }

  // ---- Hybrid execution ----

  lemma {:induction false} FailsIff(lib: Library, s: Exec, code: seq<Operation>)
    requires ResultsAreMade(code)
    ensures RunHybrid(lib, s, code).failed <==> exists op :: op in code && NeedsPython(op.kind)
  {
    if code != [] {
      var front, last := code[..|code| - 1], code[|code| - 1];
      assert code == front + [last];
      FailsIff(lib, s, front);
      assert last in code;
      assert forall op :: op in code <==> op in front || op == last;
    }
  }

  /** Hybrid execution of code made through the interface fails exactly when it holds an operation
      that needs the interpreter. */
  lemma HybridFailsIff(lib: Library, s: Exec, calls: seq<Call>)
    ensures RunHybrid(lib, s, Made(calls).code).failed
            <==> exists op :: op in Made(calls).code && NeedsPython(op.kind)
  {
    MadeCode(calls);
    FailsIff(lib, s, Made(calls).code);
  }

  /** Code of the builder for which the interpreter is not chosen never fails. */
  lemma BuilderCodeNeverFails(lib: Library, s: Exec, calls: seq<Call>)
    requires BuilderCalls(calls) && StrategyFor(Score(Made(calls).code)) != RustPython
    ensures !RunHybrid(lib, s, Made(calls).code).failed
  {
    var code := Made(calls).code;
    MadeCode(calls);
    HybridFailsIff(lib, s, calls);
    forall op | op in code ensures !NeedsPython(op.kind) {
      if op.kind.ComplexPython? {
        ComplexForcesPython(code, op);
      }
    }
  }

  /** Not so for operations that are added directly: the score of a list comprehension chooses hybrid
      execution, and that fails. */
  lemma AddedComprehensionFails(lib: Library, s: Exec, expr: ValueId, name: string, source: ValueId)
    ensures var code := Made([CallAdd(ListComp(expr, name, source, None))]).code;
            StrategyFor(Score(code)) == Hybrid && RunHybrid(lib, s, code).failed
  {
    var kind := ListComp(expr, name, source, None);
    var calls := [CallAdd(kind)];
    assert calls[..0] == [];
    var op := Operation(OpId(0), kind, None, []);
    assert Made(calls).code == [] + [op] == [op];
    assert [op][..0] == [];
    assert TotalCost([op]) == 5;
    HybridFailsIff(lib, s, calls);
    assert op in Made(calls).code;
  }

  // ---- Expression trees ----

  datatype Expr =
    | Lit(text: string)
    | Read(name: string, expand: bool)
    | Has(name: string, item: string, then': Expr, else': Expr)
    | Choose(condition: Expr, then': Expr, else': Expr)

  datatype Stmt = Set(name: string, value: Expr) | Append(name: string, value: Expr) | Prepend(name: string, value: Expr)

  /** The value of an expression, evaluated directly: a test asks whether the item stands on its own
      in the variable, and a condition whether its text is one of those that count as false. */
  ghost function ExprValue(lib: Library, vars: Vars, e: Expr): string {
    match e
    case Lit(text) => text
    case Read(name, expand) =>
      if name !in vars then "" else if expand then lib.expandValue(vars, vars[name]) else vars[name]
    case Has(name, item, t, f) =>
      if WordTheorems.Lists(Current(vars, name), item) then ExprValue(lib, vars, t) else ExprValue(lib, vars, f)
    case Choose(c, t, f) =>
      if Falsy(ExprValue(lib, vars, c)) then ExprValue(lib, vars, f) else ExprValue(lib, vars, t)
  }

  /** The variables that an expression reads; both branches of a choice are evaluated. */
  function ExprReads(e: Expr): seq<string> {
    match e
    case Lit(_) => []
    case Read(name, _) => [name]
    case Has(name, _, t, f) => ExprReads(t) + ExprReads(f) + [name]
    case Choose(c, t, f) => ExprReads(c) + ExprReads(t) + ExprReads(f)
  }

  ghost function RunStmt(lib: Library, vars: Vars, stmt: Stmt): Vars {
    var name, text := lib.expandRefs(vars, stmt.name), ExprValue(lib, vars, stmt.value);
    var current := if name in vars then vars[name] else "";
    match stmt
    case Set(_, _) => vars[name := text]
    case Append(_, _) => vars[name := current + text]
    case Prepend(_, _) => vars[name := text + current]
  }

  ghost function RunStmts(lib: Library, vars: Vars, stmts: seq<Stmt>): Vars {
    if stmts == [] then vars else RunStmt(lib, RunStmts(lib, vars, stmts[..|stmts| - 1]), stmts[|stmts| - 1])
  }

  function StmtsReads(stmts: seq<Stmt>): seq<string> {
    if stmts == [] then [] else StmtsReads(stmts[..|stmts| - 1]) + ExprReads(stmts[|stmts| - 1].value)
  }

  // ---- Emission ----

  /** The builder calls for an expression, operands first, and the value that holds the result. */
  function EmitExpr(ir: Ir, e: Expr): (Ir, ValueId)
    decreases e
  {
    match e
    case Lit(text) => (ir.Produce(StringLiteral(text)), ValueId(ir.nextValue))
    case Read(name, expand) => (ir.Reading(name).Produce(GetVar(name, expand)), ValueId(ir.nextValue))
    case Has(name, item, t, f) =>
      var a := EmitExpr(ir, t);
      var b := EmitExpr(a.0, f);
      (b.0.Reading(name).Produce(Contains(name, item, a.1, b.1)), ValueId(b.0.nextValue))
    case Choose(c, t, f) =>
      var a := EmitExpr(ir, c);
      var b := EmitExpr(a.0, t);
      var d := EmitExpr(b.0, f);
      (d.0.Produce(Conditional(a.1, b.1, d.1)), ValueId(d.0.nextValue))
  }

  function EmitStmt(ir: Ir, stmt: Stmt): Ir {
    var (next, v) := EmitExpr(ir, stmt.value);
    match stmt
    case Set(name, _) => next.Writing(name, v).Perform(SetVar(name, v))
    case Append(name, _) => next.WritingFirst(name, v).Perform(AppendVar(name, v))
    case Prepend(name, _) => next.WritingFirst(name, v).Perform(PrependVar(name, v))
  }

  function EmitStmts(ir: Ir, stmts: seq<Stmt>): Ir {
    if stmts == [] then ir else EmitStmt(EmitStmts(ir, stmts[..|stmts| - 1]), stmts[|stmts| - 1])
  }

  method CompileExpr(builder: PythonIRBuilder, e: Expr) returns (v: ValueId)
    requires builder.Valid()
    modifies builder.ir
    ensures builder.Valid() && builder.ir == old(builder.ir)
    ensures (builder.Model(), v) == EmitExpr(old(builder.Model()), e)
    decreases e
  {
    match e {
      case Lit(text) =>
        v := builder.Literal(text);
      case Read(name, expand) =>
        v := builder.GetVarWithExpand(name, expand);
      case Has(name, item, t, f) =>
        var a := CompileExpr(builder, t);
        var b := CompileExpr(builder, f);
        v := builder.ContainsItem(name, item, a, b);
      case Choose(c, t, f) =>
        var a := CompileExpr(builder, c);
        var b := CompileExpr(builder, t);
        var d := CompileExpr(builder, f);
        v := builder.IfElse(a, b, d);
    }
  }

  method CompileStmt(builder: PythonIRBuilder, stmt: Stmt)
    requires builder.Valid()
    modifies builder.ir
    ensures builder.Valid() && builder.ir == old(builder.ir)
    ensures builder.Model() == EmitStmt(old(builder.Model()), stmt)
  {
    var v := CompileExpr(builder, stmt.value);
    match stmt {
      case Set(name, _) => builder.SetVariable(name, v);
      case Append(name, _) => builder.Append(name, v);
      case Prepend(name, _) => builder.Prepend(name, v);
    }
  }

  method Compile(stmts: seq<Stmt>) returns (ir: PythonIR)
    ensures ir.Valid() && fresh(ir) && ir.Model() == EmitStmts(EMPTY, stmts)
    ensures ir.complexityScore == Score(EmitStmts(EMPTY, stmts).code)
  {
    var builder := new PythonIRBuilder();
    for i := 0 to |stmts|
      invariant builder.Valid() && fresh(builder) && fresh(builder.ir)
      invariant builder.Model() == EmitStmts(EMPTY, stmts[..i])
    {
      assert stmts[..i + 1][..i] == stmts[..i];
      CompileStmt(builder, stmts[i]);
    }
    assert stmts[..|stmts|] == stmts;
    ir := builder.Build();
  }

  // ---- Every value is defined once, before its uses ----

  function Operands(kind: OpKind): set<ValueId> {
    if IsStore(kind) then {kind.value}
    else if kind.Contains? then {kind.trueVal, kind.falseVal}
    else if kind.Conditional? then {kind.condition, kind.trueVal, kind.falseVal}
    else {}
  }

  ghost function Results(code: seq<Operation>): set<ValueId> {
    if code == [] then {}
    else
      var last := code[|code| - 1];
      Results(code[..|code| - 1]) + if last.result.Some? then {last.result.value} else {}
  }

  ghost predicate SingleAssignment(code: seq<Operation>) {
    code == [] ||
    (var front, last := code[..|code| - 1], code[|code| - 1];
     && SingleAssignment(front)
     && Operands(last.kind) <= Results(front)
     && (last.result.Some? ==> last.result.value !in Results(front)))
  }

  ghost predicate Ssa(ir: Ir) {
    SingleAssignment(ir.code) && forall v :: v in Results(ir.code) ==> v.number < ir.nextValue
  }

  lemma ProduceKeepsSsa(ir: Ir, kind: OpKind)
    requires Ssa(ir) && Operands(kind) <= Results(ir.code)
    ensures Ssa(ir.Produce(kind)) && Results(ir.Produce(kind).code) == Results(ir.code) + {ValueId(ir.nextValue)}
  {
    var code := ir.Produce(kind).code;
    assert code[..|code| - 1] == ir.code;
  }

  lemma PerformKeepsSsa(ir: Ir, kind: OpKind)
    requires Ssa(ir) && Operands(kind) <= Results(ir.code)
    ensures Ssa(ir.Perform(kind)) && Results(ir.Perform(kind).code) == Results(ir.code)
  {
    var code := ir.Perform(kind).code;
    assert code[..|code| - 1] == ir.code;
  }

  /** From `ir`, code that defines v has been added. */
  ghost predicate Defines(ir: Ir, next: Ir, v: ValueId) {
    Ssa(next) && Results(ir.code) <= Results(next.code) && v in Results(next.code)
  }

  lemma HasIsSsa(ir: Ir, one: Ir, a: ValueId, two: Ir, b: ValueId, name: string, item: string)
    requires Defines(ir, one, a) && Defines(one, two, b)
    ensures Defines(ir, two.Reading(name).Produce(Contains(name, item, a, b)), ValueId(two.nextValue))
  {
    ProduceKeepsSsa(two.Reading(name), Contains(name, item, a, b));
  }

  lemma ChooseIsSsa(ir: Ir, one: Ir, a: ValueId, two: Ir, b: ValueId, three: Ir, d: ValueId)
    requires Defines(ir, one, a) && Defines(one, two, b) && Defines(two, three, d)
    ensures Defines(ir, three.Produce(Conditional(a, b, d)), ValueId(three.nextValue))
  {
    ProduceKeepsSsa(three, Conditional(a, b, d));
  }

  lemma {:induction false} EmitExprIsSsa(ir: Ir, e: Expr)
    requires Ssa(ir)
    ensures var (next, v) := EmitExpr(ir, e); Defines(ir, next, v)
    decreases e
  {
    match e {
      case Lit(text) =>
        ProduceKeepsSsa(ir, StringLiteral(text));
      case Read(name, expand) =>
        ProduceKeepsSsa(ir.Reading(name), GetVar(name, expand));
      case Has(name, item, t, f) =>
        EmitExprIsSsa(ir, t);
        var (one, a) := EmitExpr(ir, t);
        EmitExprIsSsa(one, f);
        var (two, b) := EmitExpr(one, f);
        HasIsSsa(ir, one, a, two, b, name, item);
      case Choose(c, t, f) =>
        EmitExprIsSsa(ir, c);
        var (one, a) := EmitExpr(ir, c);
        EmitExprIsSsa(one, t);
        var (two, b) := EmitExpr(one, t);
        EmitExprIsSsa(two, f);
        var (three, d) := EmitExpr(two, f);
        ChooseIsSsa(ir, one, a, two, b, three, d);
    }
  }

  /** Emitted code assigns every value once, and only uses values that were assigned before. */
  lemma {:induction false} EmittedIsSsa(stmts: seq<Stmt>)
    ensures Ssa(EmitStmts(EMPTY, stmts))
  {
    if stmts != [] {
      var front, stmt := stmts[..|stmts| - 1], stmts[|stmts| - 1];
      EmittedIsSsa(front);
      var ir := EmitStmts(EMPTY, front);
      EmitExprIsSsa(ir, stmt.value);
      var (next, v) := EmitExpr(ir, stmt.value);
      match stmt {
        case Set(name, _) => PerformKeepsSsa(next.Writing(name, v), SetVar(name, v));
        case Append(name, _) => PerformKeepsSsa(next.WritingFirst(name, v), AppendVar(name, v));
        case Prepend(name, _) => PerformKeepsSsa(next.WritingFirst(name, v), PrependVar(name, v));
      }
    }
  }

  // ---- Execution of emitted code ----

  lemma RunOneMore(lib: Library, s: Exec, ir: Ir, next: Ir, op: Operation)
    requires next.code == ir.code + [op] && !RunHybrid(lib, s, ir.code).failed
    ensures RunHybrid(lib, s, next.code) == StepHybrid(lib, RunHybrid(lib, s, ir.code).state, op)
  {
    assert next.code[..|next.code| - 1] == ir.code;
  }

  /** v is a new value, and the reads have been recorded. */
  ghost predicate Counted(ir: Ir, next: Ir, v: ValueId, readLog: seq<string>) {
    ir.nextValue <= v.number < next.nextValue && next.readLog == ir.readLog + readLog
  }

  lemma CountedTwice(ir: Ir, one: Ir, two: Ir, a: ValueId, b: ValueId, log1: seq<string>, log2: seq<string>)
    requires Counted(ir, one, a, log1) && Counted(one, two, b, log2)
    ensures Counted(ir, two, b, log1 + log2)
  {
  }

  lemma {:induction false} EmitExprCounts(ir: Ir, e: Expr)
    ensures var (next, v) := EmitExpr(ir, e); Counted(ir, next, v, ExprReads(e))
    decreases e
  {
    match e {
      case Lit(_) =>
      case Read(_, _) =>
      case Has(name, item, t, f) =>
        var (one, a) := EmitExpr(ir, t);
        var (two, b) := EmitExpr(one, f);
        EmitExprCounts(ir, t);
        EmitExprCounts(one, f);
        CountedTwice(ir, one, two, a, b, ExprReads(t), ExprReads(f));
        assert (ir.readLog + (ExprReads(t) + ExprReads(f))) + [name] == ir.readLog + ((ExprReads(t) + ExprReads(f)) + [name]);
      case Choose(c, t, f) =>
        var (one, a) := EmitExpr(ir, c);
        var (two, b) := EmitExpr(one, t);
        var (three, d) := EmitExpr(two, f);
        EmitExprCounts(ir, c);
        EmitExprCounts(one, t);
        EmitExprCounts(two, f);
        CountedTwice(ir, one, two, a, b, ExprReads(c), ExprReads(t));
        CountedTwice(ir, two, three, b, d, ExprReads(c) + ExprReads(t), ExprReads(f));
    }
  }

  /** Running on from `before` to `after` has logged the reads and left the variables, and the values
      below `limit`, as they were. */
  ghost predicate Kept(before: Exec, after: Exec, limit: nat, readLog: seq<string>) {
    && after.vars == before.vars
    && after.log == before.log + readLog
    && forall id: ValueId :: id.number < limit ==>
                               (id in after.values <==> id in before.values) && after.Value(id) == before.Value(id)
  }

  lemma KeptTwice(before: Exec, mid: Exec, after: Exec, limit: nat, higher: nat, log1: seq<string>, log2: seq<string>)
    requires Kept(before, mid, limit, log1) && Kept(mid, after, higher, log2) && limit <= higher
    ensures Kept(before, after, limit, log1 + log2)
  {
    assert (before.log + log1) + log2 == before.log + (log1 + log2);
  }

  lemma KeptByDefine(before: Exec, mid: Exec, limit: nat, readLog: seq<string>, v: ValueId, text: string)
    requires Kept(before, mid, limit, readLog) && limit <= v.number
    ensures Kept(before, mid.Define(Some(v), text), limit, readLog)
  {
  }

  lemma KeptByLogged(before: Exec, mid: Exec, limit: nat, readLog: seq<string>, name: string)
    requires Kept(before, mid, limit, readLog)
    ensures Kept(before, mid.Logged(name), limit, readLog + [name])
  {
    assert (before.log + readLog) + [name] == before.log + (readLog + [name]);
  }

  /** The state after hybrid execution. */
  function After(lib: Library, s: Exec, ir: Ir): Exec {
    RunHybrid(lib, s, ir.code).state
  }

  ghost predicate Runs(lib: Library, s: Exec, ir: Ir) {
    !RunHybrid(lib, s, ir.code).failed
  }

  /** Executing the code from `ir` to `next` puts the value of the expression into v and logs its reads. */
  ghost predicate Evaluates(lib: Library, s: Exec, ir: Ir, next: Ir, v: ValueId, e: Expr) {
    && Runs(lib, s, next)
    && Kept(After(lib, s, ir), After(lib, s, next), ir.nextValue, ExprReads(e))
    && v in After(lib, s, next).values
    && After(lib, s, next).Value(v) == ExprValue(lib, After(lib, s, ir).vars, e)
  }

  lemma LitEvaluates(lib: Library, s: Exec, ir: Ir, text: string)
    requires Runs(lib, s, ir)
    ensures Evaluates(lib, s, ir, ir.Produce(StringLiteral(text)), ValueId(ir.nextValue), Lit(text))
  {
    var next := ir.Produce(StringLiteral(text));
    RunOneMore(lib, s, ir, next, next.code[|ir.code|]);
  }

  lemma ReadEvaluates(lib: Library, s: Exec, ir: Ir, name: string, expand: bool)
    requires Runs(lib, s, ir)
    ensures Evaluates(lib, s, ir, ir.Reading(name).Produce(GetVar(name, expand)), ValueId(ir.nextValue), Read(name, expand))
  {
    var next := ir.Reading(name).Produce(GetVar(name, expand));
    RunOneMore(lib, s, ir, next, next.code[|ir.code|]);
  }

  lemma HasEvaluates(lib: Library, s: Exec, ir: Ir, one: Ir, a: ValueId, t: Expr, two: Ir, b: ValueId, f: Expr,
                     name: string, item: string)
    requires Evaluates(lib, s, ir, one, a, t) && Evaluates(lib, s, one, two, b, f)
    requires a.number < one.nextValue && ir.nextValue <= one.nextValue <= two.nextValue
    ensures Evaluates(lib, s, ir, two.Reading(name).Produce(Contains(name, item, a, b)), ValueId(two.nextValue),
                      Has(name, item, t, f))
  {
    var next, v := two.Reading(name).Produce(Contains(name, item, a, b)), ValueId(two.nextValue);
    var s0, s1, s2 := After(lib, s, ir), After(lib, s, one), After(lib, s, two);
    KeptTwice(s0, s1, s2, ir.nextValue, one.nextValue, ExprReads(t), ExprReads(f));
    assert s2.Value(a) == s1.Value(a);
    RunOneMore(lib, s, two, next, next.code[|two.code|]);
    KeptByLogged(s0, s2, ir.nextValue, ExprReads(t) + ExprReads(f), name);
    ContainsIff(s2.vars, name, item);
    var text := s2.Value(if HasItem(s2.vars, name, item) then a else b);
    KeptByDefine(s0, s2.Logged(name), ir.nextValue, ExprReads(t) + ExprReads(f) + [name], v, text);
    assert After(lib, s, next) == s2.Logged(name).Define(Some(v), text);
  }

  lemma ChooseEvaluates(lib: Library, s: Exec, ir: Ir, one: Ir, a: ValueId, c: Expr, two: Ir, b: ValueId, t: Expr,
                        three: Ir, d: ValueId, f: Expr)
    requires Evaluates(lib, s, ir, one, a, c) && Evaluates(lib, s, one, two, b, t) && Evaluates(lib, s, two, three, d, f)
    requires a.number < one.nextValue && b.number < two.nextValue
    requires ir.nextValue <= one.nextValue <= two.nextValue <= three.nextValue
    ensures Evaluates(lib, s, ir, three.Produce(Conditional(a, b, d)), ValueId(three.nextValue), Choose(c, t, f))
  {
    var next, v := three.Produce(Conditional(a, b, d)), ValueId(three.nextValue);
    var s0, s1, s2, s3 := After(lib, s, ir), After(lib, s, one), After(lib, s, two), After(lib, s, three);
    KeptTwice(s0, s1, s2, ir.nextValue, one.nextValue, ExprReads(c), ExprReads(t));
    KeptTwice(s0, s2, s3, ir.nextValue, two.nextValue, ExprReads(c) + ExprReads(t), ExprReads(f));
    assert s2.Value(a) == s1.Value(a) && s3.Value(a) == s2.Value(a) && s3.Value(b) == s2.Value(b);
    RunOneMore(lib, s, three, next, next.code[|three.code|]);
    ConditionIff(s3.Value(a));
    var text := s3.Value(if EvaluateCondition(s3.Value(a)) then b else d);
    KeptByDefine(s0, s3, ir.nextValue, ExprReads(c) + ExprReads(t) + ExprReads(f), v, text);
    assert After(lib, s, next) == s3.Define(Some(v), text);
  }

  lemma EmitHasEvaluates(lib: Library, s: Exec, ir: Ir, one: Ir, a: ValueId, t: Expr, two: Ir, b: ValueId, f: Expr,
                         name: string, item: string)
    requires EmitExpr(ir, t) == (one, a) && EmitExpr(one, f) == (two, b)
    requires Evaluates(lib, s, ir, one, a, t) && Evaluates(lib, s, one, two, b, f)
    ensures var (next, v) := EmitExpr(ir, Has(name, item, t, f)); Evaluates(lib, s, ir, next, v, Has(name, item, t, f))
  {
    EmitExprCounts(ir, t);
    EmitExprCounts(one, f);
    HasEvaluates(lib, s, ir, one, a, t, two, b, f, name, item);
  }

  lemma EmitExprNumbers(ir: Ir, e: Expr, next: Ir, v: ValueId)
    requires EmitExpr(ir, e) == (next, v)
    ensures ir.nextValue <= v.number < next.nextValue
  {
    EmitExprCounts(ir, e);
  }

  lemma EmitChooseIs(ir: Ir, one: Ir, a: ValueId, c: Expr, two: Ir, b: ValueId, t: Expr, three: Ir, d: ValueId, f: Expr)
    requires EmitExpr(ir, c) == (one, a) && EmitExpr(one, t) == (two, b) && EmitExpr(two, f) == (three, d)
    ensures EmitExpr(ir, Choose(c, t, f)) == (three.Produce(Conditional(a, b, d)), ValueId(three.nextValue))
  {
  }

  lemma EmitChooseEvaluates(lib: Library, s: Exec, ir: Ir, one: Ir, a: ValueId, c: Expr, two: Ir, b: ValueId, t: Expr,
                            three: Ir, d: ValueId, f: Expr)
    requires EmitExpr(ir, c) == (one, a) && EmitExpr(one, t) == (two, b) && EmitExpr(two, f) == (three, d)
    requires Evaluates(lib, s, ir, one, a, c) && Evaluates(lib, s, one, two, b, t) && Evaluates(lib, s, two, three, d, f)
    ensures var (next, v) := EmitExpr(ir, Choose(c, t, f)); Evaluates(lib, s, ir, next, v, Choose(c, t, f))
  {
    EmitExprNumbers(ir, c, one, a);
    EmitExprNumbers(one, t, two, b);
    EmitExprNumbers(two, f, three, d);
    EmitChooseIs(ir, one, a, c, two, b, t, three, d, f);
    ChooseEvaluates(lib, s, ir, one, a, c, two, b, t, three, d, f);
  }

  lemma {:induction false} EmitExprEvaluates(lib: Library, s: Exec, ir: Ir, e: Expr)
    requires Runs(lib, s, ir)
    ensures var (next, v) := EmitExpr(ir, e); Evaluates(lib, s, ir, next, v, e)
    decreases e
  {
    match e {
      case Lit(text) => LitEvaluates(lib, s, ir, text);
      case Read(name, expand) => ReadEvaluates(lib, s, ir, name, expand);
      case Has(name, item, t, f) =>
        var (one, a) := EmitExpr(ir, t);
        var (two, b) := EmitExpr(one, f);
        EmitExprEvaluates(lib, s, ir, t);
        EmitExprEvaluates(lib, s, one, f);
        EmitHasEvaluates(lib, s, ir, one, a, t, two, b, f, name, item);
      case Choose(c, t, f) =>
        var (one, a) := EmitExpr(ir, c);
        var (two, b) := EmitExpr(one, t);
        var (three, d) := EmitExpr(two, f);
        EmitExprEvaluates(lib, s, ir, c);
        EmitExprEvaluates(lib, s, one, t);
        EmitExprEvaluates(lib, s, two, f);
        EmitChooseEvaluates(lib, s, ir, one, a, c, two, b, t, three, d, f);
    }
  }

  function StoreKind(stmt: Stmt, v: ValueId): OpKind {
    match stmt
    case Set(name, _) => SetVar(name, v)
    case Append(name, _) => AppendVar(name, v)
    case Prepend(name, _) => PrependVar(name, v)
  }

  lemma EmitStmtAdds(ir: Ir, stmt: Stmt, mid: Ir, v: ValueId)
    requires (mid, v) == EmitExpr(ir, stmt.value)
    ensures EmitStmt(ir, stmt).code == mid.code + [Operation(OpId(|mid.code|), StoreKind(stmt, v), None, [])]
    ensures EmitStmt(ir, stmt).readLog == mid.readLog
  {
  }

  lemma StoreRuns(lib: Library, s: Exec, stmt: Stmt, v: ValueId, before: Vars)
    requires s.vars == before && v in s.values && s.values[v] == ExprValue(lib, before, stmt.value)
    ensures Store(lib, s, StoreKind(stmt, v)) == s.(vars := RunStmt(lib, before, stmt))
  {
  }

  lemma StoreAfterValue(lib: Library, s: Exec, ir: Ir, mid: Ir, v: ValueId, next: Ir, stmt: Stmt)
    requires Evaluates(lib, s, ir, mid, v, stmt.value)
    requires next.code == mid.code + [Operation(OpId(|mid.code|), StoreKind(stmt, v), None, [])]
    ensures Runs(lib, s, next)
    ensures After(lib, s, next).vars == RunStmt(lib, After(lib, s, ir).vars, stmt)
    ensures After(lib, s, next).log == After(lib, s, ir).log + ExprReads(stmt.value)
  {
    var op := Operation(OpId(|mid.code|), StoreKind(stmt, v), None, []);
    RunOneMore(lib, s, mid, next, op);
    StoreRuns(lib, After(lib, s, mid), stmt, v, After(lib, s, ir).vars);
    assert StepHybrid(lib, After(lib, s, mid), op) == Outcome(Store(lib, After(lib, s, mid), op.kind), false);
  }

  lemma EmitStmtRuns(lib: Library, s: Exec, ir: Ir, stmt: Stmt)
    requires Runs(lib, s, ir)
    ensures var next := EmitStmt(ir, stmt);
            && Runs(lib, s, next)
            && After(lib, s, next).vars == RunStmt(lib, After(lib, s, ir).vars, stmt)
            && After(lib, s, next).log == After(lib, s, ir).log + ExprReads(stmt.value)
            && next.readLog == ir.readLog + ExprReads(stmt.value)
  {
    var (mid, v) := EmitExpr(ir, stmt.value);
    var next := EmitStmt(ir, stmt);
    EmitExprEvaluates(lib, s, ir, stmt.value);
    EmitExprCounts(ir, stmt.value);
    EmitStmtAdds(ir, stmt, mid, v);
    StoreAfterValue(lib, s, ir, mid, v, next, stmt);
  }

  /** Compiling a list of statements and executing the code in hybrid mode gives the same variables
      and the same reads as evaluating the statements directly; the reads are also those that the
      builder has recorded without executing anything. */
  lemma {:induction false} CompilationKeepsMeaning(lib: Library, vars: Vars, stmts: seq<Stmt>)
    ensures var ir, s := EmitStmts(EMPTY, stmts), Exec(vars, map[], []);
            && Runs(lib, s, ir)
            && After(lib, s, ir).vars == RunStmts(lib, vars, stmts)
            && After(lib, s, ir).log == StmtsReads(stmts) == ir.readLog
    decreases |stmts|
  {
    if stmts != [] {
      var front := stmts[..|stmts| - 1];
      CompilationKeepsMeaning(lib, vars, front);
      EmitStmtRuns(lib, Exec(vars, map[], []), EmitStmts(EMPTY, front), stmts[|stmts| - 1]);
    }
  }

  // ---- The score of compiled code ----

  /** What an expression costs: 1 for a plain read, 4 for an expanding one, 5 for a test or a choice. */
  function ExprCost(e: Expr): nat {
    match e
    case Lit(_) => 0
    case Read(_, expand) => if expand then 4 else 1
    case Has(_, _, t, f) => 5 + ExprCost(t) + ExprCost(f)
    case Choose(c, t, f) => 5 + ExprCost(c) + ExprCost(t) + ExprCost(f)
  }

  /** What statements cost: 1 for setting a variable, 2 for extending one, and the expressions. */
  function StmtsCost(stmts: seq<Stmt>): nat {
    if stmts == [] then 0
    else
      var last := stmts[|stmts| - 1];
      StmtsCost(stmts[..|stmts| - 1]) + ExprCost(last.value) + if last.Set? then 1 else 2
  }

  lemma OneMoreCost(code: seq<Operation>, op: Operation, more: seq<Operation>)
    requires more == code + [op]
    ensures TotalCost(more) == TotalCost(code) + Cost(op.kind)
  {
    assert more[..|more| - 1] == code;
  }

  lemma ProduceCosts(ir: Ir, kind: OpKind, next: Ir)
    requires next.code == ir.Produce(kind).code
    ensures TotalCost(next.code) == TotalCost(ir.code) + Cost(kind)
  {
    OneMoreCost(ir.code, Operation(OpId(|ir.code|), kind, Some(ValueId(ir.nextValue)), []), next.code);
  }

  lemma HasCosts(ir: Ir, one: Ir, a: ValueId, t: Expr, two: Ir, b: ValueId, f: Expr, name: string, item: string, n: nat)
    requires EmitExpr(ir, t) == (one, a) && EmitExpr(one, f) == (two, b)
    requires TotalCost(two.code) == n
    ensures TotalCost(EmitExpr(ir, Has(name, item, t, f)).0.code) == n + 5
  {
    ProduceCosts(two, Contains(name, item, a, b), EmitExpr(ir, Has(name, item, t, f)).0);
  }

  lemma ChooseCosts(ir: Ir, one: Ir, a: ValueId, c: Expr, two: Ir, b: ValueId, t: Expr, three: Ir, d: ValueId, f: Expr, n: nat)
    requires EmitExpr(ir, c) == (one, a) && EmitExpr(one, t) == (two, b) && EmitExpr(two, f) == (three, d)
    requires TotalCost(three.code) == n
    ensures TotalCost(EmitExpr(ir, Choose(c, t, f)).0.code) == n + 5
  {
    EmitChooseIs(ir, one, a, c, two, b, t, three, d, f);
    ProduceCosts(three, Conditional(a, b, d), three.Produce(Conditional(a, b, d)));
  }

  lemma {:induction false} EmitExprCosts(ir: Ir, e: Expr)
    ensures TotalCost(EmitExpr(ir, e).0.code) == TotalCost(ir.code) + ExprCost(e)
    decreases e
  {
    match e {
      case Lit(text) =>
        ProduceCosts(ir, StringLiteral(text), EmitExpr(ir, e).0);
      case Read(name, expand) =>
        ProduceCosts(ir, GetVar(name, expand), EmitExpr(ir, e).0);
      case Has(name, item, t, f) =>
        var (one, a) := EmitExpr(ir, t);
        var (two, b) := EmitExpr(one, f);
        EmitExprCosts(ir, t);
        EmitExprCosts(one, f);
        HasCosts(ir, one, a, t, two, b, f, name, item, TotalCost(two.code));
      case Choose(c, t, f) =>
        var (one, a) := EmitExpr(ir, c);
        var (two, b) := EmitExpr(one, t);
        var (three, d) := EmitExpr(two, f);
        EmitExprCosts(ir, c);
        EmitExprCosts(one, t);
        EmitExprCosts(two, f);
        ChooseCosts(ir, one, a, c, two, b, t, three, d, f, TotalCost(three.code));
    }
  }

  /** The score of compiled statements, from the statements alone. */
  lemma {:induction false} CompiledCost(stmts: seq<Stmt>)
    ensures TotalCost(EmitStmts(EMPTY, stmts).code) == StmtsCost(stmts)
    decreases |stmts|
  {
    if stmts != [] {
      var front, stmt := stmts[..|stmts| - 1], stmts[|stmts| - 1];
      CompiledCost(front);
      var ir := EmitStmts(EMPTY, front);
      var (mid, v) := EmitExpr(ir, stmt.value);
      var next := EmitStmt(ir, stmt);
      EmitExprCosts(ir, stmt.value);
      EmitStmtAdds(ir, stmt, mid, v);
      StoreCosts(mid.code, stmt, v, next.code);
      assert EmitStmts(EMPTY, stmts) == next;
    }
  }

  lemma StoreCosts(code: seq<Operation>, stmt: Stmt, v: ValueId, next: seq<Operation>)
    requires next == code + [Operation(OpId(|code|), StoreKind(stmt, v), None, [])]
    ensures TotalCost(next) == TotalCost(code) + if stmt.Set? then 1 else 2
  {
    OneMoreCost(code, Operation(OpId(|code|), StoreKind(stmt, v), None, []), next);
  }

  // ---- Compiled code through the front door ----

  /** Only operations for reads, choices and stores, of which only stores have no result. */
  ghost predicate OnlyTrees(code: seq<Operation>) {
    forall op :: op in code ==> Produces(op.kind) || (IsStore(op.kind) && op.result.None?)
  }

  lemma {:induction false} EmitExprOnlyTrees(ir: Ir, e: Expr)
    requires OnlyTrees(ir.code)
    ensures OnlyTrees(EmitExpr(ir, e).0.code)
    decreases e
  {
    match e {
      case Lit(_) =>
      case Read(_, _) =>
      case Has(_, _, t, f) =>
        EmitExprOnlyTrees(ir, t);
        EmitExprOnlyTrees(EmitExpr(ir, t).0, f);
      case Choose(c, t, f) =>
        EmitExprOnlyTrees(ir, c);
        var one := EmitExpr(ir, c).0;
        EmitExprOnlyTrees(one, t);
        EmitExprOnlyTrees(EmitExpr(one, t).0, f);
    }
  }

  lemma {:induction false} EmittedOnlyTrees(stmts: seq<Stmt>)
    ensures OnlyTrees(EmitStmts(EMPTY, stmts).code)
  {
    if stmts != [] {
      var front, stmt := stmts[..|stmts| - 1], stmts[|stmts| - 1];
      EmittedOnlyTrees(front);
      var ir := EmitStmts(EMPTY, front);
      EmitExprOnlyTrees(ir, stmt.value);
      EmitStmtAdds(ir, stmt, EmitExpr(ir, stmt.value).0, EmitExpr(ir, stmt.value).1);
    }
  }

  lemma StaticRunsAgree(lib: Library, s: Exec, code: seq<Operation>)
    requires OnlyTrees(code) && StrategyFor(Score(code)) == Static
    ensures RunHybrid(lib, s, code) == Outcome(RunStatic(lib, s, code), false)
  {
    forall op | op in code ensures Cost(op.kind) <= 3 {
      CostIsCounted(code, op);
    }
    RunsAgree(lib, s, code);
  }

  /** What the statements make of the variables, as a result. */
  ghost function Meaning(lib: Library, vars: Vars, stmts: seq<Stmt>, strategy: ExecutionStrategy): ExecutionResult {
    ExecutionResult(RunStmts(lib, vars, stmts), StmtsReads(stmts), true, strategy)
  }

  lemma CompiledHybrid(lib: Library, vars: Vars, stmts: seq<Stmt>)
    ensures var out := RunHybrid(lib, Exec(vars, map[], []), EmitStmts(EMPTY, stmts).code);
            !out.failed && out.state.vars == RunStmts(lib, vars, stmts) && out.state.log == StmtsReads(stmts)
  {
    CompilationKeepsMeaning(lib, vars, stmts);
  }

  lemma CompiledStatic(lib: Library, vars: Vars, stmts: seq<Stmt>)
    requires Score(EmitStmts(EMPTY, stmts).code) <= 3
    ensures var after := RunStatic(lib, Exec(vars, map[], []), EmitStmts(EMPTY, stmts).code);
            after.vars == RunStmts(lib, vars, stmts) && after.log == StmtsReads(stmts)
  {
    CompiledHybrid(lib, vars, stmts);
    EmittedOnlyTrees(stmts);
    StaticRunsAgree(lib, Exec(vars, map[], []), EmitStmts(EMPTY, stmts).code);
  }

  lemma CompiledIsNotComplex(stmts: seq<Stmt>)
    ensures FirstComplex(EmitStmts(EMPTY, stmts).code) == None
  {
    EmittedOnlyTrees(stmts);
    FirstComplexIsFirst(EmitStmts(EMPTY, stmts).code);
  }

  /** What the score decides about code of known effect. */
  lemma ExecutedAs(lib: Library, vars: Vars, s: Exec, code: seq<Operation>, score: nat, after: Exec,
                   result: ExecutionResult, vars': Vars, log: seq<string>)
    requires Executes(lib, vars, s, code, score, after, result)
    requires score <= 3 ==> RunStatic(lib, s, code).vars == vars' && RunStatic(lib, s, code).log == log
    requires RunHybrid(lib, s, code).state.vars == vars' && RunHybrid(lib, s, code).state.log == log
    requires !RunHybrid(lib, s, code).failed && FirstComplex(code) == None
    ensures result == if score <= 50 then ExecutionResult(vars', log, true, StrategyFor(score)) else Failed(RustPython)
  {
  }

  /** How statements are executed: statically up to a cost of 3, and otherwise in hybrid mode. */
  function ModeFor(stmts: seq<Stmt>): ExecutionStrategy {
    if StmtsCost(stmts) <= 3 then Static else Hybrid
  }

  /** Executing compiled statements succeeds exactly up to a cost of 50, and then the result is what
      the statements mean. */
  lemma CompiledExecution(lib: Library, vars: Vars, stmts: seq<Stmt>, score: nat, after: Exec, result: ExecutionResult)
    requires score == Score(EmitStmts(EMPTY, stmts).code)
    requires Executes(lib, vars, Exec(vars, map[], []), EmitStmts(EMPTY, stmts).code, score, after, result)
    ensures result == if StmtsCost(stmts) <= 50 then Meaning(lib, vars, stmts, ModeFor(stmts)) else Failed(RustPython)
  {
    CompiledHybrid(lib, vars, stmts);
    CompiledIsNotComplex(stmts);
    CompiledCost(stmts);
    if score <= 3 {
      CompiledStatic(lib, vars, stmts);
    }
    ExecutedAs(lib, vars, Exec(vars, map[], []), EmitStmts(EMPTY, stmts).code, score, after, result,
               RunStmts(lib, vars, stmts), StmtsReads(stmts));
  }

  method CompileAndExecute(lib: Library, vars: Vars, stmts: seq<Stmt>) returns (result: ExecutionResult)
    ensures result == if StmtsCost(stmts) <= 50 then Meaning(lib, vars, stmts, ModeFor(stmts)) else Failed(RustPython)
  {
    var ir := Compile(stmts);
    var executor := new IRExecutor(lib, vars);
    ghost var before, code := executor.State(), ir.Code();
    assert code == ir.Model().code;
    result := executor.Execute(ir);
    CompiledExecution(lib, vars, stmts, ir.complexityScore, executor.State(), result);
  }
}
