/** What the single operations of the intermediate code compute. */
module PythonOperations {
  import opened PythonExecutor
  import opened PythonIR
  import opened Wrappers
  import opened WordTheorems
  import StringOrder
  import Text

  /** Executing an operation of this kind succeeds and gives this text to its result, if it has one. */
  ghost predicate Gives(lib: Library, s: Exec, kind: OpKind, text: string) {
    forall op: Operation :: op.kind == kind ==> StepHybrid(lib, s, op) == Outcome(s.Define(op.result, text), false)
  }

  // ---- Reading ----

  /** The variable's value; a variable that is not set is empty. */
  function Current(vars: Vars, name: string): string {
    if name in vars then vars[name] else ""
  }

  /** A containment test chooses the first value exactly if the item stands on its own in the variable. */
  lemma ContainsIff(vars: Vars, name: string, item: string)
    ensures HasItem(vars, name, item) <==> Lists(Current(vars, name), item)
  {
    AmongWordsIff(Current(vars, name), item);
  }

  /** A read gives the variable's text, expanded if that is asked for. */
  lemma ReadGives(lib: Library, vars: Vars, name: string)
    ensures ReadVariable(lib, vars, name, false) == Current(vars, name)
    ensures name in vars ==> ReadVariable(lib, vars, name, true) == lib.expandValue(vars, vars[name])
    ensures name !in vars ==> ReadVariable(lib, vars, name, true) == ""
  {
  }

  /** A deleted variable reads as empty, and the others as before; deleting cannot fail. */
  lemma DeletedIsGone(lib: Library, s: Exec, op: Operation, name: string, other: string, expand: bool)
    requires op.kind == DelVar(name)
    ensures var out := StepHybrid(lib, s, op);
            && !out.failed && out.state.values == s.values && out.state.log == s.log
            && name !in out.state.vars && ReadVariable(lib, out.state.vars, name, expand) == ""
            && (other != name ==> (other in out.state.vars <==> other in s.vars)
                                  && Current(out.state.vars, other) == Current(s.vars, other))
  {
  }

  // ---- Conditions ----

  /** The texts that count as false. */
  ghost predicate Falsy(text: string) {
    text in {"False", "false", "0", "no", ""}
  }

  lemma ConditionIff(text: string)
    ensures EvaluateCondition(text) <==> !Falsy(text)
  {
  }

  /** What is written for a truth value is read back as that value. */
  lemma VerdictReadsBack(b: bool)
    ensures EvaluateCondition(Verdict(b)) == b
  {
  }

  function LogicalText(s: Exec, left: ValueId, right: ValueId, op: LogicalOp): string {
    Verdict(CombineTexts(s.Value(left), s.Value(right), op))
  }

  lemma LogicalGives(lib: Library, s: Exec, left: ValueId, right: ValueId, op: LogicalOp)
    ensures Gives(lib, s, Logical(left, right, op), LogicalText(s, left, right, op))
  {
  }

  /** The connectives by the truth of their operands. */
  lemma LogicalIff(s: Exec, left: ValueId, right: ValueId)
    ensures Falsy(LogicalText(s, left, right, LogicalAnd)) <==> Falsy(s.Value(left)) || Falsy(s.Value(right))
    ensures Falsy(LogicalText(s, left, right, LogicalOr)) <==> Falsy(s.Value(left)) && Falsy(s.Value(right))
    ensures Falsy(LogicalText(s, left, right, LogicalNot)) <==> !Falsy(s.Value(left))
  {
    ConditionIff(s.Value(left));
    ConditionIff(s.Value(right));
    forall op: LogicalOp ensures Falsy(LogicalText(s, left, right, op)) <==> !CombineTexts(s.Value(left), s.Value(right), op) {
      VerdictReadsBack(CombineTexts(s.Value(left), s.Value(right), op));
      ConditionIff(LogicalText(s, left, right, op));
    }
  }

  /** The negation of a conjunction and the disjunction of the negations come out alike. */
  lemma DeMorgan(s: Exec, a: ValueId, b: ValueId, both: ValueId, notA: ValueId, notB: ValueId, any: ValueId)
    requires s.Value(both) == LogicalText(s, a, b, LogicalAnd)
    requires s.Value(notA) == LogicalText(s, a, any, LogicalNot) && s.Value(notB) == LogicalText(s, b, any, LogicalNot)
    ensures Falsy(LogicalText(s, both, any, LogicalNot)) <==> Falsy(LogicalText(s, notA, notB, LogicalOr))
  {
    LogicalIff(s, a, b);
    LogicalIff(s, a, any);
    LogicalIff(s, b, any);
    LogicalIff(s, both, any);
    LogicalIff(s, notA, notB);
  }

  // ---- Comparisons ----

  predicate Compares(s: Exec, left: ValueId, right: ValueId, op: CompareOp) {
    CompareTexts(s.Value(left), s.Value(right), op)
  }

  lemma CompareGives(lib: Library, s: Exec, left: ValueId, right: ValueId, op: CompareOp)
    ensures Gives(lib, s, Compare(left, right, op), if Compares(s, left, right, op) then "True" else "False")
  {
  }

  /** left is smaller than right by the first character in which they differ. */
  ghost predicate Smaller(left: string, right: string) {
    exists k :: StringOrder.SmallerFrom(left, right, k)
  }

  lemma SmallerIff(left: string, right: string)
    ensures Smaller(left, right) <==> left != right && StringOrder.AtMost(left, right)
  {
    StringOrder.AtMostIff(left, right);
    if k: nat :| StringOrder.SmallerFrom(left, right, k) {
      assert k < |left| ==> left[k] != right[k];
    }
  }

  /** The comparisons, by the first difference of the texts; exactly one of smaller, equal and greater holds. */
  lemma ComparesIff(s: Exec, left: ValueId, right: ValueId)
    ensures var a, b := s.Value(left), s.Value(right);
            && (Compares(s, left, right, Eq) <==> a == b)
            && (Compares(s, left, right, Ne) <==> a != b)
            && (Compares(s, left, right, Lt) <==> Smaller(a, b))
            && (Compares(s, left, right, Gt) <==> Smaller(b, a))
            && (Compares(s, left, right, Le) <==> !Smaller(b, a))
            && (Compares(s, left, right, Ge) <==> !Smaller(a, b))
            && (a != b <==> Smaller(a, b) || Smaller(b, a)) && !(Smaller(a, b) && Smaller(b, a))
            && (Compares(s, left, right, In) <==> Lists(b, a))
  {
    var a, b := s.Value(left), s.Value(right);
    SmallerIff(a, b);
    SmallerIff(b, a);
    StringOrder.AtMostTotal(a, b);
    AmongWordsIff(b, a);
  }

  // ---- Texts ----

  lemma ConcatGives(lib: Library, s: Exec, left: ValueId, right: ValueId)
    ensures Gives(lib, s, Concat(left, right), s.Value(left) + s.Value(right))
  {
  }

  function Concatenated(id: nat, left: ValueId, right: ValueId, result: ValueId): Operation {
    Operation(OpId(id), Concat(left, right), Some(result), [])
  }

  /** Three values can be put together from the left or from the right; a value that was never
      defined is like an empty one. */
  lemma ConcatIsAssociative(lib: Library, s: Exec, a: ValueId, b: ValueId, c: ValueId, m: ValueId, r: ValueId)
    requires m !in {a, b, c, r}
    ensures var one := RunHybrid(lib, s, [Concatenated(0, a, b, m), Concatenated(1, m, c, r)]);
            var two := RunHybrid(lib, s, [Concatenated(0, b, c, m), Concatenated(1, a, m, r)]);
            && !one.failed && !two.failed && one.state.Value(r) == two.state.Value(r)
            && one.state.Value(r) == s.Value(a) + s.Value(b) + s.Value(c)
  {
    LeftPairFirst(lib, s, a, b, c, m, r);
    RightPairFirst(lib, s, a, b, c, m, r);
  }

  lemma LeftPairFirst(lib: Library, s: Exec, a: ValueId, b: ValueId, c: ValueId, m: ValueId, r: ValueId)
    requires m != c
    ensures var one := RunHybrid(lib, s, [Concatenated(0, a, b, m), Concatenated(1, m, c, r)]);
            !one.failed && one.state.Value(r) == s.Value(a) + s.Value(b) + s.Value(c)
  {
    var pair := s.Value(a) + s.Value(b);
    ConcatTwice(lib, s, a, b, m, m, c, r);
    DefinedValue(s, m, pair, m);
    DefinedValue(s, m, pair, c);
  }

  lemma RightPairFirst(lib: Library, s: Exec, a: ValueId, b: ValueId, c: ValueId, m: ValueId, r: ValueId)
    requires m != a
    ensures var two := RunHybrid(lib, s, [Concatenated(0, b, c, m), Concatenated(1, a, m, r)]);
            !two.failed && two.state.Value(r) == s.Value(a) + s.Value(b) + s.Value(c)
  {
    var pair := s.Value(b) + s.Value(c);
    ConcatTwice(lib, s, b, c, m, a, m, r);
    DefinedValue(s, m, pair, m);
    DefinedValue(s, m, pair, a);
    assert s.Value(a) + pair == s.Value(a) + s.Value(b) + s.Value(c);
  }

  lemma DefinedValue(s: Exec, m: ValueId, text: string, x: ValueId)
    ensures s.Define(Some(m), text).Value(x) == if x == m then text else s.Value(x)
  {
  }

  lemma ConcatTwice(lib: Library, s: Exec, a: ValueId, b: ValueId, m: ValueId, c: ValueId, d: ValueId, r: ValueId)
    ensures var out := RunHybrid(lib, s, [Concatenated(0, a, b, m), Concatenated(1, c, d, r)]);
            var mid := s.Define(Some(m), s.Value(a) + s.Value(b));
            !out.failed && out.state.Value(r) == mid.Value(c) + mid.Value(d)
  {
    var one, two := Concatenated(0, a, b, m), Concatenated(1, c, d, r);
    var mid := s.Define(Some(m), s.Value(a) + s.Value(b));
    ConcatStep(lib, s, 0, a, b, m);
    ConcatStep(lib, mid, 1, c, d, r);
    DefinedValue(mid, r, mid.Value(c) + mid.Value(d), r);
    RunTwo(lib, s, one, two);
  }

  lemma ConcatStep(lib: Library, s: Exec, id: nat, a: ValueId, b: ValueId, r: ValueId)
    ensures var out := StepHybrid(lib, s, Concatenated(id, a, b, r));
            !out.failed && out.state == s.Define(Some(r), s.Value(a) + s.Value(b))
  {
  }

  lemma RunTwo(lib: Library, s: Exec, one: Operation, two: Operation)
    requires !StepHybrid(lib, s, one).failed
    ensures RunHybrid(lib, s, [one, two]) == StepHybrid(lib, StepHybrid(lib, s, one).state, two)
  {
    assert [one][..0] == [] && RunHybrid(lib, s, [one]) == StepHybrid(lib, s, one);
    assert [one, two][..1] == [one];
  }

  /** The texts of those ids that have one. */
  function DefinedTexts(s: Exec, ids: seq<ValueId>): seq<string> {
    if ids == [] then []
    else (if ids[0] in s.values then [s.values[ids[0]]] else []) + DefinedTexts(s, ids[1..])
  }

  lemma {:induction false} SpacedAppend(texts: seq<string>, last: string)
    ensures Spaced(texts + [last]) == if texts == [] then last else Spaced(texts) + " " + last
  {
    if |texts| > 1 {
      SpacedAppend(texts[1..], last);
      assert (texts + [last])[1..] == texts[1..] + [last];
    } else if |texts| == 1 {
      assert (texts + [last])[1..] == [last];
    }
  }

  lemma {:induction false} DefinedAppend(s: Exec, ids: seq<ValueId>, last: ValueId)
    ensures DefinedTexts(s, ids + [last]) == DefinedTexts(s, ids) + if last in s.values then [s.values[last]] else []
  {
    if ids == [] {
      assert ([] + [last])[1..] == [];
    } else {
      assert (ids + [last])[1..] == ids[1..] + [last];
      DefinedAppend(s, ids[1..], last);
    }
  }

  lemma {:induction false} NothingDefined(s: Exec, ids: seq<ValueId>)
    ensures DefinedTexts(s, ids) == [] <==> forall i :: 0 <= i < |ids| ==> ids[i] !in s.values
  {
    if ids != [] {
      NothingDefined(s, ids[1..]);
      assert forall i :: 1 <= i < |ids| ==> ids[i] == ids[1..][i - 1];
    }
  }

  lemma {:induction false} JoinDefinedIsSpaced(s: Exec, ids: seq<ValueId>)
    ensures JoinDefined(s, ids) == Spaced(DefinedTexts(s, ids))
    decreases |ids|
  {
    if ids != [] {
      var front, last := ids[..|ids| - 1], ids[|ids| - 1];
      assert ids == front + [last];
      JoinDefinedIsSpaced(s, front);
      DefinedAppend(s, front, last);
      NothingDefined(s, front);
      assert forall i :: 0 <= i < |front| ==> front[i] == ids[i];
      if last in s.values {
        SpacedAppend(DefinedTexts(s, front), s.values[last]);
      } else {
        assert DefinedTexts(s, front) + [] == DefinedTexts(s, front);
      }
    }
  }

  /** A list becomes the texts of its defined items with spaces between them. */
  lemma ListGives(lib: Library, s: Exec, items: seq<ValueId>)
    ensures Gives(lib, s, ListLiteral(items), Spaced(DefinedTexts(s, items)))
  {
    JoinDefinedIsSpaced(s, items);
  }

  /** A list of words is one in which a containment test finds exactly those words. */
  lemma ListHolds(s: Exec, items: seq<ValueId>, vars: Vars, name: string, item: string)
    requires AreSingleWords(DefinedTexts(s, items))
    requires name in vars && vars[name] == JoinDefined(s, items)
    ensures HasItem(vars, name, item) <==> item in DefinedTexts(s, items)
  {
    JoinDefinedIsSpaced(s, items);
    WordsOfSpaced(DefinedTexts(s, items));
  }

  // ---- String methods ----

  lemma {:induction false} ValuesInOrder(s: Exec, ids: seq<ValueId>)
    ensures |ValuesOf(s, ids)| == |ids|
    ensures forall i :: 0 <= i < |ids| ==> ValuesOf(s, ids)[i] == s.Value(ids[i])
    decreases |ids|
  {
    if ids != [] {
      ValuesInOrder(s, ids[..|ids| - 1]);
    }
  }

  ghost predicate TakesNoArgument(m: StringMethodKind) {
    m in {Upper, Lower, Strip, LStrip, RStrip, Split}
  }

  /** Which string methods fail for want of an argument: only `replace` needs two. */
  lemma MethodFailsIff(lib: Library, s: Exec, op: Operation)
    requires op.kind.StringMethod?
    ensures StepHybrid(lib, s, op).failed <==> && op.result.Some? && !TakesNoArgument(op.kind.method')
                                               && (op.kind.args == [] || (op.kind.method' == Replace && |op.kind.args| == 1))
    ensures !StepHybrid(lib, s, op).failed && op.result.Some? ==>
              exists texts :: |texts| == |op.kind.args| && (forall i :: 0 <= i < |texts| ==> texts[i] == s.Value(op.kind.args[i]))
                              && StepHybrid(lib, s, op).state.Value(op.result.value)
                                 == lib.methodText(op.kind.method', s.Value(op.kind.value), texts)
  {
    ValuesInOrder(s, op.kind.args);
  }
}
