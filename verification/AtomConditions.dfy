/** Which conditions can be atoms: evaluating what was printed gives the meaning of the tree exactly if
    they are good. */
module AtomConditions {
  import opened Text
  import opened Wrappers
  import opened LogicalEval
  import opened LogicalTheorems

  /** Every atom of the tree is good or the given text. */
  predicate Over(t: Tree, x: string) {
    match t
    case Atom(text) => text == x || GoodAtom(text)
    case Not(c) => Over(c, x)
    case And(a, b) => Over(a, x) && Over(b, x)
    case Or(a, b) => Over(a, x) && Over(b, x)
  }

  ghost predicate Faithful(simple: Simple, t: Tree) {
    Eval(simple, Print(t)) == Meaning(simple, t)
  }

  // ---- A condition without a value ----

  /** Every condition has the value b, except one that has none. */
  function Except(x: string, b: bool): Simple {
    s => if s == x then None else Some(b)
  }

  /** A tree without a meaning whose text has a value. */
  lemma TextHasValue(simple: Simple, t: Tree, s: string)
    requires s == Print(t) && Eval(simple, s).Some? && Meaning(simple, t) == None
    ensures !Faithful(simple, t)
  {
  }

  lemma NoValue(x: string, b: bool)
    requires x != Word(true) && x != Word(false)
    ensures Meaning(Except(x, b), Atom(x)) == None && Meaning(Except(x, b), Not(Atom(x))) == None
  {
    assert Meaning(Except(x, b), Atom(x)) == None;
  }

  lemma NoValueAnd(x: string, b: bool, z: Tree)
    requires x != Word(true) && x != Word(false)
    ensures Meaning(Except(x, b), And(Atom(x), z)) == None && Meaning(Except(x, b), And(Not(Atom(x)), z)) == None
  {
    NoValue(x, b);
  }

  lemma NoValueOr(x: string, b: bool, z: Tree)
    requires x != Word(true) && x != Word(false)
    ensures Meaning(Except(x, b), Not(Or(Atom(x), z))) == None
  {
    NoValue(x, b);
    assert Meaning(Except(x, b), Or(Atom(x), z)) == None;
  }

  lemma HasValue(x: string, b: bool, s: string)
    requires s != x
    ensures EvalAtom(Except(x, b), s).Some?
  {
  }

  ghost predicate Absent(x: string, s: string) {
    forall i: nat :: !OccursAt(s, x, i)
  }

  /** Evaluating s cannot come to x. */
  ghost predicate Below(s: string, x: string) {
    Opens(s) < Opens(x) || (Opens(s) <= Opens(x) && (|s| < |x| || Absent(x, s)))
  }

  lemma OccursInWhole(s: string, i: nat, j: nat, x: string, k: nat, at: nat)
    requires i <= j <= |s| && at == i + k && OccursAt(s[i..j], x, k)
    ensures OccursAt(s, x, at)
  {
    forall m | 0 <= m < |x| ensures s[at..at + |x|][m] == x[m] {
      assert s[i..j][k..k + |x|][m] == s[i..j][k + m] == s[at + m];
    }
  }

  lemma PartBelow(s: string, i: nat, j: nat, x: string)
    requires i <= j <= |s| && (Below(s, x) || (s == x && j - i < |s|))
    ensures Below(s[i..j], x) && Opens(s[i..j]) <= Opens(s)
  {
    SplitOpens(s, i, j);
    if Absent(x, s) {
      forall k: nat ensures !OccursAt(s[i..j], x, k) {
        if OccursAt(s[i..j], x, k) {
          OccursInWhole(s, i, j, x, k, i + k);
        }
      }
    }
  }

  lemma BelowDiffers(s: string, x: string)
    requires Below(s, x)
    ensures s != x
  {
    if s == x {
      assert s[0..0 + |x|] == s;
      assert OccursAt(s, x, 0);
    }
  }

  lemma PartsTwice(s: string, t: string, r: string, i: nat, j: nat)
    requires i <= |s| && s[i..] == t && |r| <= |t| && t[..|r|] == r && j == i + |r|
    ensures r == s[i..j]
  {
  }

  lemma TrimStartIsEnd(s: string) returns (i: nat)
    ensures i <= |s| && TrimStart(s) == s[i..]
  {
    i := |s| - |TrimStart(s)|;
  }

  lemma TrimEndIsStart(s: string) returns (n: nat)
    ensures n <= |s| && TrimEnd(s) == s[..n]
  {
    n := |TrimEnd(s)|;
  }

  lemma TrimIsPart(s: string) returns (i: nat, j: nat)
    ensures i <= j <= |s| && Trim(s) == s[i..j]
  {
    i := TrimStartIsEnd(s);
    var n := TrimEndIsStart(s[i..]);
    j := i + n;
    PartsTwice(s, s[i..], s[i..][..n], i, j);
  }

  lemma TrimBelow(s: string, x: string)
    requires Below(s, x) || (s == x && Trim(s) != s)
    ensures Below(Trim(s), x) && Opens(Trim(s)) <= Opens(s) && |Trim(s)| <= |s|
  {
    var i, j := TrimIsPart(s);
    if j - i == |s| {
      assert s[i..j] == s;
    }
    PartBelow(s, i, j, x);
  }

  lemma {:induction false} EvalBelow(x: string, b: bool, s: string)
    requires Below(s, x) || (s == x && Trim(s) != s)
    ensures Eval(Except(x, b), s).Some?
    decreases Opens(s), |s|, 2
  {
    TrimBelow(s, x);
    var t := Trim(s);
    match GroupEnd(t) {
      case Some(close) => EvalGroupBelow(x, b, t, close);
      case None => EvalOperatorsBelow(x, b, t);
    }
  }

  lemma GroupPartsBelow(s: string, close: nat, x: string, v: bool)
    requires (Below(s, x) || s == x) && 0 < close < |s| && s[0] == '('
    ensures Below(s[1..close], x) && Opens(s[1..close]) < Opens(s)
    ensures Below(Word(v) + s[close + 1..], x) && Opens(Word(v) + s[close + 1..]) < Opens(s)
  {
    GroupOpens(s, close);
    WordOpens(v, s[close + 1..]);
  }

  lemma {:induction false} EvalGroupBelow(x: string, b: bool, s: string, close: nat)
    requires (Below(s, x) || s == x) && 0 < close < |s| && s[0] == '('
    ensures EvalGroup(Except(x, b), s, close).Some?
    decreases Opens(s), |s|, 0
  {
    var inner, after := s[1..close], s[close + 1..];
    GroupPartsBelow(s, close, x, true);
    EvalBelow(x, b, inner);
    var v := Eval(Except(x, b), inner).value;
    GroupPartsBelow(s, close, x, v);
    EvalBelow(x, b, Word(v) + after);
    ReplaceGroup(Except(x, b), s, close, inner, after);
  }

  /** The text is taken apart by the operators. */
  predicate HasParts(s: string) {
    Find(s, OR).Some? || Find(s, AND).Some? || StartsWith(s, NOT)
  }

  lemma {:induction false} EvalOperatorsBelow(x: string, b: bool, s: string)
    requires Below(s, x) || (s == x && HasParts(s))
    ensures EvalOperators(Except(x, b), s).Some?
    decreases Opens(s), |s|, 1
  {
    match Find(s, OR) {
      case Some(i) =>
        PartsBelow(x, b, s, i, i + 4);
        SplitAtOr(Except(x, b), s, i, s[..i], s[i + 4..]);
      case None =>
        match Find(s, AND) {
          case Some(i) =>
            PartsBelow(x, b, s, i, i + 5);
            SplitAtAnd(Except(x, b), s, i, s[..i], s[i + 5..]);
          case None =>
            if StartsWith(s, NOT) {
              PartsBelow(x, b, s, 0, 4);
              StripNot(Except(x, b), s, s[4..]);
            } else {
              BelowDiffers(s, x);
              HasValue(x, b, s);
            }
        }
    }
  }

  lemma {:induction false} PartsBelow(x: string, b: bool, s: string, i: nat, j: nat)
    requires (Below(s, x) || s == x) && i < j <= |s|
    ensures Eval(Except(x, b), s[..i]).Some? && Eval(Except(x, b), s[j..]).Some?
    decreases Opens(s), |s|, 0
  {
    PartBelow(s, 0, i, x);
    PartBelow(s, j, |s|, x);
    assert s[0..i] == s[..i] && s[j..|s|] == s[j..];
    EvalBelow(x, b, s[..i]);
    EvalBelow(x, b, s[j..]);
  }

  // ---- Conditions that are taken apart themselves ----

  /** The evaluator does not take the text for one condition. */
  predicate TakenApart(x: string) {
    (x != "" && !Trimmed(x)) || GroupEnd(x).Some? || HasParts(x)
  }

  lemma UntrimmedShrinks(x: string)
    requires x != "" && !Trimmed(x)
    ensures Trim(x) != x
  {
  }

  lemma WholeIsTrimmed(x: string)
    requires !TakenApart(x)
    ensures Trim(x) == x
  {
    if x != "" {
      TrimKeeps(x);
    }
  }

  lemma TakenApartIsUnfaithful(x: string) returns (t: Tree)
    requires TakenApart(x) && x != Word(true) && x != Word(false)
    ensures Over(t, x) && !Faithful(Except(x, true), t)
  {
    t := Atom(x);
    NoValue(x, true);
    if x != "" && !Trimmed(x) {
      UntrimmedShrinks(x);
      EvalBelow(x, true, x);
    } else if GroupEnd(x).Some? {
      TrimKeeps(x);
      EvalFindsGroup(Except(x, true), x, GroupEnd(x).value);
      EvalGroupBelow(x, true, x, GroupEnd(x).value);
    } else {
      if x != "" {
        TrimKeeps(x);
      }
      EvalOperatorsBelow(x, true, x);
    }
  }

  lemma EvalOfPlain(simple: Simple, s: string)
    requires !TakenApart(s)
    ensures Eval(simple, s) == EvalAtom(simple, s)
  {
    WholeIsTrimmed(s);
  }

  lemma PlainHasValue(x: string, b: bool, s: string)
    requires !TakenApart(s) && s != x
    ensures Eval(Except(x, b), s) == EvalAtom(Except(x, b), s) && Eval(Except(x, b), s).Some?
  {
    EvalOfPlain(Except(x, b), s);
    HasValue(x, b, s);
  }

  lemma CalmIsNotTakenApart(s: string)
    requires Trimmed(s) && GroupEnd(s) == None && !StartsWith(s, NOT) && Calm(s, OR) && Calm(s, AND)
    ensures !TakenApart(s)
  {
    TrimKeeps(s);
    NoOperator(s, OR);
    NoOperator(s, AND);
  }

  // ---- The empty text ----

  lemma TrimDropsSpace(w: string)
    requires Trimmed(w)
    ensures Trim(w + " ") == w
  {
    assert (w + " ")[0] == w[0] && (w + " ")[..|w|] == w;
    assert TrimStart(w + " ") == w + " ";
    assert TrimEnd(w + " ") == TrimEnd(w) == w;
  }

  lemma EvalDropsSpace(simple: Simple, w: string)
    requires Trimmed(w)
    ensures Eval(simple, w + " ") == Eval(simple, w)
  {
    TrimDropsSpace(w);
    TrimKeeps(w);
  }

  lemma NotIsLonger(w: string)
    requires ' ' !in w
    ensures !StartsWith(w, NOT)
  {
    if |w| >= 4 {
      assert w[..4][3] == w[3];
    }
  }

  predicate Plain(w: string) {
    '(' !in w && ')' !in w && '\'' !in w && '"' !in w
  }

  /** A word that does not begin like an operator. */
  predicate OneWord(w: string) {
    Trimmed(w) && ' ' !in w && Plain(w) && w[0] != 'o' && w[0] != 'a'
  }

  lemma OneWordIsGood(w: string)
    requires OneWord(w)
    ensures GoodAtom(w) && !TakenApart(w)
  {
    PlainScan(w, START);
    CalmWord(w, OR);
    CalmWord(w, AND);
    NotIsLonger(w);
    CalmIsNotTakenApart(w);
  }

  lemma NegatedNothing(x: string, negation: string, s: string)
    requires x == "" && OneWord(negation) && s == negation + " "
    ensures Eval(Except(x, true), s).Some?
  {
    OneWordIsGood(negation);
    EvalDropsSpace(Except(x, true), negation);
    PlainHasValue(x, true, negation);
  }

  lemma EmptyIsUnfaithful(x: string, negation: string, s: string) returns (t: Tree)
    requires x == "" && OneWord(negation) && s == negation + " " && s == Print(Not(Atom(x)))
    ensures Over(t, x) && !Faithful(Except(x, true), t)
  {
    t := Not(Atom(x));
    assert Over(Atom(x), x);
    NegatedNothing(x, negation, s);
    NoValue(x, true);
    TextHasValue(Except(x, true), t, s);
  }

  lemma PrintNegation(x: string, s: string)
    requires s == NOT + x
    ensures Print(Not(Atom(x))) == s
  {
    assert Print(Atom(x)) == x;
  }

  // ---- Quotes or parentheses left open ----

  lemma {:induction false} NotClosedLater(x: string, w: string, depth: int)
    requires CloseFrom(x, depth) == None && Plain(w)
    ensures CloseFrom(x + w, depth) == None
    decreases |x| + |w|
  {
    if x != "" {
      assert (x + w)[0] == x[0] && (x + w)[1..] == x[1..] + w;
      NotClosedLater(x[1..], w, if x[0] == '(' then depth + 1 else if x[0] == ')' then depth - 1 else depth);
    } else if w != "" {
      assert x + w == w && "" + w[1..] == w[1..] && w[0] in w;
      NotClosedLater("", w[1..], depth);
    } else {
      assert x + w == "";
    }
  }

  lemma {:induction false} NothingFoundInside(w: string, operator: string, at: Scan)
    requires Plain(w) && !at.Top()
    ensures FindFrom(w, operator, at) == None
  {
    if w != "" {
      assert w[0] in w;
      NothingFoundInside(w[1..], operator, at);
    }
  }

  /** While a quote or a parenthesis is open nothing is found in what follows. */
  lemma {:induction false} NothingFoundLater(x: string, w: string, operator: string, at: Scan)
    requires IsOperator(operator) && FindFrom(x, operator, at) == None && !Run(at, x).Top() && Plain(w)
    ensures FindFrom(x + w, operator, at) == None
    decreases |x|
  {
    if x == "" {
      assert x + w == w;
      NothingFoundInside(w, operator, at);
    } else {
      assert (x + w)[0] == x[0] && (x + w)[1..] == x[1..] + w;
      NothingFoundLater(x[1..], w, operator, at.Next(x[0]));
      if at.Next(x[0]).Top() && StartsWith(x + w, operator) {
        NotShorter(x, w, operator, at);
      }
    }
  }

  lemma NotShorter(x: string, w: string, prefix: string, at: Scan)
    requires Plain(prefix) && StartsWith(x + w, prefix) && !StartsWith(x, prefix)
    ensures Run(at, x) == at && (x != "" ==> at.Next(x[0]) == at)
  {
    if |prefix| <= |x| {
      StartsWithin(x, w, prefix);
    }
    assert x == (x + w)[..|prefix|][..|x|] == prefix[..|x|];
    PlainScan(x, at);
  }

  lemma StartsWithin(s: string, w: string, prefix: string)
    requires StartsWith(s + w, prefix) && |prefix| <= |s|
    ensures StartsWith(s, prefix)
  {
    assert (s + w)[..|prefix|] == s[..|prefix|];
  }

  lemma NoOperatorLater(x: string, w: string, operator: string)
    requires IsOperator(operator) && Find(x, operator) == None && Run(START, x) != START && Plain(w)
    ensures Find(x + w, operator) == None
  {
    assert !Run(START, x).Top();
    NothingFoundLater(x, w, operator, START);
  }

  lemma NoNegationLater(x: string, w: string)
    requires !StartsWith(x, NOT) && Run(START, x) != START
    ensures !StartsWith(x + w, NOT)
  {
    if StartsWith(x + w, NOT) {
      NotShorter(x, w, NOT, START);
    }
  }

  lemma NoGroupLater(x: string, w: string)
    requires x != "" && GroupEnd(x) == None && Plain(w)
    ensures GroupEnd(x + w) == None
  {
    assert (x + w)[0] == x[0];
    if x[0] == '(' {
      NotClosedLater(x, w, 0);
    }
  }

  lemma OpenStaysWhole(x: string, w: string)
    requires Trimmed(x) && !TakenApart(x) && Run(START, x) != START && Plain(w) && Trimmed(x + w)
    ensures !TakenApart(x + w)
  {
    TrimKeeps(x + w);
    NoOperatorLater(x, w, OR);
    NoOperatorLater(x, w, AND);
    NoNegationLater(x, w);
    NoGroupLater(x, w);
  }

  /** A condition that leaves a quote or a parenthesis open swallows the operator that follows. */
  lemma OpenHasValue(x: string, w: string)
    requires Trimmed(x) && !TakenApart(x) && Run(START, x) != START && Plain(w) && w != "" && Trimmed(x + w)
    ensures Eval(Except(x, true), x + w).Some?
  {
    OpenStaysWhole(x, w);
    PlainHasValue(x, true, x + w);
  }

  // ---- Texts as they are evaluated ----

  lemma PrintConjunction(x: string, z: string)
    ensures Print(And(Atom(x), Atom(z))) == x + (AND + z)
    ensures Print(And(Not(Atom(x)), Atom(z))) == (NOT + x) + (AND + z)
  {
    assert Print(Atom(x)) == x && Print(Atom(z)) == z;
    assert Print(Not(Atom(x))) == NOT + x;
  }

  lemma ConjunctionIsUnfaithful(x: string, b: bool, z: string) returns (t: Tree)
    requires x != Word(true) && x != Word(false) && OneWord(z)
    requires Eval(Except(x, b), x + (AND + z)).Some?
    ensures Over(t, x) && !Faithful(Except(x, b), t)
  {
    t := And(Atom(x), Atom(z));
    OneWordIsGood(z);
    assert Over(Atom(x), x) && Over(Atom(z), x);
    PrintConjunction(x, z);
    NoValueAnd(x, b, Atom(z));
    TextHasValue(Except(x, b), t, x + (AND + z));
  }

  lemma NegationIsUnfaithful(x: string, b: bool, z: string) returns (t: Tree)
    requires x != Word(true) && x != Word(false) && OneWord(z)
    requires Eval(Except(x, b), (NOT + x) + (AND + z)).Some?
    ensures Over(t, x) && !Faithful(Except(x, b), t)
  {
    t := And(Not(Atom(x)), Atom(z));
    OneWordIsGood(z);
    assert Over(Atom(x), x) && Over(Not(Atom(x)), x) && Over(Atom(z), x);
    PrintConjunction(x, z);
    NoValueAnd(x, b, Atom(z));
    TextHasValue(Except(x, b), t, (NOT + x) + (AND + z));
  }

  lemma NoOrInConjunction(u: string, z: string)
    requires Calm(u, OR) && Calm(z, OR) && u != ""
    ensures Find(u + (AND + z), OR) == None
  {
    CalmAnd(u, z);
    NoOperator(u + (AND + z), OR);
  }

  lemma SplitParts(s: string, i: nat, j: nat, u: string, operator: string, w: string)
    requires s == u + (operator + w) && i == |u| && j == i + |operator|
    ensures j <= |s| && s[..i] == u && s[j..] == w
  {
    assert s[i..] == operator + w;
    assert s[j..] == s[i..][|operator|..];
  }

  lemma EvalOfOrSplit(simple: Simple, s: string, i: nat, j: nat, u: string, w: string)
    requires s == u + (OR + w) && i == |u| && j == i + 4 && Trimmed(s) && GroupEnd(s) == None && Calm(u, OR)
    ensures Eval(simple, s)
            == match Eval(simple, u) case None => None case Some(v) => if v then Some(true) else Eval(simple, w)
  {
    FirstOperator(u, OR, w);
    TrimKeeps(s);
    SplitParts(s, i, j, u, OR, w);
    SplitAtOr(simple, s, i, u, w);
  }

  lemma EvalOfAndSplit(simple: Simple, s: string, i: nat, j: nat, u: string, w: string)
    requires s == u + (AND + w) && i == |u| && j == i + 5 && Trimmed(s) && GroupEnd(s) == None && Calm(u, AND)
    requires Find(s, OR) == None
    ensures Eval(simple, s)
            == match Eval(simple, u) case None => None case Some(v) => if v then Eval(simple, w) else Some(false)
  {
    FirstOperator(u, AND, w);
    TrimKeeps(s);
    SplitParts(s, i, j, u, AND, w);
    SplitAtAnd(simple, s, i, u, w);
  }

  /** The value of a text that is split right after u. */
  lemma EvalOfSplit(simple: Simple, s: string, operator: string, u: string, w: string)
    requires IsOperator(operator) && s == u + (operator + w) && Trimmed(s) && GroupEnd(s) == None
    requires Calm(u, operator) && (operator == AND ==> Find(s, OR) == None)
    ensures Eval(simple, s)
            == match Eval(simple, u)
               case None => None
               case Some(v) => if v == (operator == OR) then Some(v) else Eval(simple, w)
  {
    if operator == OR {
      EvalOfOrSplit(simple, s, |u|, |u| + 4, u, w);
    } else {
      EvalOfAndSplit(simple, s, |u|, |u| + 5, u, w);
    }
  }

  // ---- An operator where the text begins ----

  lemma TextOfNegation(x: string, operator: string, z: string) returns (w: string)
    requires StartsWith(" " + x + " ", operator)
    ensures (NOT + x) + (AND + z) == "not" + (operator + w)
  {
    var padded := " " + x + " ";
    w := padded[|operator|..] + ("and " + z);
    assert padded == operator + padded[|operator|..];
    assert (NOT + x) + (AND + z) == "not" + (padded + ("and " + z));
  }

  /** After `not` such a condition turns the negation into an operand. */
  lemma SplitAtStart(x: string, operator: string, z: string, negation: string)
    requires x != "" && IsOperator(operator) && (operator == AND ==> Calm(x, OR))
    requires StartsWith(" " + x + " ", operator) && OneWord(z) && negation == "not"
    ensures Eval(Except(x, operator == OR), (NOT + x) + (AND + z)).Some?
  {
    var simple, s := Except(x, operator == OR), (NOT + x) + (AND + z);
    var w := TextOfNegation(x, operator, z);
    OneWordIsGood(z);
    EndOfAppend(NOT + x, AND + z);
    EndOfAppend(AND, z);
    if operator == AND {
      CalmNot(x, OR);
      NoOrInConjunction(NOT + x, z);
    }
    CalmWord(negation, operator);
    EvalOfSplit(simple, s, operator, negation, w);
    OneWordIsGood(negation);
    assert x[0] == operator[1];
    PlainHasValue(x, operator == OR, negation);
    assert EvalAtom(simple, negation) == Some(operator == OR);
  }

  // ---- An operator where the text ends ----

  /** An operator without its last space. */
  function Bare(operator: string): string
    requires operator != ""
  {
    operator[..|operator| - 1]
  }

  lemma {:induction false} SilentPrefix(u: string, v: string, w: string, operator: string, at: Scan)
    requires Silent(u, w, operator, at) && v <= w
    ensures Silent(u, v, operator, at)
  {
    if u != "" {
      if StartsWith(u + v, operator) {
        assert (u + w)[..|operator|] == (u + v)[..|operator|];
      }
      SilentPrefix(u[1..], v, w, operator, at.Next(u[0]));
    }
  }

  lemma {:induction false} SilentPart(u: string, w: string, v: string, operator: string, at: Scan)
    requires Silent(u + w, v, operator, at)
    ensures Silent(u, w + v, operator, at)
    decreases |u|
  {
    if u != "" {
      assert (u + w)[0] == u[0] && (u + w)[1..] == u[1..] + w && (u + w) + v == u + (w + v);
      SilentPart(u[1..], w, v, operator, at.Next(u[0]));
    }
  }

  lemma StartsAtLength(s: string, operator: string)
    requires StartsWith(s + " ", operator) && !StartsWith(s, operator)
    ensures operator == s + " "
  {
    if |operator| <= |s| {
      StartsWithin(s, " ", operator);
    } else {
      assert (s + " ")[..|operator|] == s + " ";
    }
  }

  /** An operator that only a space after the text completes. */
  lemma {:induction false} EndsInOperator(s: string, operator: string, at: Scan) returns (u: string)
    requires operator != "" && Silent(s, "", operator, at) && !Silent(s, " ", operator, at)
    ensures s == u + Bare(operator)
  {
    if at.Next(s[0]).Top() && StartsWith(s + " ", operator) {
      assert s + "" == s;
      StartsAtLength(s, operator);
      u := "";
      assert u + Bare(operator) == s;
    } else {
      u := EndsInOperator(s[1..], operator, at.Next(s[0]));
      Regroup([s[0]], u, Bare(operator));
      u := [s[0]] + u;
    }
  }

  lemma StartsInFront(u: string, bare: string, operator: string)
    requires bare != "" && bare[0] == ' ' && StartsWith(" " + u + " ", operator)
    ensures StartsWith(" " + (u + bare) + " ", operator)
  {
    var s, whole := " " + u + " ", " " + (u + bare) + " ";
    assert forall i :: 0 <= i < |s| ==> s[i] == whole[i];
    assert s[..|operator|] == whole[..|operator|];
  }

  lemma CalmFront(x: string, operator: string, u: string)
    requires IsOperator(operator) && Balanced(x) && x == u + Bare(operator)
    requires Silent(x, "", operator, START) && !StartsWith(" " + x + " ", operator)
    ensures Calm(u, operator)
  {
    var bare := Bare(operator);
    ScanAppend(START, u, bare, 0);
    PlainScan(bare, Run(START, u));
    SilentPart(u, bare, "", operator, START);
    assert bare + "" == bare && " " <= bare;
    SilentPrefix(u, " ", bare, operator, START);
    if StartsWith(" " + u + " ", operator) {
      StartsInFront(u, bare, operator);
      assert false;
    }
    CalmParts(u, operator);
  }

  lemma TextOfConjunction(u: string, operator: string, z: string)
    requires IsOperator(operator)
    ensures (u + Bare(operator)) + (AND + z) == u + (operator + ("and " + z))
  {
    assert operator == Bare(operator) + " " && AND == " " + "and ";
  }

  lemma CharOfPart(s: string, i: nat, j: nat, x: string, k: nat, at: nat)
    requires i <= j <= |s| && s[i..j] == x && k < |x| && at == i + k
    ensures s[at] == x[k]
  {
  }

  lemma OneSpaceAfterAnd(z: string, at: nat)
    requires ' ' !in z && at < |"and " + z| && at != 3
    ensures ("and " + z)[at] != ' '
  {
    if at > 3 {
      assert ("and " + z)[at] == z[at - 4];
    }
  }

  /** The only space of such a text is in front of its last word. */
  lemma AfterSpace(z: string, x: string, i: nat, k: nat)
    requires ' ' !in z && OccursAt("and " + z, x, i) && k + 1 < |x| && x[k] == ' '
    ensures z != "" && x[k + 1] == z[0]
  {
    var right := "and " + z;
    CharOfPart(right, i, i + |x|, x, k, i + k);
    CharOfPart(right, i, i + |x|, x, k + 1, i + k + 1);
    if i + k != 3 {
      OneSpaceAfterAnd(z, i + k);
    }
  }

  lemma DanglingAndBelow(x: string, u: string, operator: string, z: string)
    requires IsOperator(operator) && x == u + Bare(operator) && OneWord(z)
    ensures Below("and " + z, x)
  {
    var right, k := "and " + z, |u|;
    assert x[k] == ' ' && x[k + 1] == operator[1] && z[0] != operator[1];
    assert '(' !in right;
    forall i: nat ensures !OccursAt(right, x, i) {
      if OccursAt(right, x, i) {
        AfterSpace(z, x, i, k);
      }
    }
  }

  lemma CutAtEnd(x: string, operator: string) returns (u: string)
    requires Balanced(x) && Find(x, operator) == None
    requires IsOperator(operator) && !Calm(x, operator) && !StartsWith(" " + x + " ", operator)
    ensures x == u + Bare(operator) && Calm(u, operator)
  {
    assert x + "" == x;
    NoneFoundIsSilent(x, "", operator, START);
    CalmParts(x, operator);
    u := EndsInOperator(x, operator, START);
    CalmFront(x, operator, u);
  }

  lemma ConjunctionStaysWhole(x: string, z: string)
    requires Trimmed(x) && !TakenApart(x) && OneWord(z)
    ensures Trimmed(x + (AND + z)) && GroupEnd(x + (AND + z)) == None
    ensures Calm(x, OR) ==> Find(x + (AND + z), OR) == None
  {
    OneWordIsGood(z);
    TrimmedJoin(x, AND, z);
    NoGroupLater(x, AND + z);
    if Calm(x, OR) {
      NoOrInConjunction(x, z);
    }
  }

  /** Before an operand such a condition loses its end. */
  lemma SplitAtEnd(x: string, operator: string, z: string)
    requires Trimmed(x) && !TakenApart(x) && Balanced(x) && OneWord(z)
    requires IsOperator(operator) && !Calm(x, operator) && (operator == AND ==> Calm(x, OR))
    requires !StartsWith(" " + x + " ", operator)
    ensures Eval(Except(x, true), x + (AND + z)).Some?
  {
    var right := "and " + z;
    var u := CutAtEnd(x, operator);
    TextOfConjunction(u, operator, z);
    ConjunctionStaysWhole(x, z);
    EvalOfSplit(Except(x, true), x + (AND + z), operator, u, right);
    PartBelow(x, 0, |u|, x);
    assert x[0..|u|] == u;
    EvalBelow(x, true, u);
    DanglingAndBelow(x, u, operator, z);
    EvalBelow(x, true, right);
  }

  // ---- Quoted parentheses without a partner ----

  lemma PrintNegatedOr(x: string, z: string)
    ensures Print(Not(Or(Atom(x), Atom(z)))) == NOT + Group(x + (OR + z))
  {
    assert Print(Atom(x)) == x && Print(Atom(z)) == z;
    assert Print(Or(Atom(x), Atom(z))) == x + (OR + z);
  }

  lemma CalmDisjunction(x: string, z: string, group: string)
    requires Balanced(x) && OneWord(z) && group == Group(x + (OR + z))
    ensures Calm(group, OR) && Calm(group, AND)
  {
    PlainScan(z, START);
    PlainScan(OR, START);
    BalancedAppend(OR, z);
    BalancedAppend(x, OR + z);
    CalmGroup(x + (OR + z), OR);
    CalmGroup(x + (OR + z), AND);
  }

  lemma OverNegatedOr(x: string, z: string)
    requires OneWord(z)
    ensures Over(Not(Or(Atom(x), Atom(z))), x)
  {
    OneWordIsGood(z);
    assert Over(Atom(x), x) && Over(Atom(z), x);
    assert Over(Or(Atom(x), Atom(z)), x);
  }

  /** A negated group is worth the opposite of what the group is worth. */
  lemma GroupIsUnfaithful(x: string, z: string, group: string) returns (t: Tree)
    requires x != Word(true) && x != Word(false)
    requires Balanced(x) && OneWord(z) && group == Group(x + (OR + z)) && Eval(Except(x, true), group).Some?
    ensures Over(t, x) && !Faithful(Except(x, true), t)
  {
    t := Not(Or(Atom(x), Atom(z)));
    OverNegatedOr(x, z);
    PrintNegatedOr(x, z);
    CalmDisjunction(x, z, group);
    CalmNot(group, OR);
    CalmNot(group, AND);
    EvalNot(Except(x, true), group);
    NoValueOr(x, true, Atom(z));
    TextHasValue(Except(x, true), t, NOT + group);
  }

  lemma NeverCloses(x: string, w: string, depth: nat)
    requires Blind(x, 0) == Some(depth) && depth > 0 && Plain(w)
    ensures GroupEnd(Group(x + w)) == None
  {
    var content := x + w;
    var group := Group(content);
    PlainScan(w, START);
    BlindAppend(x, w, 0);
    CloseSkips(content, ")", 0, 1);
    assert group[0] == '(' && group[1..] == content + ")";
    assert CloseFrom(")", depth + 1) == None;
  }

  /** With a quoted parenthesis left open a group is not recognised. */
  lemma UnclosedHasValue(x: string, z: string, depth: nat, group: string)
    requires Balanced(x) && Blind(x, 0) == Some(depth) && depth > 0
    requires OneWord(z) && group == Group(x + (OR + z))
    ensures Eval(Except(x, true), group).Some?
  {
    NeverCloses(x, OR + z, depth);
    CalmDisjunction(x, z, group);
    CalmIsNotTakenApart(group);
    PlainHasValue(x, true, group);
  }

  /** The first closing parenthesis without a partner. */
  lemma {:induction false} FirstUnpaired(x: string, depth: nat) returns (p: string, q: string)
    requires Blind(x, depth) == None
    ensures x == p + (")" + q) && Blind(p, depth) == Some(0)
  {
    if x[0] == ')' && depth == 0 {
      p, q := "", x[1..];
    } else {
      var now := if x[0] == '(' then depth + 1 else if x[0] == ')' then depth - 1 else depth;
      var front;
      front, q := FirstUnpaired(x[1..], now);
      p := [x[0]] + front;
      assert p[1..] == front;
      Regroup([x[0]], front, ")" + q);
    }
  }

  function Closes(s: string): nat {
    multiset(s)[')']
  }

  lemma ClosesOfAppend(a: string, b: string)
    ensures Closes(a + b) == Closes(a) + Closes(b) && Opens(a + b) == Opens(a) + Opens(b)
  {
  }

  lemma EndCloses(y: string, j: nat)
    requires j < |y| && y[|y| - 1] == ')'
    ensures Closes(y[j..]) > 0
  {
    assert y[j..][|y| - 1 - j] == ')';
  }

  /** A part that holds all closing parentheses of a text reaches to the last one. */
  lemma LastClose(y: string, i: nat, j: nat)
    requires i <= j <= |y| && y != "" && y[|y| - 1] == ')' && Closes(y[i..j]) >= Closes(y)
    ensures j == |y|
  {
    assert y == y[..i] + y[i..j] + y[j..];
    ClosesOfAppend(y[..i] + y[i..j], y[j..]);
    ClosesOfAppend(y[..i], y[i..j]);
    if j < |y| {
      EndCloses(y, j);
    }
  }

  predicate EndsWith(s: string, suffix: string) {
    |suffix| <= |s| && s[|s| - |suffix|..] == suffix
  }

  lemma EndOfEnd(s: string, front: string, suffix: string, i: nat)
    requires s == front + suffix && i <= |s|
    ensures i <= |front| ==> EndsWith(s[i..], suffix)
    ensures i > |front| ==> s[i..] == suffix[i - |front|..]
  {
    if i <= |front| {
      assert s[i..] == front[i..] + suffix;
    }
  }

  lemma NotOnlyAnEnd(z: string, x: string, k: nat)
    requires Plain(z) && k <= |z| && x == (z + ")")[k..]
    ensures Run(START, x) != START
  {
    assert x == z[k..] + ")";
    PlainScan(z[k..], START);
    ScanAppend(START, z[k..], ")", 0);
    assert Run(START, ")") == START.Next(')');
  }

  lemma PlainCounts(w: string)
    requires Plain(w)
    ensures Opens(w) == 0 && Closes(w) == 0
  {
  }

  /** What is left when a group has ended inside x. */
  function LeftOver(word: string, q: string, z: string): string {
    word + (q + (OR + z) + ")")
  }

  lemma LeftOverCounts(word: string, q: string, z: string)
    requires Plain(word) && Plain(z)
    ensures LeftOver(word, q, z) == (word + (q + OR)) + (z + ")")
    ensures Opens(LeftOver(word, q, z)) == Opens(q) && Closes(LeftOver(word, q, z)) == Closes(q) + 1
  {
    PlainCounts(word);
    PlainCounts(z);
    PlainCounts(OR);
    ClosesOfAppend(word, q + (OR + z) + ")");
    ClosesOfAppend(q + (OR + z), ")");
    ClosesOfAppend(q, OR + z);
    ClosesOfAppend(OR, z);
    assert Opens(")") == 0 && Closes(")") == 1;
  }

  /** A text of which x is a part with all closing parentheses ends with x. */
  lemma AbsentFromLeftOver(x: string, y: string, front: string, z: string, i: nat, j: nat)
    requires y == front + (z + ")") && i <= j <= |y| && y[i..j] == x && Closes(x) >= Closes(y)
    requires Plain(z) && x != ""
    ensures EndsWith(x, z + ")") || Run(START, x) != START
  {
    LastClose(y, i, j);
    assert y[i..] == x;
    EndOfEnd(y, front, z + ")", i);
    if i > |front| {
      NotOnlyAnEnd(z, x, i - |front|);
    }
  }

  lemma ClosedEarlyBelow(x: string, p: string, q: string, z: string, word: string)
    requires x == p + (")" + q) && Blind(p, 0).Some? && Balanced(x)
    requires Plain(z) && Plain(word) && !EndsWith(x, z + ")")
    ensures Below(LeftOver(word, q, z), x)
  {
    var y := LeftOver(word, q, z);
    LeftOverCounts(word, q, z);
    ClosesOfAppend(")", q);
    ClosesOfAppend(p, ")" + q);
    assert Opens(")") == 0 && Closes(")") == 1;
    assert Opens(x) == Opens(p) + Opens(q) && Closes(x) >= Closes(y);
    if Opens(p) == 0 {
      forall i: nat ensures !OccursAt(y, x, i) {
        if OccursAt(y, x, i) {
          AbsentFromLeftOver(x, y, word + (q + OR), z, i, i + |x|);
        }
      }
    }
  }

  lemma EarlyGroup(x: string, p: string, q: string, z: string)
    requires x == p + (")" + q)
    ensures Group(x + (OR + z)) == Group(p) + (q + (OR + z) + ")")
  {
  }

  lemma EvalEarlyGroup(simple: Simple, p: string, after: string, group: string, v: bool, rest: string)
    requires group == Group(p) + after && Paired(p) && Trimmed(group) && rest == Word(v) + after
    requires Eval(simple, p) == Some(v) && Eval(simple, rest).Some?
    ensures Eval(simple, group).Some?
  {
    var close := |p| + 1;
    GroupEndAt(p, after, close);
    TrimKeeps(group);
    EvalFindsGroup(simple, group, close);
    ReplaceGroup(simple, group, close, p, after);
  }

  lemma FrontHasValue(x: string, p: string, q: string)
    requires x == p + (")" + q)
    ensures Eval(Except(x, true), p).Some?
  {
    PartBelow(x, 0, |p|, x);
    assert x[0..|p|] == p;
    EvalBelow(x, true, p);
  }

  lemma PlainWord(b: bool)
    ensures Plain(Word(b))
  {
  }

  lemma LeftOverHasValue(x: string, p: string, q: string, z: string, word: string)
    requires x == p + (")" + q) && Blind(p, 0).Some? && Balanced(x)
    requires Plain(z) && Plain(word) && !EndsWith(x, z + ")")
    ensures Eval(Except(x, true), LeftOver(word, q, z)).Some?
  {
    ClosedEarlyBelow(x, p, q, z, word);
    EvalBelow(x, true, LeftOver(word, q, z));
  }

  /** With a quoted parenthesis that closes nothing a group ends inside the condition. */
  lemma ClosedEarlyHasValue(x: string, z: string, group: string)
    requires Balanced(x) && Blind(x, 0) == None && OneWord(z) && !EndsWith(x, z + ")")
    requires group == Group(x + (OR + z))
    ensures Eval(Except(x, true), group).Some?
  {
    var p, q := FirstUnpaired(x, 0);
    FrontHasValue(x, p, q);
    var v := Eval(Except(x, true), p).value;
    var after, rest := q + (OR + z) + ")", LeftOver(Word(v), q, z);
    PlainWord(v);
    LeftOverHasValue(x, p, q, z, Word(v));
    EarlyGroup(x, p, q, z);
    GroupIsTrimmed(x + (OR + z));
    EvalEarlyGroup(Except(x, true), p, after, group, v, rest);
  }

  lemma GroupIsTrimmed(s: string)
    ensures Trimmed(Group(s))
  {
    assert Group(s)[0] == '(' && Group(s)[|Group(s)| - 1] == ')';
  }

  lemma EndChar(x: string, s: string, k: nat)
    requires EndsWith(x, s) && 0 < k <= |s|
    ensures k <= |x| && x[|x| - k] == s[|s| - k]
  {
    assert x[|x| - |s|..][|s| - k] == x[|x| - k];
  }

  lemma NotBothEnds(x: string)
    ensures !EndsWith(x, Word(true) + ")") || !EndsWith(x, Word(false) + ")")
  {
    var yes, no := Word(true) + ")", Word(false) + ")";
    assert yes[|yes| - 3] == 'u' && no[|no| - 3] == 's';
    if EndsWith(x, yes) && EndsWith(x, no) {
      EndChar(x, yes, 3);
      EndChar(x, no, 3);
    }
  }

  // ---- The condition is exact ----

  lemma {:induction false} OverGoodIsGood(t: Tree, x: string)
    requires Over(t, x) && GoodAtom(x)
    ensures Good(t)
  {
    match t {
      case Atom(_) =>
      case Not(c) => OverGoodIsGood(c, x);
      case And(a, b) =>
        OverGoodIsGood(a, x);
        OverGoodIsGood(b, x);
      case Or(a, b) =>
        OverGoodIsGood(a, x);
        OverGoodIsGood(b, x);
    }
  }

  /** Evaluating the text gives the meaning for all evaluators and all trees over good atoms and x
      exactly if x is a good atom itself.  The one thing asked of x is that its quotes and parentheses
      match in order if they match in number. */
  lemma AtomConditionIsExact(x: string)
    requires Run(START, x) == START ==> Above(START, x, 0)
    ensures GoodAtom(x) <==> forall simple: Simple, t :: Over(t, x) ==> Faithful(simple, t)
  {
    if GoodAtom(x) {
      forall simple: Simple, t | Over(t, x) ensures Faithful(simple, t) {
        OverGoodIsGood(t, x);
        EvalOfPrint(simple, t);
      }
    } else {
      var simple, t := Unfaithful(x);
      assert Over(t, x) && !Faithful(simple, t);
    }
  }

  lemma FirstParen(x: string, rest: string)
    requires x != "" && x[0] == '(' && rest == x[1..]
    ensures Blind(x, 0) == Blind(rest, 1) && CloseFrom(x, 0) == Moved(CloseFrom(rest, 1), 1)
  {
  }

  lemma GroupIsTakenApart(x: string)
    requires x != "" && x[0] == '(' && Paired(x)
    ensures GroupEnd(x).Some?
  {
    FirstParen(x, x[1..]);
    Closing(x[1..], 1);
  }

  lemma {:induction false} Closing(s: string, depth: nat)
    requires depth > 0 && Blind(s, depth) == Some(0)
    ensures CloseFrom(s, depth).Some?
  {
    if s[0] != ')' || depth != 1 {
      Closing(s[1..], if s[0] == '(' then depth + 1 else if s[0] == ')' then depth - 1 else depth);
    }
  }

  lemma UntrimmedOrNot(x: string)
    requires x != "" && !TakenApart(x)
    ensures Trimmed(x) && !StartsWith(x, NOT) && (x[0] == '(' ==> !Paired(x))
  {
    if x[0] == '(' && Paired(x) {
      GroupIsTakenApart(x);
    }
  }

  /** A tree whose text does not evaluate to its meaning. */
  lemma Unfaithful(x: string) returns (simple: Simple, t: Tree)
    requires !GoodAtom(x) && (Run(START, x) == START ==> Above(START, x, 0))
    ensures Over(t, x) && !Faithful(simple, t)
  {
    WordIsGood(true);
    WordIsGood(false);
    simple := Except(x, true);
    if x == "" {
      t := UnfaithfulEmpty(x);
    } else if TakenApart(x) {
      t := TakenApartIsUnfaithful(x);
    } else {
      UntrimmedOrNot(x);
      var z := SuitableWord(x);
      simple, t := UnfaithfulWhole(x, z);
    }
  }

  lemma UnfaithfulEmpty(x: string) returns (t: Tree)
    requires x == ""
    ensures Over(t, x) && !Faithful(Except(x, true), t)
  {
    PrintNegation(x, NOT);
    t := EmptyIsUnfaithful(x, "not", NOT);
  }

  lemma SuitableWord(x: string) returns (z: string)
    ensures OneWord(z) && !EndsWith(x, z + ")")
  {
    NotBothEnds(x);
    z := Word(!EndsWith(x, Word(true) + ")"));
  }

  lemma UnfaithfulWhole(x: string, z: string) returns (simple: Simple, t: Tree)
    requires Trimmed(x) && !TakenApart(x) && (Run(START, x) == START ==> Above(START, x, 0))
    requires !Calm(x, OR) || !Calm(x, AND) || !Paired(x)
    requires x != Word(true) && x != Word(false) && OneWord(z) && !EndsWith(x, z + ")")
    ensures Over(t, x) && !Faithful(simple, t)
  {
    simple := Except(x, true);
    if Run(START, x) != START {
      TrimmedJoin(x, AND, z);
      OpenHasValue(x, AND + z);
      t := ConjunctionIsUnfaithful(x, true, z);
    } else if Calm(x, OR) && Calm(x, AND) {
      t := UnfaithfulUnpaired(x, z, Group(x + (OR + z)));
    } else {
      simple, t := UnfaithfulSplit(x, z, if Calm(x, OR) then AND else OR);
    }
  }

  lemma UnfaithfulSplit(x: string, z: string, operator: string) returns (simple: Simple, t: Tree)
    requires Trimmed(x) && !TakenApart(x) && Balanced(x) && x != Word(true) && x != Word(false) && OneWord(z)
    requires IsOperator(operator) && !Calm(x, operator) && (operator == AND ==> Calm(x, OR))
    ensures Over(t, x) && !Faithful(simple, t)
  {
    if StartsWith(" " + x + " ", operator) {
      simple := Except(x, operator == OR);
      SplitAtStart(x, operator, z, "not");
      t := NegationIsUnfaithful(x, operator == OR, z);
    } else {
      simple := Except(x, true);
      SplitAtEnd(x, operator, z);
      t := ConjunctionIsUnfaithful(x, true, z);
    }
  }

  lemma UnfaithfulUnpaired(x: string, z: string, group: string) returns (t: Tree)
    requires Balanced(x) && !Paired(x) && x != Word(true) && x != Word(false)
    requires OneWord(z) && !EndsWith(x, z + ")") && group == Group(x + (OR + z))
    ensures Over(t, x) && !Faithful(Except(x, true), t)
  {
    match Blind(x, 0) {
      case Some(depth) => UnclosedHasValue(x, z, depth, group);
      case None => ClosedEarlyHasValue(x, z, group);
    }
    t := GroupIsUnfaithful(x, z, group);
  }

  // ---- An example of each kind of text ----

  /** An atom that ends in a bare `or` is torn apart by the operator that follows it. */
  lemma OperatorAtAtomEnd(simple: Simple, u: string, w: string)
    requires Trimmed(u) && u[0] != '(' && Calm(u, OR) && Trimmed(w)
    ensures Eval(simple, Print(And(Atom(u + " or"), Atom(w))))
            == match Eval(simple, u)
               case None => None
               case Some(v) => if v then Some(true) else Eval(simple, "and " + w)
  {
    var x, right := u + " or", "and " + w;
    assert right[0] == 'a';
    EndOfAppend("and ", w);
    EvalOr(simple, u, right);
    assert Bare(OR) == " or";
    TextOfConjunction(u, OR, w);
    PrintConjunction(x, w);
  }

  /** The atom u + " or" has no operator inside, and still the text of the tree does not evaluate to
      the tree's meaning. */
  lemma PaddingIsNeeded(simple: Simple, u: string, w: string)
    requires GoodAtom(u) && u != "True" && u != "False" && Trimmed(w)
    requires simple(u) == Some(true) && simple(u + " or") == Some(false)
    ensures Find(u + " or", OR) == None
    ensures var t := And(Atom(u + " or"), Atom(w));
            Eval(simple, Print(t)) == Some(true) && Meaning(simple, t) == Some(false)
  {
    NoOrInside(u);
    EvalOfCondition(simple, u);
    OperatorAtAtomEnd(simple, u, w);
    EndsInOr(u);
    MeaningOfFalseAnd(simple, u + " or", w);
  }

  lemma EvalOfCondition(simple: Simple, u: string)
    requires GoodAtom(u) && u != "True" && u != "False"
    ensures Eval(simple, u) == simple(u)
  {
    EvalOfPrint(simple, Atom(u));
  }

  lemma EndsInOr(u: string)
    ensures u + " or" != "True" && u + " or" != "False"
  {
    assert (u + " or")[|u|] == ' ';
  }

  lemma MeaningOfFalseAnd(simple: Simple, x: string, w: string)
    requires x != "True" && x != "False" && simple(x) == Some(false)
    ensures Meaning(simple, And(Atom(x), Atom(w))) == Some(false)
  {
  }

  lemma NoOrInside(u: string)
    requires Calm(u, OR)
    ensures Find(u + " or", OR) == None
  {
    CalmParts(u, OR);
    SilentBeforeSpace(u, " or", OR, START);
    FindSilent(u, " or", OR, START);
    TooShort(" or", START);
  }

  lemma {:induction false} TooShort(s: string, at: Scan)
    requires |s| < 4
    ensures FindFrom(s, OR, at) == None
    decreases |s|
  {
    if s != "" {
      TooShort(s[1..], at.Next(s[0]));
    }
  }

  // ---- Comparisons of a variable ----

  predicate Quotable(s: string) {
    Plain(s) && ' ' !in s
  }

  function Quoted(s: string): string {
    "'" + (s + "'")
  }

  /** The test of a variable for a value, like d.getVar('X') == 'a'. */
  function Comparison(key: string, value: string): string {
    "d.getVar" + (Group(Quoted(key)) + (" == " + Quoted(value)))
  }

  /** What a trimmed text on the right of a comparison stands for: without its quotes if it both
      begins and ends with one, and otherwise as it is. */
  function StringLiteral(s: string): string {
    if s != "" && s[0] == s[|s| - 1] && (s[0] == '\'' || s[0] == '"') then (if |s| < 2 then "" else s[1..|s| - 1])
    else s
  }

  lemma QuotedIsSound(s: string)
    requires Quotable(s)
    ensures Balanced(Quoted(s)) && Paired(Quoted(s))
  {
    var inside := START.Next('\'');
    assert Quoted(s)[0] == '\'' && Quoted(s)[1..] == s + "'";
    PlainScan(s, inside);
    AboveLower(inside, s, inside.depth, 0);
    ScanAppend(inside, s, "'", 0);
    assert Run(inside, "'") == inside.Next('\'') == START;
    BlindAppend(s, "'", 0);
    assert Blind("'", 0) == Blind("'"[1..], 0) == Some(0);
  }

  /** No space in the text begins an operator. */
  lemma {:induction false} NoFalseStart(u: string, v: string, operator: string, at: Scan)
    requires IsOperator(operator)
    requires forall i :: 0 <= i < |u| && u[i] == ' ' ==> i + 1 < |u| && u[i + 1] != operator[1]
    ensures Silent(u, v, operator, at)
  {
    if u != "" {
      if u[0] == ' ' {
        assert (u + v)[1] == u[1];
        SecondCharDiffers(u + v, operator);
      } else {
        assert (u + v)[0] == u[0];
        StartsWithSpace(u + v, operator);
      }
      forall i | 0 <= i < |u[1..]| && u[1..][i] == ' ' ensures i + 1 < |u[1..]| && u[1..][i + 1] != operator[1] {
        assert u[i + 1] == ' ';
      }
      NoFalseStart(u[1..], v, operator, at.Next(u[0]));
    }
  }

  lemma ComparisonIsSound(key: string, value: string)
    requires Quotable(key) && Quotable(value)
    ensures Balanced(Comparison(key, value)) && Paired(Comparison(key, value))
  {
    QuotedIsSound(key);
    QuotedIsSound(value);
    BalancedGroup(Quoted(key));
    PairedGroup(Quoted(key));
    PlainScan(" == ", START);
    BalancedAppend(" == ", Quoted(value));
    PairedAppend(" == ", Quoted(value));
    var tail := " == " + Quoted(value);
    BalancedAppend(Group(Quoted(key)), tail);
    PairedAppend(Group(Quoted(key)), tail);
    PlainScan("d.getVar", START);
    BalancedAppend("d.getVar", Group(Quoted(key)) + tail);
    PairedAppend("d.getVar", Group(Quoted(key)) + tail);
  }

  lemma SpacesOfComparison(key: string, value: string, i: nat)
    requires Quotable(key) && Quotable(value) && i < |Comparison(key, value)| && Comparison(key, value)[i] == ' '
    ensures i + 1 < |Comparison(key, value)| && Comparison(key, value)[i + 1] in "='"
  {
    var front, s := "d.getVar" + Group(Quoted(key)), Comparison(key, value);
    assert s == front + (" == " + Quoted(value));
    assert forall k :: 0 <= k < |key| ==> front[10 + k] == key[k];
    assert forall k :: 0 <= k < |value| ==> s[|front| + 5 + k] == value[k];
  }

  lemma ComparisonIsGood(key: string, value: string)
    requires Quotable(key) && Quotable(value)
    ensures GoodAtom(Comparison(key, value))
  {
    var x := Comparison(key, value);
    ComparisonIsSound(key, value);
    assert x[0] == 'd' && x[|x| - 1] == '\'';
    forall operator | IsOperator(operator) ensures Calm(x, operator) {
      forall i | 0 <= i < |x| && x[i] == ' ' ensures i + 1 < |x| && x[i + 1] != operator[1] {
        SpacesOfComparison(key, value, i);
      }
      NoFalseStart(x, " ", operator, START);
      SecondCharDiffers(" " + x + " ", operator);
      CalmParts(x, operator);
    }
  }

  lemma QuotesComeOff(value: string)
    ensures StringLiteral(Quoted(value)) == value
    ensures StringLiteral(Quoted(value) + " or") == Quoted(value) + " or" != value
  {
    var s := Quoted(value);
    assert s[0] == s[|s| - 1] == '\'' && s[1..|s| - 1] == value;
    assert (s + " or")[0] == s[0] && (s + " or")[|s| + 2] == 'r';
  }

  /** The evaluator of conditions compares a variable that has the given value with the string on the
      right, whether or not ` or` hangs on to it. */
  lemma ComparedValues(simple: Simple, u: string, value: string)
    requires simple(u) == Some(value == StringLiteral(Quoted(value)))
    requires simple(u + " or") == Some(value == StringLiteral(Quoted(value) + " or"))
    ensures simple(u) == Some(true) && simple(u + " or") == Some(false)
  {
    QuotesComeOff(value);
  }

  lemma ComparisonIsNoWord(u: string, key: string, value: string)
    requires u == Comparison(key, value)
    ensures u != "True" && u != "False"
  {
    assert u[0] == 'd';
  }

  /** The case in point: a comparison is a good atom, and with ` or` at its end it still holds no
      operator, but before another operand it is evaluated wrongly.  What is asked of the evaluator of
      conditions is so where the variable has the value compared with: see `ComparedValues`. */
  lemma ComparisonNeedsPadding(simple: Simple, key: string, value: string, u: string, w: string)
    requires Quotable(key) && Quotable(value) && u == Comparison(key, value) && Trimmed(w)
    requires simple(u) == Some(true) && simple(u + " or") == Some(false)
    ensures GoodAtom(u) && Find(u + " or", OR) == None
    ensures var t := And(Atom(u + " or"), Atom(w));
            Eval(simple, Print(t)) == Some(true) && Meaning(simple, t) == Some(false)
  {
    ComparisonIsGood(key, value);
    ComparisonIsNoWord(u, key, value);
    PaddingIsNeeded(simple, u, w);
  }

  lemma ComparisonExample()
    ensures Comparison("X", "a") == "d.getVar('X') == 'a'" && GoodAtom(Comparison("X", "a"))
  {
    ComparisonIsGood("X", "a");
  }
}
