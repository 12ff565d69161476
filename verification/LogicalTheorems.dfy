/** Evaluating the text of an and/or/not tree gives the tree's meaning. */
module LogicalTheorems {
  import opened Text
  import opened Wrappers
  import opened LogicalEval

  datatype Tree = Atom(text: string) | Not(inner: Tree) | And(left: Tree, right: Tree) | Or(left: Tree, right: Tree)

  /** Evaluation from left to right that stops as soon as the value is known; a condition that has
      no value makes everything that depends on it have none. */
  function Meaning(simple: Simple, t: Tree): Option<bool> {
    match t
    case Atom(text) => EvalAtom(simple, text)
    case Not(c) => (match Meaning(simple, c) case None => None case Some(b) => Some(!b))
    case And(a, b) => (match Meaning(simple, a) case None => None case Some(v) => if v then Meaning(simple, b) else Some(false))
    case Or(a, b) => (match Meaning(simple, a) case None => None case Some(v) => if v then Some(true) else Meaning(simple, b))
  }

  function Group(s: string): string {
    "(" + (s + ")")
  }

  /** The text of a tree with as few parentheses as precedence allows. */
  function Print(t: Tree): string {
    match t
    case Atom(text) => text
    case Not(c) => NOT + (if c.And? || c.Or? then Group(Print(c)) else Print(c))
    case And(a, b) => (if a.Or? then Group(Print(a)) else Print(a)) + (AND + (if b.Or? then Group(Print(b)) else Print(b)))
    case Or(a, b) => Print(a) + (OR + Print(b))
  }

  /** An operand of `and` as it is printed. */
  function Operand(t: Tree): string {
    if t.Or? then Group(Print(t)) else Print(t)
  }

  // ---- Nesting ----

  function Run(at: Scan, s: string): Scan
    decreases |s|
  {
    if s == "" then at else Run(at.Next(s[0]), s[1..])
  }

  /** While the text is scanned, the depth stays at the floor or above. */
  predicate Above(at: Scan, s: string, floor: int)
    decreases |s|
  {
    s == "" || (at.Next(s[0]).depth >= floor && Above(at.Next(s[0]), s[1..], floor))
  }

  /** Parentheses outside quotes are balanced and every quote is closed. */
  predicate Balanced(s: string) {
    Run(START, s) == START && Above(START, s, 0)
  }

  /** The depth after the text with quotes not heeded, if it never falls below zero. */
  function Blind(s: string, depth: nat): Option<nat> {
    if s == "" then Some(depth)
    else if s[0] == '(' then Blind(s[1..], depth + 1)
    else if s[0] == ')' then (if depth == 0 then None else Blind(s[1..], depth - 1))
    else Blind(s[1..], depth)
  }

  /** All parentheses, quoted or not, are balanced. */
  predicate Paired(s: string) {
    Blind(s, 0) == Some(0)
  }

  lemma {:induction false} ScanAppend(at: Scan, a: string, b: string, floor: int)
    ensures Run(at, a + b) == Run(Run(at, a), b)
    ensures Above(at, a + b, floor) <==> Above(at, a, floor) && Above(Run(at, a), b, floor)
    decreases |a|
  {
    if a == "" {
      assert a + b == b;
    } else {
      assert (a + b)[0] == a[0] && (a + b)[1..] == a[1..] + b;
      ScanAppend(at.Next(a[0]), a[1..], b, floor);
    }
  }

  function Deeper(at: Scan): Scan {
    at.(depth := at.depth + 1)
  }

  lemma {:induction false} ScanDeeper(at: Scan, s: string, floor: int)
    ensures Run(Deeper(at), s) == Deeper(Run(at, s))
    ensures Above(at, s, floor) ==> Above(Deeper(at), s, floor + 1)
    decreases |s|
  {
    if s != "" {
      assert Deeper(at).Next(s[0]) == Deeper(at.Next(s[0]));
      ScanDeeper(at.Next(s[0]), s[1..], floor);
    }
  }

  lemma BalancedAppend(a: string, b: string)
    requires Balanced(a) && Balanced(b)
    ensures Balanced(a + b)
  {
    ScanAppend(START, a, b, 0);
  }

  lemma {:induction false} AboveLower(at: Scan, s: string, floor: int, lower: int)
    requires Above(at, s, floor) && lower <= floor
    ensures Above(at, s, lower)
    decreases |s|
  {
    if s != "" {
      AboveLower(at.Next(s[0]), s[1..], floor, lower);
    }
  }

  lemma BalancedGroup(s: string)
    requires Balanced(s)
    ensures Balanced(Group(s))
  {
    var inside := Deeper(START);
    assert Group(s)[0] == '(' && Group(s)[1..] == s + ")" && START.Next('(') == inside;
    ScanDeeper(START, s, 0);
    AboveLower(inside, s, 1, 0);
    ScanAppend(inside, s, ")", 0);
    assert Run(inside, ")") == inside.Next(')') == START;
  }

  lemma {:induction false} BlindAppend(a: string, b: string, depth: nat)
    ensures Blind(a + b, depth) == match Blind(a, depth) case None => None case Some(d) => Blind(b, d)
    decreases |a|
  {
    if a == "" {
      assert a + b == b;
    } else {
      assert (a + b)[0] == a[0] && (a + b)[1..] == a[1..] + b;
      if a[0] == '(' {
        BlindAppend(a[1..], b, depth + 1);
      } else if a[0] == ')' {
        if depth > 0 { BlindAppend(a[1..], b, depth - 1); }
      } else {
        BlindAppend(a[1..], b, depth);
      }
    }
  }

  lemma {:induction false} BlindDeeper(s: string, depth: nat)
    requires Blind(s, depth).Some?
    ensures Blind(s, depth + 1) == Some(Blind(s, depth).value + 1)
  {
    if s != "" {
      BlindDeeper(s[1..], if s[0] == '(' then depth + 1 else if s[0] == ')' then depth - 1 else depth);
    }
  }

  lemma PairedAppend(a: string, b: string)
    requires Paired(a) && Paired(b)
    ensures Paired(a + b)
  {
    BlindAppend(a, b, 0);
  }

  lemma PairedGroup(s: string)
    requires Paired(s)
    ensures Paired(Group(s))
  {
    assert Group(s)[0] == '(' && Group(s)[1..] == s + ")";
    BlindDeeper(s, 0);
    BlindAppend(s, ")", 1);
    assert Blind(")", 1) == Blind(")"[1..], 0) == Some(0);
  }

  /** A paired text is passed over by the search for the closing parenthesis. */
  lemma {:induction false} CloseSkips(s: string, rest: string, depth: nat, now: int)
    requires Blind(s, depth).Some? && now == depth + 1
    ensures CloseFrom(s + rest, now) == Moved(CloseFrom(rest, Blind(s, depth).value + 1), |s|)
  {
    if s == "" {
      assert s + rest == rest;
    } else {
      assert (s + rest)[0] == s[0] && (s + rest)[1..] == s[1..] + rest;
      if s[0] == '(' {
        CloseSkips(s[1..], rest, depth + 1, now + 1);
      } else if s[0] == ')' {
        CloseSkips(s[1..], rest, depth - 1, now - 1);
      } else {
        CloseSkips(s[1..], rest, depth, now);
      }
    }
  }

  lemma GroupEndAt(s: string, rest: string, close: nat)
    requires Paired(s) && close == |s| + 1
    ensures GroupEnd(Group(s) + rest) == Some(close)
    ensures (Group(s) + rest)[1..close] == s && (Group(s) + rest)[close + 1..] == rest
  {
    var whole, tail := Group(s) + rest, ")" + rest;
    assert whole[0] == '(' && whole[1..] == s + tail;
    CloseSkips(s, tail, 0, 1);
    assert tail[0] == ')';
    assert CloseFrom(tail, 1) == Some(0);
  }

  // ---- Where operators are found ----

  ghost predicate IsOperator(operator: string) {
    operator == OR || operator == AND
  }

  /** No occurrence of the operator begins in u when u is followed by v. */
  predicate Silent(u: string, v: string, operator: string, at: Scan) {
    u == "" ||
    (!(at.Next(u[0]).Top() && StartsWith(u + v, operator)) && Silent(u[1..], v, operator, at.Next(u[0])))
  }

  lemma {:induction false} FindSilent(u: string, v: string, operator: string, at: Scan)
    requires Silent(u, v, operator, at)
    ensures FindFrom(u + v, operator, at) == Moved(FindFrom(v, operator, Run(at, u)), |u|)
  {
    if u == "" {
      assert u + v == v;
    } else {
      assert (u + v)[0] == u[0] && (u + v)[1..] == u[1..] + v;
      FindSilent(u[1..], v, operator, at.Next(u[0]));
    }
  }

  lemma {:induction false} NoneFoundIsSilent(u: string, v: string, operator: string, at: Scan)
    requires FindFrom(u + v, operator, at).None?
    ensures Silent(u, v, operator, at)
  {
    if u != "" {
      assert (u + v)[0] == u[0] && (u + v)[1..] == u[1..] + v;
      NoneFoundIsSilent(u[1..], v, operator, at.Next(u[0]));
    }
  }

  lemma {:induction false} SilentAppend(u: string, w: string, v: string, operator: string, at: Scan)
    requires Silent(u, w + v, operator, at) && Silent(w, v, operator, Run(at, u))
    ensures Silent(u + w, v, operator, at)
    decreases |u|
  {
    if u == "" {
      assert u + w == w;
    } else {
      assert (u + w)[0] == u[0] && (u + w)[1..] == u[1..] + w && (u + w) + v == u + (w + v);
      SilentAppend(u[1..], w, v, operator, at.Next(u[0]));
    }
  }

  lemma StartsBeforeSpace(u: string, v: string, operator: string)
    requires IsOperator(operator) && u != "" && (v == "" || v[0] == ' ') && StartsWith(u + v, operator)
    ensures StartsWith(u + " ", operator)
  {
    var s := u + v;
    assert forall i :: 0 <= i < |operator| ==> s[..|operator|][i] == s[i];
    assert forall k :: 0 < k < |operator| - 1 ==> operator[k] != ' ';
    assert v != "" ==> s[|u|] == ' ';
    assert |operator| <= |u| + 1;
    assert (u + " ")[..|operator|] == s[..|operator|];
  }

  /** What follows does not matter if it begins with a space. */
  lemma {:induction false} SilentBeforeSpace(u: string, v: string, operator: string, at: Scan)
    requires IsOperator(operator) && (v == "" || v[0] == ' ') && Silent(u, " ", operator, at)
    ensures Silent(u, v, operator, at)
  {
    if u != "" {
      if StartsWith(u + v, operator) {
        StartsBeforeSpace(u, v, operator);
      }
      SilentBeforeSpace(u[1..], v, operator, at.Next(u[0]));
    }
  }

  /** Nothing is found inside parentheses. */
  lemma {:induction false} SilentInside(u: string, v: string, operator: string, at: Scan)
    requires Above(at, u, 1)
    ensures Silent(u, v, operator, at)
  {
    if u != "" {
      SilentInside(u[1..], v, operator, at.Next(u[0]));
    }
  }

  lemma StartsWithSpace(s: string, operator: string)
    requires IsOperator(operator) && s != "" && s[0] != ' '
    ensures !StartsWith(s, operator)
  {
    assert operator[0] == ' ';
  }

  lemma {:induction false} SilentWithoutSpace(u: string, v: string, operator: string, at: Scan)
    requires IsOperator(operator) && ' ' !in u
    ensures Silent(u, v, operator, at)
  {
    if u != "" {
      assert (u + v)[0] == u[0];
      StartsWithSpace(u + v, operator);
      SilentWithoutSpace(u[1..], v, operator, at.Next(u[0]));
    }
  }

  /** The text is balanced and, even with a space on both sides, without the operator. */
  predicate Calm(u: string, operator: string) {
    Balanced(u) && Find(" " + u + " ", operator).None?
  }

  lemma CalmParts(u: string, operator: string)
    requires IsOperator(operator)
    ensures Calm(u, operator) <==>
              Balanced(u) && Silent(u, " ", operator, START) && !StartsWith(" " + u + " ", operator)
  {
    var s := " " + u + " ";
    assert s[0] == ' ' && s[1..] == u + " " && START.Next(' ') == START;
    if Balanced(u) && Find(s, operator).None? {
      NoneFoundIsSilent(u, " ", operator, START);
    }
    if Balanced(u) && Silent(u, " ", operator, START) && !StartsWith(s, operator) {
      FindSilent(u, " ", operator, START);
      assert !StartsWith(" ", operator);
      assert FindFrom(" ", operator, START).None?;
    }
  }

  lemma SecondCharDiffers(s: string, operator: string)
    requires IsOperator(operator) && |s| >= 2 && s[1] != operator[1]
    ensures !StartsWith(s, operator)
  {
  }

  lemma CalmGroup(s: string, operator: string)
    requires IsOperator(operator) && Balanced(s)
    ensures Calm(Group(s), operator)
  {
    var inside, tail := Deeper(START), s + ")";
    BalancedGroup(s);
    ScanDeeper(START, s, 0);
    SilentInside(s, ")" + " ", operator, inside);
    SilentWithoutSpace(")", " ", operator, Run(inside, s));
    SilentAppend(s, ")", " ", operator, inside);
    assert START.Next('(') == inside && Run(START, "(") == inside;
    SilentWithoutSpace("(", tail + " ", operator, START);
    SilentAppend("(", tail, " ", operator, START);
    SecondCharDiffers(" " + Group(s) + " ", operator);
    CalmParts(Group(s), operator);
  }

  lemma SilentSpace(v: string, operator: string)
    requires !StartsWith(" " + v, operator)
    ensures Silent(" ", v, operator, START)
  {
  }

  lemma WordBeforeText(word: string, v: string, operator: string)
    requires IsOperator(operator) && !StartsWith(" " + v, operator)
    requires ' ' !in word && '(' !in word && ')' !in word && '\'' !in word && '"' !in word
    ensures Silent(word + " ", v, operator, START)
  {
    SilentSpace(v, operator);
    SilentWithoutSpace(word, " " + v, operator, START);
    PlainScan(word, START);
    SilentAppend(word, " ", v, operator, START);
  }

  lemma AndHasNoOr(w: string)
    requires !StartsWith(" " + w + " ", OR)
    ensures Silent(AND, w + " ", OR, START) && Balanced(AND)
  {
    var v := w + " ";
    assert " " + v == " " + w + " ";
    WordBeforeText("and", v, OR);
    assert "and" + " " == "and ";
    SecondCharDiffers(" " + ("and " + v), OR);
    SilentSpace("and " + v, OR);
    SilentAppend(" ", "and ", v, OR, START);
    assert " " + "and " == AND;
    PlainScan(AND, START);
  }

  lemma {:induction false} PlainScan(u: string, at: Scan)
    requires '(' !in u && ')' !in u && '\'' !in u && '"' !in u
    ensures Run(at, u) == at && Above(at, u, at.depth)
    ensures forall depth: nat :: Blind(u, depth) == Some(depth)
  {
    if u != "" {
      assert u[0] in u;
      PlainScan(u[1..], at);
    }
  }

  lemma CalmAnd(u: string, w: string)
    requires Calm(u, OR) && Calm(w, OR) && u != ""
    ensures Calm(u + (AND + w), OR)
  {
    CalmParts(u, OR);
    CalmParts(w, OR);
    var tail := AND + w;
    AndHasNoOr(w);
    SilentAppend(AND, w, " ", OR, START);
    assert (tail + " ")[0] == ' ';
    SilentBeforeSpace(u, tail + " ", OR, START);
    SilentAppend(u, tail, " ", OR, START);
    BalancedAppend(AND, w);
    BalancedAppend(u, tail);
    var padded := " " + (u + tail) + " ";
    if StartsWith(padded, OR) {
      assert padded == (" " + u) + (tail + " ");
      StartsBeforeSpace(" " + u, tail + " ", OR);
    }
    CalmParts(u + tail, OR);
  }

  lemma CalmNot(u: string, operator: string)
    requires IsOperator(operator) && Calm(u, operator)
    ensures Calm(NOT + u, operator)
  {
    CalmParts(u, operator);
    assert NOT == "not" + " ";
    PlainScan(NOT, START);
    assert " " + (u + " ") == " " + u + " ";
    WordBeforeText("not", u + " ", operator);
    SilentAppend(NOT, u, " ", operator, START);
    BalancedAppend(NOT, u);
    SecondCharDiffers(" " + (NOT + u) + " ", operator);
    CalmParts(NOT + u, operator);
  }

  /** The first operator after a calm text is the one that follows it. */
  lemma FirstOperator(u: string, operator: string, w: string)
    requires IsOperator(operator) && Calm(u, operator)
    ensures Find(u + (operator + w), operator) == Some(|u|)
  {
    CalmParts(u, operator);
    var tail := operator + w;
    assert tail[0] == ' ' && StartsWith(tail, operator);
    SilentBeforeSpace(u, tail, operator, START);
    FindSilent(u, tail, operator, START);
    assert START.Next(' ').Top();
  }

  lemma NoOperator(u: string, operator: string)
    requires IsOperator(operator) && Calm(u, operator)
    ensures Find(u, operator) == None
  {
    CalmParts(u, operator);
    SilentBeforeSpace(u, "", operator, START);
    FindSilent(u, "", operator, START);
    assert u + "" == u;
  }

  // ---- Printed trees ----

  /** The texts for which the theorem holds: balanced in quotes and parentheses, not starting like a
      group or a negation, and without an operator at top level, not even where an end of the text
      meets a space. */
  predicate GoodAtom(x: string) {
    && Trimmed(x)
    && x[0] != '(' && !StartsWith(x, NOT)
    && Paired(x)
    && Calm(x, OR) && Calm(x, AND)
  }

  predicate Trimmed(s: string) {
    s != "" && !IsSpace(s[0]) && !IsSpace(s[|s| - 1])
  }

  predicate Good(t: Tree) {
    match t
    case Atom(text) => GoodAtom(text)
    case Not(c) => Good(c)
    case And(a, b) => Good(a) && Good(b)
    case Or(a, b) => Good(a) && Good(b)
  }

  function Size(t: Tree): nat {
    match t
    case Atom(_) => 1
    case Not(c) => 1 + Size(c)
    case And(a, b) => 1 + Size(a) + Size(b)
    case Or(a, b) => 1 + Size(a) + Size(b)
  }

  lemma TrimKeeps(s: string)
    requires Trimmed(s)
    ensures Trim(s) == s
  {
  }

  lemma TrimmedJoin(a: string, operator: string, b: string)
    requires Trimmed(a) && Trimmed(b)
    ensures Trimmed(a + (operator + b))
  {
    var s := a + (operator + b);
    assert s[0] == a[0] && s[|s| - 1] == b[|b| - 1];
  }

  predicate Sound(s: string) {
    Trimmed(s) && Balanced(s) && Paired(s)
  }

  lemma SoundGroup(s: string)
    requires Sound(s)
    ensures Sound(Group(s))
  {
    BalancedGroup(s);
    PairedGroup(s);
  }

  lemma SoundJoin(a: string, operator: string, b: string)
    requires Sound(a) && Sound(b) && IsOperator(operator)
    ensures Sound(a + (operator + b))
  {
    PlainScan(operator, START);
    TrimmedJoin(a, operator, b);
    BalancedAppend(operator, b);
    BalancedAppend(a, operator + b);
    PairedAppend(operator, b);
    PairedAppend(a, operator + b);
  }

  lemma SoundNot(s: string)
    requires Sound(s)
    ensures Sound(NOT + s)
  {
    PlainScan(NOT, START);
    BalancedAppend(NOT, s);
    PairedAppend(NOT, s);
    assert (NOT + s)[|NOT + s| - 1] == s[|s| - 1];
  }

  lemma {:induction false} PrintIsSound(t: Tree)
    requires Good(t)
    ensures Sound(Print(t)) && Sound(Group(Print(t)))
  {
    match t {
      case Atom(_) =>
      case Not(c) =>
        PrintIsSound(c);
        SoundNot(if c.And? || c.Or? then Group(Print(c)) else Print(c));
      case And(a, b) =>
        PrintIsSound(a);
        PrintIsSound(b);
        SoundJoin(Operand(a), AND, Operand(b));
      case Or(a, b) =>
        PrintIsSound(a);
        PrintIsSound(b);
        SoundJoin(Print(a), OR, Print(b));
    }
    SoundGroup(Print(t));
  }

  /** Only a disjunction shows an `or`, and only a disjunction or a conjunction shows an `and`. */
  lemma {:induction false} PrintIsCalm(t: Tree)
    requires Good(t)
    ensures !t.Or? ==> Calm(Print(t), OR)
    ensures !t.Or? && !t.And? ==> Calm(Print(t), AND)
    decreases t, 0
  {
    match t {
      case Atom(_) =>
      case Not(c) =>
        PrintIsCalm(c);
        PrintIsSound(c);
        CalmGroup(Print(c), OR);
        CalmGroup(Print(c), AND);
        CalmNot(if c.And? || c.Or? then Group(Print(c)) else Print(c), OR);
        CalmNot(if c.And? || c.Or? then Group(Print(c)) else Print(c), AND);
      case And(a, b) =>
        OperandIsCalm(a);
        OperandIsCalm(b);
        CalmAnd(Operand(a), Operand(b));
      case Or(_, _) =>
    }
  }

  lemma {:induction false} OperandIsCalm(t: Tree)
    requires Good(t)
    ensures Calm(Operand(t), OR) && Operand(t) != ""
    decreases t, 1
  {
    PrintIsCalm(t);
    PrintIsSound(t);
    CalmGroup(Print(t), OR);
  }

  // ---- Evaluation step by step ----

  lemma ReplaceGroup(simple: Simple, s: string, close: nat, inner: string, after: string)
    requires 0 < close < |s| && s[0] == '(' && inner == s[1..close] && after == s[close + 1..]
    ensures EvalGroup(simple, s, close)
            == match Eval(simple, inner)
               case None => None
               case Some(v) => if Trim(after) == "" then Some(v) else Eval(simple, Word(v) + after)
  {
  }

  lemma EvalFindsGroup(simple: Simple, s: string, close: nat)
    requires Trim(s) == s && GroupEnd(s) == Some(close)
    ensures Eval(simple, s) == EvalGroup(simple, s, close)
  {
  }

  /** A group is worth what its content is worth. */
  lemma EvalOfGroup(simple: Simple, s: string)
    requires Paired(s)
    ensures Eval(simple, Group(s)) == Eval(simple, s)
  {
    var group, close := Group(s), |s| + 1;
    TrimKeeps(group);
    GroupEndAt(s, "", close);
    assert group + "" == group;
    EvalFindsGroup(simple, group, close);
    ReplaceGroup(simple, group, close, s, "");
  }

  lemma EvalUngrouped(simple: Simple, s: string)
    requires Trimmed(s) && s[0] != '('
    ensures Eval(simple, s) == EvalOperators(simple, s)
  {
    TrimKeeps(s);
  }

  lemma SplitAtOr(simple: Simple, s: string, i: nat, left: string, right: string)
    requires Find(s, OR) == Some(i) && left == s[..i] && right == s[i + 4..]
    ensures EvalOperators(simple, s)
            == match Eval(simple, left) case None => None case Some(v) => if v then Some(true) else Eval(simple, right)
  {
  }

  lemma SplitAtAnd(simple: Simple, s: string, i: nat, left: string, right: string)
    requires Find(s, OR) == None && Find(s, AND) == Some(i) && left == s[..i] && right == s[i + 5..]
    ensures EvalOperators(simple, s)
            == match Eval(simple, left) case None => None case Some(v) => if v then Eval(simple, right) else Some(false)
  {
  }

  lemma StripNot(simple: Simple, s: string, inner: string)
    requires Find(s, OR) == None && Find(s, AND) == None && StartsWith(s, NOT) && inner == s[4..]
    ensures EvalOperators(simple, s) == match Eval(simple, inner) case None => None case Some(b) => Some(!b)
  {
  }

  lemma EvalOr(simple: Simple, u: string, w: string)
    requires Trimmed(u) && Trimmed(w) && u[0] != '(' && Calm(u, OR)
    ensures Eval(simple, u + (OR + w))
            == match Eval(simple, u) case None => None case Some(v) => if v then Some(true) else Eval(simple, w)
  {
    var s := u + (OR + w);
    TrimmedJoin(u, OR, w);
    assert s[0] == u[0];
    EvalUngrouped(simple, s);
    FirstOperator(u, OR, w);
    SplitAtOr(simple, s, |u|, u, w);
  }

  lemma EvalAnd(simple: Simple, u: string, w: string)
    requires Trimmed(u) && Trimmed(w) && u[0] != '(' && Calm(u, AND) && Calm(u + (AND + w), OR)
    ensures Eval(simple, u + (AND + w))
            == match Eval(simple, u) case None => None case Some(v) => if v then Eval(simple, w) else Some(false)
  {
    var s := u + (AND + w);
    TrimmedJoin(u, AND, w);
    assert s[0] == u[0];
    EvalUngrouped(simple, s);
    NoOperator(s, OR);
    FirstOperator(u, AND, w);
    SplitAtAnd(simple, s, |u|, u, w);
  }

  lemma EvalNot(simple: Simple, s: string)
    requires Trimmed(s) && Calm(NOT + s, OR) && Calm(NOT + s, AND)
    ensures Eval(simple, NOT + s) == match Eval(simple, s) case None => None case Some(b) => Some(!b)
  {
    var whole := NOT + s;
    assert whole[|whole| - 1] == s[|s| - 1];
    EvalUngrouped(simple, whole);
    NoOperator(whole, OR);
    NoOperator(whole, AND);
    StripNot(simple, whole, s);
  }

  lemma {:induction false} TrimLeavesEnd(s: string)
    requires s != "" && !IsSpace(s[|s| - 1])
    ensures Trim(s) != ""
  {
    if IsSpace(s[0]) {
      TrimLeavesEnd(s[1..]);
      assert TrimStart(s) == TrimStart(s[1..]);
    }
  }

  // ---- Trees whose text begins with a group ----

  predicate Leads(t: Tree) {
    match t
    case Atom(_) => false
    case Not(_) => false
    case And(a, _) => a.Or? || Leads(a)
    case Or(a, _) => Leads(a)
  }

  function LeadingGroup(t: Tree): Tree
    requires Leads(t)
  {
    match t
    case And(a, _) => if a.Or? then a else LeadingGroup(a)
    case Or(a, _) => LeadingGroup(a)
  }

  /** The tree with its leading group replaced by a literal. */
  function Fill(t: Tree, v: bool): (r: Tree)
    requires Leads(t)
    ensures r.Or? == t.Or? && r.And? == t.And?
  {
    match t
    case And(a, b) => And(if a.Or? then Atom(Word(v)) else Fill(a, v), b)
    case Or(a, b) => Or(Fill(a, v), b)
  }

  /** What follows the leading group. */
  function Rest(t: Tree): string
    requires Leads(t)
  {
    match t
    case And(a, b) => (if a.Or? then "" else Rest(a)) + (AND + Operand(b))
    case Or(a, b) => Rest(a) + (OR + Print(b))
  }

  lemma Regroup(x: string, y: string, z: string)
    ensures (x + y) + z == x + (y + z)
  {
  }

  lemma {:induction false} PrintSplits(t: Tree, v: bool)
    requires Leads(t)
    ensures Print(t) == Group(Print(LeadingGroup(t))) + Rest(t)
    ensures Print(Fill(t, v)) == Word(v) + Rest(t)
  {
    var tail := if t.And? then AND + Operand(t.right) else OR + Print(t.right);
    if t.And? && t.left.Or? {
      assert "" + tail == tail;
    } else {
      PrintSplits(t.left, v);
      Regroup(Group(Print(LeadingGroup(t.left))), Rest(t.left), tail);
      Regroup(Word(v), Rest(t.left), tail);
    }
  }

  lemma EndOfAppend(x: string, y: string)
    requires y != ""
    ensures x + y != "" && (x + y)[|x + y| - 1] == y[|y| - 1]
  {
  }

  lemma RestEnds(t: Tree)
    requires Leads(t) && Good(t)
    ensures Rest(t) != "" && !IsSpace(Rest(t)[|Rest(t)| - 1])
  {
    var b := t.right;
    assert Good(b);
    PrintIsSound(b);
    var operator, last := if t.And? then AND else OR, if t.And? then Operand(b) else Print(b);
    var front := if t.And? && t.left.Or? then "" else Rest(t.left);
    assert Rest(t) == front + (operator + last);
    EndOfBoth(front, operator, last);
  }

  lemma EndOfBoth(front: string, operator: string, last: string)
    requires Trimmed(last)
    ensures var s := front + (operator + last); s != "" && !IsSpace(s[|s| - 1])
  {
    EndOfAppend(operator, last);
    EndOfAppend(front, operator + last);
  }

  lemma CalmWord(w: string, operator: string)
    requires IsOperator(operator) && w != "" && w[0] != operator[1]
    requires ' ' !in w && '(' !in w && ')' !in w && '\'' !in w && '"' !in w
    ensures Calm(w, operator)
  {
    PlainScan(w, START);
    SilentWithoutSpace(w, " ", operator, START);
    SecondCharDiffers(" " + w + " ", operator);
    CalmParts(w, operator);
  }

  lemma WordIsGood(v: bool)
    ensures GoodAtom(Word(v))
  {
    var w := Word(v);
    PlainScan(w, START);
    CalmWord(w, OR);
    CalmWord(w, AND);
  }

  lemma {:induction false} FillIsSmaller(t: Tree, v: bool)
    requires Leads(t) && Good(t)
    ensures Good(Fill(t, v)) && Size(Fill(t, v)) < Size(t)
    ensures Good(LeadingGroup(t)) && Size(LeadingGroup(t)) < Size(t)
  {
    WordIsGood(v);
    if t.left.Or? && t.And? {
      assert Size(t.left) >= 3;
    } else {
      FillIsSmaller(t.left, v);
    }
  }

  /** The value of the leading group takes its place. */
  lemma EvalOfLeadingTree(simple: Simple, t: Tree)
    requires Leads(t) && Good(t)
    ensures Eval(simple, Print(t))
            == match Eval(simple, Print(LeadingGroup(t))) case None => None case Some(v) => Eval(simple, Print(Fill(t, v)))
  {
    var whole, s, rest := Print(t), Print(LeadingGroup(t)), Rest(t);
    var close := |s| + 1;
    PrintSplits(t, true);
    PrintSplits(t, false);
    FillIsSmaller(t, true);
    PrintIsSound(t);
    PrintIsSound(LeadingGroup(t));
    TrimKeeps(whole);
    RestEnds(t);
    TrimLeavesEnd(rest);
    GroupEndAt(s, rest, close);
    EvalFindsGroup(simple, whole, close);
    ReplaceGroup(simple, whole, close, s, rest);
  }

  /** The leading group is evaluated first, and nothing but its value counts. */
  lemma {:induction false} FillKeepsMeaning(simple: Simple, t: Tree)
    requires Leads(t)
    ensures Meaning(simple, t)
            == match Meaning(simple, LeadingGroup(t)) case None => None case Some(v) => Meaning(simple, Fill(t, v))
  {
    if !(t.left.Or? && t.And?) {
      FillKeepsMeaning(simple, t.left);
    }
  }

  lemma {:induction false} NoLeadNoGroup(t: Tree)
    requires !Leads(t) && Good(t)
    ensures Print(t) != "" && Print(t)[0] != '('
  {
    match t {
      case Atom(_) =>
      case Not(_) =>
      case And(a, b) => NoLeadNoGroup(a);
      case Or(a, b) => NoLeadNoGroup(a);
    }
  }

  // ---- The theorem ----

  /** How far the tree leans to the left. */
  function Lean(t: Tree): nat {
    if t.And? || t.Or? then Size(t.left) else 0
  }

  /** Evaluating a printed tree gives its meaning. */
  lemma {:induction false} EvalOfPrint(simple: Simple, t: Tree)
    requires Good(t)
    ensures Eval(simple, Print(t)) == Meaning(simple, t)
    decreases Size(t), Lean(t)
  {
    if Leads(t) {
      FillIsSmaller(t, true);
      FillIsSmaller(t, false);
      FillKeepsMeaning(simple, t);
      EvalOfLeadingTree(simple, t);
      EvalOfPrint(simple, LeadingGroup(t));
      EvalOfPrint(simple, Fill(t, true));
      EvalOfPrint(simple, Fill(t, false));
    } else {
      EvalOfUngrouped(simple, t);
    }
  }

  lemma {:induction false} EvalOfOperand(simple: Simple, t: Tree)
    requires Good(t)
    ensures Eval(simple, Operand(t)) == Meaning(simple, t)
    decreases Size(t), Lean(t) + 1
  {
    EvalOfPrint(simple, t);
    PrintIsSound(t);
    EvalOfGroup(simple, Print(t));
  }

  lemma {:induction false} EvalOfUngrouped(simple: Simple, t: Tree)
    requires Good(t) && !Leads(t)
    ensures Eval(simple, Print(t)) == Meaning(simple, t)
    decreases Size(t), Lean(t), 0
  {
    match t {
      case Atom(x) =>
        EvalUngrouped(simple, x);
        NoOperator(x, OR);
        NoOperator(x, AND);
      case Not(c) =>
        EvalOfNegation(simple, c);
      case Or(a, b) =>
        if a.Or? {
          RotatedOr(simple, a.left, a.right, b);
          EvalOfPrint(simple, Or(a.left, Or(a.right, b)));
        } else {
          EvalOfPrint(simple, a);
          EvalOfPrint(simple, b);
          EvalOfOr(simple, a, b);
        }
      case And(a, b) =>
        if a.And? {
          RotatedAnd(simple, a.left, a.right, b);
          EvalOfPrint(simple, And(a.left, And(a.right, b)));
        } else {
          EvalOfPrint(simple, a);
          EvalOfOperand(simple, b);
          EvalOfAnd(simple, a, b);
        }
    }
  }

  lemma EvalOfOr(simple: Simple, a: Tree, b: Tree)
    requires Good(a) && Good(b) && !a.Or? && !Leads(a)
    ensures Eval(simple, Print(Or(a, b)))
            == match Eval(simple, Print(a))
               case None => None
               case Some(v) => if v then Some(true) else Eval(simple, Print(b))
  {
    PrintIsSound(a);
    PrintIsSound(b);
    PrintIsCalm(a);
    NoLeadNoGroup(a);
    EvalOr(simple, Print(a), Print(b));
  }

  lemma EvalOfAnd(simple: Simple, a: Tree, b: Tree)
    requires Good(a) && Good(b) && !a.And? && !a.Or? && !Leads(a)
    ensures Eval(simple, Print(And(a, b)))
            == match Eval(simple, Print(a))
               case None => None
               case Some(v) => if v then Eval(simple, Operand(b)) else Some(false)
  {
    PrintIsSound(a);
    PrintIsSound(b);
    PrintIsCalm(a);
    PrintIsCalm(And(a, b));
    NoLeadNoGroup(a);
    EvalAnd(simple, Print(a), Operand(b));
  }

  lemma RegroupThree(x: string, operator: string, y: string, z: string)
    ensures (x + (operator + y)) + (operator + z) == x + (operator + (y + (operator + z)))
  {
  }

  /** Chains of one operator can be read from either side. */
  lemma RotatedOr(simple: Simple, a: Tree, b: Tree, c: Tree)
    ensures var t, r := Or(Or(a, b), c), Or(a, Or(b, c));
            Print(t) == Print(r) && Size(t) == Size(r) && Lean(r) < Lean(t)
            && (Good(t) ==> Good(r)) && Meaning(simple, t) == Meaning(simple, r)
  {
    RegroupThree(Print(a), OR, Print(b), Print(c));
    assert Print(Or(a, b)) == Print(a) + (OR + Print(b)) && Print(Or(b, c)) == Print(b) + (OR + Print(c));
    assert Good(Or(a, b)) == (Good(a) && Good(b)) && Good(Or(b, c)) == (Good(b) && Good(c));
    assert Size(Or(a, b)) == 1 + Size(a) + Size(b) && Size(Or(b, c)) == 1 + Size(b) + Size(c);
  }

  lemma RotatedAnd(simple: Simple, a: Tree, b: Tree, c: Tree)
    ensures var t, r := And(And(a, b), c), And(a, And(b, c));
            Print(t) == Print(r) && Size(t) == Size(r) && Lean(r) < Lean(t)
            && (Good(t) ==> Good(r)) && Meaning(simple, t) == Meaning(simple, r)
  {
    RegroupThree(Operand(a), AND, Operand(b), Operand(c));
    assert Print(And(a, b)) == Operand(a) + (AND + Operand(b)) && Print(And(b, c)) == Operand(b) + (AND + Operand(c));
    assert Good(And(a, b)) == (Good(a) && Good(b)) && Good(And(b, c)) == (Good(b) && Good(c));
    assert Size(And(a, b)) == 1 + Size(a) + Size(b) && Size(And(b, c)) == 1 + Size(b) + Size(c);
  }

  lemma {:induction false} EvalOfNegation(simple: Simple, c: Tree)
    requires Good(c)
    ensures Eval(simple, Print(Not(c))) == Meaning(simple, Not(c))
    decreases Size(c), Lean(c) + 1
  {
    var inner := if c.And? || c.Or? then Group(Print(c)) else Print(c);
    EvalOfPrint(simple, c);
    PrintIsSound(c);
    EvalOfGroup(simple, Print(c));
    EvalOfNot(simple, c, inner);
  }

  lemma EvalOfNot(simple: Simple, c: Tree, inner: string)
    requires Good(c) && Print(Not(c)) == NOT + inner && Sound(inner)
    ensures Eval(simple, Print(Not(c))) == match Eval(simple, inner) case None => None case Some(b) => Some(!b)
  {
    PrintIsCalm(Not(c));
    EvalNot(simple, inner);
  }
}
