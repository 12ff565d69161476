/** Evaluation of Python conditions with `and`, `or`, `not` and grouping by splitting and rewriting
    the text.  Texts are ASCII. */
module LogicalEval {
  import opened Text
  import opened Wrappers

  /** The evaluator of conditions without logical operators. */
  type Simple = string -> Option<bool>

  // ---- Opening parentheses ----

  /** The number of opening parentheses. */
  function Opens(s: string): nat {
    multiset(s)['(']
  }

  lemma AppendOpens(a: string, b: string)
    ensures Opens(a + b) == Opens(a) + Opens(b)
  {
  }

  lemma SplitOpens(s: string, i: nat, j: nat)
    requires i <= j <= |s|
    ensures Opens(s[..i]) + Opens(s[i..j]) + Opens(s[j..]) == Opens(s)
  {
    assert s == s[..i] + s[i..j] + s[j..];
  }

  lemma TrimOpens(s: string)
    ensures |Trim(s)| <= |s| && Opens(Trim(s)) <= Opens(s)
  {
    var t := TrimStart(s);
    SplitOpens(s, |s| - |t|, |s| - |t|);
    SplitOpens(t, |Trim(s)|, |Trim(s)|);
  }

  // ---- Matching parentheses ----

  /** The position at which the nesting depth returns to zero; quotes are not heeded. */
  function CloseFrom(s: string, depth: int): (r: Option<nat>)
    ensures r.Some? ==> r.value < |s|
  {
    if s == "" then None
    else
      var now := if s[0] == '(' then depth + 1 else if s[0] == ')' then depth - 1 else depth;
      if s[0] == ')' && now == 0 then Some(0)
      else Moved(CloseFrom(s[1..], now), 1)
  }

  /** The parenthesis that closes the group with which the text begins. */
  function GroupEnd(s: string): (r: Option<nat>)
    ensures r.Some? ==> 0 < r.value < |s| && s[0] == '('
  {
    if s != "" && s[0] == '(' then CloseFrom(s, 0) else None
  }

  method MatchingParen(s: string) returns (closeParen: Option<nat>)
    requires s != "" && s[0] == '('
    ensures closeParen == GroupEnd(s)
  {
    var depth: int := 0;
    closeParen := None;
    assert s[0..] == s;
    for i := 0 to |s|
      invariant CloseFrom(s, 0) == Moved(CloseFrom(s[i..], depth), i)
    {
      assert s[i..][1..] == s[i + 1..];
      if s[i] == '(' {
        depth := depth + 1;
      } else if s[i] == ')' {
        depth := depth - 1;
        if depth == 0 {
          return Some(i);
        }
      }
    }
  }

  // ---- Finding operators ----

  /** What the scan for operators knows: the nesting depth outside quotes, and the open quote. */
  datatype Scan = Scan(depth: int, single: bool, double: bool) {
    function Next(c: char): Scan {
      if c == '(' && !single && !double then this.(depth := depth + 1)
      else if c == ')' && !single && !double then this.(depth := depth - 1)
      else if c == '\'' && !double then this.(single := !single)
      else if c == '"' && !single then this.(double := !double)
      else this
    }

    predicate Top() {
      depth == 0 && !single && !double
    }
  }

  const START: Scan := Scan(0, false, false)

  /** The first occurrence of the operator outside parentheses and quotes. */
  function FindFrom(s: string, operator: string, at: Scan): (r: Option<nat>)
    ensures r.Some? ==> r.value < |s| && r.value + |operator| <= |s|
  {
    if s == "" then None
    else if at.Next(s[0]).Top() && StartsWith(s, operator) then Some(0)
    else Moved(FindFrom(s[1..], operator, at.Next(s[0])), 1)
  }

  function Find(s: string, operator: string): (r: Option<nat>)
    ensures r.Some? ==> r.value < |s| && r.value + |operator| <= |s|
  {
    FindFrom(s, operator, START)
  }

  lemma OccursAtStart(s: string, operator: string, i: nat)
    requires i <= |s|
    ensures StartsWith(s[i..], operator) <==> OccursAt(s, operator, i)
  {
    if i + |operator| <= |s| {
      assert s[i..][..|operator|] == s[i..i + |operator|];
    }
  }

  lemma FindStep(s: string, operator: string, i: nat, j: nat, at: Scan, next: Scan)
    requires i < |s| && j == i + 1 && next == at.Next(s[i])
    ensures Moved(FindFrom(s[i..], operator, at), i)
            == if next.Top() && OccursAt(s, operator, i) then Some(i) else Moved(FindFrom(s[j..], operator, next), j)
  {
    OccursAtStart(s, operator, i);
    assert s[i..][0] == s[i] && s[i..][1..] == s[j..];
  }

  method FindOperator(expr: string, operator: string) returns (found: Option<nat>)
    ensures found == Find(expr, operator)
  {
    var parenDepth: int, inSingleQuote, inDoubleQuote := 0, false, false;
    assert expr[0..] == expr;
    for i := 0 to |expr|
      invariant Find(expr, operator)
                == Moved(FindFrom(expr[i..], operator, Scan(parenDepth, inSingleQuote, inDoubleQuote)), i)
    {
      var ch := expr[i];
      ghost var before := Scan(parenDepth, inSingleQuote, inDoubleQuote);
      if ch == '(' && !inSingleQuote && !inDoubleQuote {
        parenDepth := parenDepth + 1;
      } else if ch == ')' && !inSingleQuote && !inDoubleQuote {
        parenDepth := parenDepth - 1;
      } else if ch == '\'' && !inDoubleQuote {
        inSingleQuote := !inSingleQuote;
      } else if ch == '"' && !inSingleQuote {
        inDoubleQuote := !inDoubleQuote;
      }
      FindStep(expr, operator, i, i + 1, before, Scan(parenDepth, inSingleQuote, inDoubleQuote));
      if parenDepth == 0 && !inSingleQuote && !inDoubleQuote && i + |operator| <= |expr|
         && expr[i..i + |operator|] == operator
      {
        return Some(i);
      }
    }
    return None;
  }

  // ---- Evaluation ----

  const OR := " or "
  const AND := " and "
  const NOT := "not "

  function Word(b: bool): string {
    if b then "True" else "False"
  }

  lemma WordOpens(b: bool, after: string)
    ensures Opens(Word(b) + after) == Opens(after)
  {
    AppendOpens(Word(b), after);
  }

  lemma GroupOpens(s: string, close: nat)
    requires 0 < close < |s| && s[0] == '('
    ensures Opens(s[1..close]) < Opens(s) && Opens(s[close + 1..]) < Opens(s)
  {
    assert s[..1] == ['('];
    SplitOpens(s, 1, close);
    SplitOpens(s, 1, close + 1);
  }

  /** The value of a logical expression.  It is defined for every text: a group that is replaced by
      its value takes a parenthesis away, and every other step shortens the text. */
  function Eval(simple: Simple, expr: string): Option<bool>
    decreases Opens(expr), |expr|, 1
  {
    TrimOpens(expr);
    var s := Trim(expr);
    match GroupEnd(s)
    case Some(close) => EvalGroup(simple, s, close)
    case None => EvalOperators(simple, s)
  }

  /** A group at the start is evaluated first and replaced by its value. */
  function EvalGroup(simple: Simple, s: string, close: nat): Option<bool>
    requires 0 < close < |s| && s[0] == '('
    decreases Opens(s), |s|, 0
  {
    GroupOpens(s, close);
    match Eval(simple, s[1..close])
    case None => None
    case Some(inner) =>
      var after := s[close + 1..];
      WordOpens(inner, after);
      if Trim(after) == "" then Some(inner) else Eval(simple, Word(inner) + after)
  }

  /** Without such a group the text is split at its first operator of lowest precedence. */
  function EvalOperators(simple: Simple, s: string): Option<bool>
    decreases Opens(s), |s|, 0
  {
    match Find(s, OR)
    case Some(i) =>
      SplitOpens(s, i, i + 4);
      (match Eval(simple, s[..i])
       case None => None
       case Some(left) => if left then Some(true) else Eval(simple, s[i + 4..]))
    case None =>
      match Find(s, AND)
      case Some(i) =>
        SplitOpens(s, i, i + 5);
        (match Eval(simple, s[..i])
         case None => None
         case Some(left) => if !left then Some(false) else Eval(simple, s[i + 5..]))
      case None =>
        if StartsWith(s, NOT) then
          SplitOpens(s, 4, 4);
          match Eval(simple, s[4..])
          case None => None
          case Some(b) => Some(!b)
        else EvalAtom(simple, s)
  }

  function EvalAtom(simple: Simple, s: string): Option<bool> {
    if s == "True" then Some(true) else if s == "False" then Some(false) else simple(s)
  }

  method EvalLogicalExpression(simple: Simple, expr: string) returns (value: Option<bool>)
    ensures value == Eval(simple, expr)
    decreases Opens(expr), |expr|, 1
  {
    TrimOpens(expr);
    var trimmed := Trim(expr);
    if trimmed != "" && trimmed[0] == '(' {
      var closeParen := MatchingParen(trimmed);
      if closeParen.Some? {
        value := EvaluateGroup(simple, trimmed, closeParen.value);
        return;
      }
    }
    value := EvaluateOperators(simple, trimmed);
  }

  method EvaluateGroup(simple: Simple, trimmed: string, closePos: nat) returns (value: Option<bool>)
    requires 0 < closePos < |trimmed| && trimmed[0] == '('
    ensures value == EvalGroup(simple, trimmed, closePos)
    decreases Opens(trimmed), |trimmed|, 0
  {
    GroupOpens(trimmed, closePos);
    var inner := EvalLogicalExpression(simple, trimmed[1..closePos]);
    if inner.None? {
      return None;
    }
    var after := trimmed[closePos + 1..];
    if Trim(after) == "" {
      return inner;
    }
    WordOpens(inner.value, after);
    value := EvalLogicalExpression(simple, Word(inner.value) + after);
  }

  method EvaluateOperators(simple: Simple, trimmed: string) returns (value: Option<bool>)
    ensures value == EvalOperators(simple, trimmed)
    decreases Opens(trimmed), |trimmed|, 0
  {
    var orPos := FindOperator(trimmed, OR);
    if orPos.Some? {
      SplitOpens(trimmed, orPos.value, orPos.value + 4);
      var left := EvalLogicalExpression(simple, trimmed[..orPos.value]);
      if left.None? || left.value {
        return left;
      }
      value := EvalLogicalExpression(simple, trimmed[orPos.value + 4..]);
      return;
    }
    var andPos := FindOperator(trimmed, AND);
    if andPos.Some? {
      SplitOpens(trimmed, andPos.value, andPos.value + 5);
      var left := EvalLogicalExpression(simple, trimmed[..andPos.value]);
      if left.None? || !left.value {
        return left;
      }
      value := EvalLogicalExpression(simple, trimmed[andPos.value + 5..]);
      return;
    }
    if StartsWith(trimmed, NOT) {
      SplitOpens(trimmed, 4, 4);
      var inner := EvalLogicalExpression(simple, trimmed[4..]);
      return if inner.Some? then Some(!inner.value) else None;
    }
    return EvalAtom(simple, trimmed);
  }
}
