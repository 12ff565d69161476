/** Statements written as tokens: what a recipe without errors looks like, and that parsing undoes writing. */
module Scripts {
  import opened Wrappers
  import opened SyntaxTree
  import opened Grammar
  import opened GrammarTheorems

  // ---- Written statements ----

  /** A statement with all its tokens, whitespace included. */
  datatype Statement =
    | Assignment(name: Token, overrides: seq<Token>, flag: seq<Token>, gap: seq<Token>,
                 operator: Token, space: seq<Token>, value: seq<Token>)
    | Inherit(keyword: Token, classes: seq<Token>)
    | Include(keyword: Token, path: seq<Token>)
    | Export(keyword: Token, gap: seq<Token>, variable: seq<Token>)
    | Function(keyword: Token, gap: seq<Token>, function': seq<Token>, afterName: seq<Token>,
               parameters: seq<Token>, afterParameters: seq<Token>, body: seq<Token>)

  /** The name of an assignment, with its overrides and flag. */
  function PrintName(s: Statement): seq<Token>
    requires s.Assignment?
  {
    [s.name] + (s.overrides + s.flag)
  }

  function PrintOperator(s: Statement): seq<Token>
    requires s.Assignment?
  {
    s.gap + ([s.operator] + s.space)
  }

  /** From behind the name of a function. */
  function PrintSignature(s: Statement): seq<Token>
    requires s.Function?
  {
    s.afterName + (s.parameters + (s.afterParameters + s.body))
  }

  function Print(s: Statement): seq<Token> {
    match s
    case Assignment(_, _, _, _, _, _, value) => PrintName(s) + (PrintOperator(s) + value)
    case Inherit(keyword, classes) => [keyword] + classes
    case Include(keyword, path) => [keyword] + path
    case Export(keyword, gap, variable) => [keyword] + (gap + variable)
    case Function(keyword, gap, name, _, _, _, _) => [keyword] + (gap + (name + PrintSignature(s)))
  }

  // ---- Which tokens may stand where ----

  ghost predicate AllAre(ts: seq<Token>, kinds: set<SyntaxKind>) {
    forall i :: 0 <= i < |ts| ==> ts[i].kind in kinds
  }

  ghost predicate NoneIs(ts: seq<Token>, kinds: set<SyntaxKind>) {
    forall i :: 0 <= i < |ts| ==> ts[i].kind !in kinds
  }

  ghost predicate IsBlank(ts: seq<Token>) {
    AllAre(ts, {Whitespace})
  }

  ghost predicate IsOverrideMark(kind: SyntaxKind) {
    kind in {Colon, ColonAppend, ColonPrepend, ColonRemove}
  }

  ghost predicate IsOperator(kind: SyntaxKind) {
    kind in {SyntaxKind.Eq, ColonEq, PlusEq, EqPlus, DotEq, EqDot, QuestionEq, QuestionQuestionEq}
  }

  lemma KindsAreAsListed(kind: SyntaxKind)
    ensures kind.IsOverride() <==> IsOverrideMark(kind)
    ensures kind.IsAssignmentOp() <==> IsOperator(kind)
    ensures kind.IsTrivia() <==> kind in {Whitespace, SyntaxKind.Comment, Newline}
    ensures kind.StartsLineStatement() <==> kind in {InheritKw, IncludeKw, RequireKw, ExportKw}
  {
  }

  /** Override marks, each with one name after it or none. */
  ghost predicate AreOverrides(ts: seq<Token>) {
    forall i :: 0 <= i < |ts| && !IsOverrideMark(ts[i].kind) ==>
                  i > 0 && ts[i].kind == SyntaxKind.Ident && IsOverrideMark(ts[i - 1].kind)
  }

  /** A bracket, a name or a text or nothing, and a closing bracket; or no flag at all. */
  ghost predicate IsFlag(ts: seq<Token>) {
    ts == [] ||
    (&& 2 <= |ts| <= 3 && ts[0].kind == LBracket && ts[|ts| - 1].kind == RBracket
     && (|ts| == 3 ==> ts[1].kind in {SyntaxKind.Ident, SyntaxKind.String}))
  }

  /** No newline but after a backslash. */
  ghost predicate IsValue(ts: seq<Token>) {
    && NoneIs(ts, {SyntaxKind.Eof}) && First(ts, SyntaxKind.Eof) != Newline
    && forall i :: 0 < i < |ts| && ts[i].kind == Newline ==> ts[i - 1].kind == Backslash
  }

  ghost predicate EndsIn(ts: seq<Token>, kind: SyntaxKind) {
    ts != [] && ts[|ts| - 1].kind == kind
  }

  /** At most one token, of that kind. */
  ghost predicate IsOptional(ts: seq<Token>, kind: SyntaxKind) {
    |ts| <= 1 && AllAre(ts, {kind})
  }

  /** An opening parenthesis and what comes after it, up to the first closing one; or nothing. */
  ghost predicate AreParameters(ts: seq<Token>) {
    ts == [] ||
    (ts[0].kind == LParen && NoneIs(ts, {SyntaxKind.Eof}) && NoneIs(ts[..|ts| - 1], {RParen}))
  }

  /** Parentheses and braces that are left open run to the end of the tokens, and are no error. */
  ghost predicate ParametersOpen(ts: seq<Token>) {
    ts != [] && !EndsIn(ts, RParen)
  }

  /** How many braces are open after the first n tokens. */
  ghost function Depth(ts: seq<Token>, n: nat): int
    requires n <= |ts|
  {
    if n == 0 then 0
    else Depth(ts, n - 1) + if ts[n - 1].kind == LBrace then 1 else if ts[n - 1].kind == RBrace then -1 else 0
  }

  /** An opening brace and what comes after it, up to the one that matches it; or nothing. */
  ghost predicate IsBody(ts: seq<Token>) {
    ts == [] ||
    (&& ts[0].kind == LBrace && NoneIs(ts, {SyntaxKind.Eof})
     && forall n :: 0 < n < |ts| ==> Depth(ts, n) > 0)
  }

  ghost predicate BodyOpen(ts: seq<Token>) {
    Depth(ts, |ts|) != 0
  }

  /** The kind of the first token, or of what comes next. */
  function First(ts: seq<Token>, next: SyntaxKind): SyntaxKind {
    if ts == [] then next else ts[0].kind
  }

  ghost predicate Fits(s: Statement) {
    match s
    case Assignment(name, overrides, flag, gap, operator, space, value) =>
      && name.kind == SyntaxKind.Ident && AreOverrides(overrides) && IsFlag(flag) && IsBlank(gap)
      && IsOperator(operator.kind) && IsBlank(space) && IsValue(value) && First(value, Newline) != Whitespace
    case Inherit(keyword, classes) =>
      keyword.kind == InheritKw && AllAre(classes, {Whitespace, SyntaxKind.Ident})
    case Include(keyword, path) =>
      keyword.kind in {IncludeKw, RequireKw} && NoneIs(path, {Newline, SyntaxKind.Eof})
    case Export(keyword, gap, variable) =>
      keyword.kind == ExportKw && IsBlank(gap) && IsOptional(variable, SyntaxKind.Ident)
    case Function(keyword, gap, name, afterName, parameters, afterParameters, body) =>
      && keyword.kind in {PythonKw, DefKw} && IsBlank(gap) && IsOptional(name, SyntaxKind.Ident)
      && IsBlank(afterName) && AreParameters(parameters) && IsBlank(afterParameters) && IsBody(body)
      && (name == [] ==> afterName == []) && (parameters == [] ==> afterParameters == [])
      && (ParametersOpen(parameters) ==> afterParameters == [] && body == [])
  }

  /** What may come after a statement, so that nothing of it is taken for a part of the statement. */
  ghost predicate Follows(s: Statement, next: SyntaxKind) {
    match s
    case Assignment(_, _, _, _, _, _, value) =>
      next == SyntaxKind.Eof || (next == Newline && !EndsIn(value, Backslash))
    case Inherit(_, _) => next !in {Whitespace, SyntaxKind.Ident}
    case Include(_, _) => next in {Newline, SyntaxKind.Eof}
    case Export(_, _, variable) => variable == [] ==> next !in {Whitespace, SyntaxKind.Ident}
    case Function(_, _, name, _, parameters, _, body) =>
      && (body == [] ==>
            && next !in {Whitespace, LBrace}
            && (parameters == [] ==> next != LParen && (name == [] ==> next != SyntaxKind.Ident)))
      && (ParametersOpen(parameters) || BodyOpen(body) ==> next == SyntaxKind.Eof)
  }

  // ---- The nodes of a statement ----

  function AsLeaves(ts: seq<Token>): (r: seq<Node>)
    ensures |r| == |ts|
  {
    seq(|ts|, i requires 0 <= i < |ts| => LeafOf(ts[i]))
  }

  function NodeKind(s: Statement): SyntaxKind {
    match s
    case Assignment(_, _, _, _, _, _, _) => VariableAssignment
    case Inherit(_, _) => InheritStmt
    case Include(keyword, _) => if keyword.kind == RequireKw then RequireStmt else IncludeStmt
    case Export(_, _, _) => ExportStmt
    case Function(_, _, _, _, _, _, _) => ShellFunction
  }

  /** One node for the statement: over its tokens, but for an assignment a node for the name and one
      for the value. */
  function NodeOf(s: Statement): Node {
    if s.Assignment? then
      Tree(VariableAssignment,
           [Tree(VariableName, AsLeaves(PrintName(s)))]
           + (AsLeaves(PrintOperator(s)) + [Tree(VariableValue, AsLeaves(s.value))]))
    else Tree(NodeKind(s), AsLeaves(Print(s)))
  }

  // ---- Tokens in their place ----

  /** From `at` to e the tokens are those of the part. */
  ghost predicate Sits(tokens: seq<Token>, at: nat, part: seq<Token>, e: nat) {
    at + |part| == e <= |tokens| && tokens[at..e] == part
  }

  lemma SitsApart(tokens: seq<Token>, at: nat, a: seq<Token>, b: seq<Token>, mid: nat, e: nat)
    requires Sits(tokens, at, a + b, e) && mid == at + |a|
    ensures Sits(tokens, at, a, mid) && Sits(tokens, mid, b, e)
  {
    assert tokens[at..mid] == tokens[at..e][..|a|] && tokens[mid..e] == tokens[at..e][|a|..];
  }

  lemma SitsTogether(tokens: seq<Token>, at: nat, a: seq<Token>, mid: nat, b: seq<Token>, e: nat)
    requires Sits(tokens, at, a, mid) && Sits(tokens, mid, b, e)
    ensures Sits(tokens, at, a + b, e)
  {
    assert tokens[at..e] == tokens[at..mid] + tokens[mid..e];
  }

  /** The first token of a part, and the rest of it. */
  lemma SitsFirst(tokens: seq<Token>, at: nat, part: seq<Token>, next: nat, e: nat)
    requires Sits(tokens, at, part, e) && part != [] && next == at + 1
    ensures tokens[at] == part[0] && KindAt(tokens, at) == part[0].kind && Sits(tokens, next, part[1..], e)
  {
    assert part == [part[0]] + part[1..];
    SitsApart(tokens, at, [part[0]], part[1..], next, e);
    assert tokens[at..next][0] == tokens[at];
  }

  lemma FirstSits(tokens: seq<Token>, at: nat, part: seq<Token>, e: nat)
    requires Sits(tokens, at, part, e)
    ensures KindAt(tokens, at) == First(part, KindAt(tokens, e))
  {
    if part != [] {
      SitsFirst(tokens, at, part, at + 1, e);
    }
  }

  lemma RangeSits(tokens: seq<Token>, at: nat, part: seq<Token>, e: nat)
    requires Sits(tokens, at, part, e)
    ensures LeafRange(tokens, at, e) == AsLeaves(part)
  {
    assert forall i :: 0 <= i < |part| ==> part[i] == tokens[at..e][i] == tokens[at + i];
  }

  // ---- Where the runs end ----

  lemma {:induction false} BlankSits(tokens: seq<Token>, at: nat, gap: seq<Token>, e: nat)
    requires Sits(tokens, at, gap, e) && IsBlank(gap) && KindAt(tokens, e) != Whitespace
    ensures BlankEnd(tokens, at) == e
    decreases |gap|
  {
    if gap != [] {
      SitsFirst(tokens, at, gap, at + 1, e);
      BlankSits(tokens, at + 1, gap[1..], e);
    }
  }

  lemma {:induction false} TriviaSits(tokens: seq<Token>, at: nat, trivia: seq<Token>, e: nat)
    requires Sits(tokens, at, trivia, e) && AllAre(trivia, {Whitespace, SyntaxKind.Comment, Newline})
    requires !KindAt(tokens, e).IsTrivia()
    ensures TriviaEnd(tokens, at) == e
    decreases |trivia|
  {
    if trivia != [] {
      SitsFirst(tokens, at, trivia, at + 1, e);
      TriviaSits(tokens, at + 1, trivia[1..], e);
    }
  }

  lemma {:induction false} LineSits(tokens: seq<Token>, at: nat, path: seq<Token>, e: nat)
    requires Sits(tokens, at, path, e) && NoneIs(path, {Newline, SyntaxKind.Eof})
    requires KindAt(tokens, e) in {Newline, SyntaxKind.Eof}
    ensures LineEnd(tokens, at) == e
    decreases |path|
  {
    if path != [] {
      SitsFirst(tokens, at, path, at + 1, e);
      LineSits(tokens, at + 1, path[1..], e);
    }
  }

  lemma {:induction false} ClassesSit(tokens: seq<Token>, at: nat, classes: seq<Token>, e: nat)
    requires Sits(tokens, at, classes, e) && AllAre(classes, {Whitespace, SyntaxKind.Ident})
    requires KindAt(tokens, e) !in {Whitespace, SyntaxKind.Ident}
    ensures ClassesEnd(tokens, BlankEnd(tokens, at)) == e
    decreases |classes|
  {
    if classes != [] {
      SitsFirst(tokens, at, classes, at + 1, e);
      ClassesSit(tokens, at + 1, classes[1..], e);
    }
  }

  lemma OverridesTail(ts: seq<Token>)
    requires AreOverrides(ts) && ts != []
    ensures IsOverrideMark(ts[0].kind)
    ensures |ts| > 1 && ts[1].kind == SyntaxKind.Ident ==> AreOverrides(ts[2..])
    ensures |ts| == 1 || ts[1].kind != SyntaxKind.Ident ==> AreOverrides(ts[1..])
  {
  }

  lemma {:induction false} OverridesSit(tokens: seq<Token>, at: nat, overrides: seq<Token>, e: nat)
    requires Sits(tokens, at, overrides, e) && AreOverrides(overrides)
    requires !IsOverrideMark(KindAt(tokens, e)) && KindAt(tokens, e) != SyntaxKind.Ident
    ensures OverridesEnd(tokens, at) == e
    decreases |overrides|
  {
    KindsAreAsListed(KindAt(tokens, at));
    if overrides != [] {
      OverridesTail(overrides);
      SitsFirst(tokens, at, overrides, at + 1, e);
      FirstSits(tokens, at + 1, overrides[1..], e);
      if |overrides| > 1 && overrides[1].kind == SyntaxKind.Ident {
        SitsFirst(tokens, at + 1, overrides[1..], at + 2, e);
        assert overrides[1..][1..] == overrides[2..];
        OverridesSit(tokens, at + 2, overrides[2..], e);
      } else {
        OverridesSit(tokens, at + 1, overrides[1..], e);
      }
    }
  }

  lemma FlagSits(tokens: seq<Token>, at: nat, flag: seq<Token>, e: nat)
    requires Sits(tokens, at, flag, e) && IsFlag(flag) && KindAt(tokens, e) != LBracket
    ensures FlagEnd(tokens, at) == e && FlagErrors(tokens, at) == []
  {
    if flag != [] {
      SitsFirst(tokens, at, flag, at + 1, e);
      SitsFirst(tokens, at + 1, flag[1..], at + 2, e);
      if |flag| == 3 {
        SitsFirst(tokens, at + 2, flag[1..][1..], at + 3, e);
      }
    }
  }

  lemma ValueTail(ts: seq<Token>)
    requires IsValue(ts) && ts != []
    ensures ts[0].kind != Newline && ts[0].kind != SyntaxKind.Eof
    ensures ts[0].kind == Backslash && |ts| > 1 && ts[1].kind == Newline ==> IsValue(ts[2..])
    ensures ts[0].kind != Backslash || |ts| == 1 || ts[1].kind != Newline ==> IsValue(ts[1..])
    ensures EndsIn(ts[1..], Backslash) ==> EndsIn(ts, Backslash)
    ensures |ts| > 1 && EndsIn(ts[2..], Backslash) ==> EndsIn(ts, Backslash)
  {
    EndsFrom(ts, 1);
    if |ts| > 1 {
      EndsFrom(ts, 2);
    }
    if ts[0].kind != Backslash || |ts| == 1 || ts[1].kind != Newline {
      ValueFrom(ts, 1);
    } else {
      ValueFrom(ts, 2);
    }
  }

  lemma EndsFrom(ts: seq<Token>, k: nat)
    requires k <= |ts|
    ensures EndsIn(ts[k..], Backslash) ==> EndsIn(ts, Backslash)
  {
    if k < |ts| {
      assert ts[k..][|ts| - k - 1] == ts[|ts| - 1];
    }
  }

  lemma ValueFrom(ts: seq<Token>, k: nat)
    requires IsValue(ts) && k <= |ts| && (k < |ts| ==> ts[k].kind != Newline)
    ensures IsValue(ts[k..])
  {
    forall i | 0 < i < |ts| - k && ts[k..][i].kind == Newline ensures ts[k..][i - 1].kind == Backslash {
      assert ts[k..][i] == ts[k + i] && ts[k..][i - 1] == ts[k + i - 1];
    }
  }

  lemma {:induction false} ValueSits(tokens: seq<Token>, at: nat, value: seq<Token>, e: nat)
    requires Sits(tokens, at, value, e) && IsValue(value)
    requires KindAt(tokens, e) == SyntaxKind.Eof || (KindAt(tokens, e) == Newline && !EndsIn(value, Backslash))
    ensures ValueEnd(tokens, at) == e
    decreases |value|
  {
    if value != [] {
      ValueTail(value);
      SitsFirst(tokens, at, value, at + 1, e);
      FirstSits(tokens, at + 1, value[1..], e);
      if value[0].kind == Backslash && |value| > 1 && value[1].kind == Newline {
        SitsFirst(tokens, at + 1, value[1..], at + 2, e);
        assert value[1..][1..] == value[2..];
        ValueSits(tokens, at + 2, value[2..], e);
      } else {
        ValueSits(tokens, at + 1, value[1..], e);
      }
    }
  }

  lemma OptionalSits(tokens: seq<Token>, at: nat, part: seq<Token>, kind: SyntaxKind, e: nat)
    requires Sits(tokens, at, part, e) && IsOptional(part, kind) && kind != SyntaxKind.Eof
    requires part == [] ==> KindAt(tokens, e) != kind
    ensures OptionalEnd(tokens, at, kind) == e
  {
    if part != [] {
      SitsFirst(tokens, at, part, at + 1, e);
    }
  }

  lemma {:induction false} ParenSits(tokens: seq<Token>, at: nat, inside: seq<Token>, e: nat)
    requires Sits(tokens, at, inside, e) && NoneIs(inside, {RParen, SyntaxKind.Eof})
    requires KindAt(tokens, e) in {RParen, SyntaxKind.Eof}
    ensures ParenEnd(tokens, at) == e
    decreases |inside|
  {
    if inside != [] {
      SitsFirst(tokens, at, inside, at + 1, e);
      ParenSits(tokens, at + 1, inside[1..], e);
    }
  }

  lemma InsideParameters(ts: seq<Token>)
    requires AreParameters(ts) && ts != []
    ensures ParametersOpen(ts) ==> NoneIs(ts[1..], {RParen, SyntaxKind.Eof})
    ensures !ParametersOpen(ts) ==> |ts| > 1 && ts[1..] == ts[1..|ts| - 1] + [ts[|ts| - 1]]
                                    && NoneIs(ts[1..|ts| - 1], {RParen, SyntaxKind.Eof})
  {
    forall i | 0 <= i < |ts| - 2 ensures ts[1..][i].kind !in {RParen, SyntaxKind.Eof} {
      assert ts[1..][i] == ts[i + 1] == ts[..|ts| - 1][i + 1];
    }
  }

  lemma ParametersSit(tokens: seq<Token>, at: nat, parameters: seq<Token>, e: nat)
    requires Sits(tokens, at, parameters, e) && AreParameters(parameters)
    requires parameters == [] ==> KindAt(tokens, e) != LParen
    requires ParametersOpen(parameters) ==> KindAt(tokens, e) == SyntaxKind.Eof
    ensures ParametersEnd(tokens, at) == e
  {
    if parameters != [] {
      SitsFirst(tokens, at, parameters, at + 1, e);
      InsideParameters(parameters);
      if ParametersOpen(parameters) {
        ParenSits(tokens, at + 1, parameters[1..], e);
      } else {
        var n := |parameters|;
        SitsApart(tokens, at + 1, parameters[1..n - 1], [parameters[n - 1]], e - 1, e);
        SitsFirst(tokens, e - 1, [parameters[n - 1]], e, e);
        ParenSits(tokens, at + 1, parameters[1..n - 1], e - 1);
      }
    }
  }

  /** From a position inside a body on, with as many open braces as there are. */
  lemma {:induction false} BracesSit(tokens: seq<Token>, at: nat, body: seq<Token>, n: nat, e: nat)
    requires IsBody(body) && 0 < n <= |body| && Sits(tokens, at, body[n..], e)
    requires Depth(body, n) >= 0 && (BodyOpen(body) ==> KindAt(tokens, e) == SyntaxKind.Eof)
    ensures BracesEnd(tokens, at, Depth(body, n)) == e
    decreases |body| - n
  {
    if n < |body| {
      SitsFirst(tokens, at, body[n..], at + 1, e);
      BodyStep(body, n, n + 1);
      BracesSit(tokens, at + 1, body, n + 1, e);
      assert BracesEnd(tokens, at, Depth(body, n)) == BracesEnd(tokens, at + 1, Depth(body, n + 1));
    }
  }

  lemma BodyStep(body: seq<Token>, n: nat, next: nat)
    requires IsBody(body) && 0 < n < |body| && next == n + 1
    ensures body[n..][0] == body[n] && body[n..][1..] == body[next..]
    ensures Depth(body, n) > 0 && Depth(body, next) >= 0 && body[n].kind != SyntaxKind.Eof
    ensures Depth(body, next) == if body[n].kind == LBrace then Depth(body, n) + 1
                                 else if body[n].kind == RBrace then Depth(body, n) - 1 else Depth(body, n)
  {
  }

  lemma BodySits(tokens: seq<Token>, at: nat, body: seq<Token>, e: nat)
    requires Sits(tokens, at, body, e) && IsBody(body) && (body == [] ==> KindAt(tokens, e) != LBrace)
    requires BodyOpen(body) ==> KindAt(tokens, e) == SyntaxKind.Eof
    ensures BodyEnd(tokens, at) == e
  {
    if body != [] {
      SitsFirst(tokens, at, body, at + 1, e);
      assert Depth(body, 1) == 1;
      BracesSit(tokens, at + 1, body, 1, e);
    }
  }
  // ---- The lookahead ----

  ghost predicate AllSkipped(ts: seq<Token>) {
    forall i :: 0 <= i < |ts| ==> SkippedAhead(ts[i].kind)
  }

  lemma {:induction false} AheadOver(tokens: seq<Token>, at: nat, part: seq<Token>, e: nat)
    requires Sits(tokens, at, part, e) && AllSkipped(part)
    ensures AssignmentAhead(tokens, at) == AssignmentAhead(tokens, e)
    decreases |part|
  {
    if part != [] {
      SitsFirst(tokens, at, part, at + 1, e);
      AheadOver(tokens, at + 1, part[1..], e);
    }
  }

  lemma AheadOverFlag(tokens: seq<Token>, at: nat, flag: seq<Token>, e: nat)
    requires Sits(tokens, at, flag, e) && IsFlag(flag)
    ensures AssignmentAhead(tokens, at) == AssignmentAhead(tokens, e)
  {
    if flag != [] {
      SitsFirst(tokens, at, flag, at + 1, e);
      SitsFirst(tokens, at + 1, flag[1..], at + 2, e);
      if |flag| == 3 {
        SitsFirst(tokens, at + 2, flag[1..][1..], at + 3, e);
        assert AfterBracket(tokens, at + 1) == AfterBracket(tokens, at + 2) == at + 3;
      } else {
        assert AfterBracket(tokens, at + 1) == at + 2;
      }
    }
  }

  // ---- A statement is read as it was written ----

  /** The positions in an assignment: behind the name, its overrides and its flag, before and behind
      the operator, before the value and behind it. */
  datatype Places = Places(named: nat, overridden: nat, flagged: nat, operator: nat, past: nat, value: nat, end: nat)

  ghost predicate SitsAt(tokens: seq<Token>, at: nat, s: Statement, p: Places)
    requires s.Assignment?
  {
    && Sits(tokens, at, [s.name], p.named) && Sits(tokens, p.named, s.overrides, p.overridden)
    && Sits(tokens, p.overridden, s.flag, p.flagged) && Sits(tokens, p.flagged, s.gap, p.operator)
    && Sits(tokens, p.operator, [s.operator], p.past) && Sits(tokens, p.past, s.space, p.value)
    && Sits(tokens, p.value, s.value, p.end)
  }

  lemma AssignmentSits(tokens: seq<Token>, at: nat, s: Statement, e: nat) returns (p: Places)
    requires s.Assignment? && Sits(tokens, at, Print(s), e)
    ensures SitsAt(tokens, at, s, p) && p.end == e
    ensures Sits(tokens, at, PrintName(s), p.flagged) && Sits(tokens, p.flagged, PrintOperator(s), p.value)
  {
    var named, overridden := at + 1, at + 1 + |s.overrides|;
    var flagged := overridden + |s.flag|;
    var operator := flagged + |s.gap|;
    var past, value := operator + 1, operator + 1 + |s.space|;
    p := Places(named, overridden, flagged, operator, past, value, e);
    SitsApart(tokens, at, PrintName(s), PrintOperator(s) + s.value, flagged, e);
    SitsApart(tokens, at, [s.name], s.overrides + s.flag, named, flagged);
    SitsApart(tokens, named, s.overrides, s.flag, overridden, flagged);
    SitsApart(tokens, flagged, PrintOperator(s), s.value, value, e);
    SitsApart(tokens, flagged, s.gap, [s.operator] + s.space, operator, value);
    SitsApart(tokens, operator, [s.operator], s.space, past, value);
  }

  /** The kinds of the tokens at those places. */
  lemma KindsAtPlaces(tokens: seq<Token>, at: nat, s: Statement, p: Places)
    requires s.Assignment? && Fits(s) && SitsAt(tokens, at, s, p)
    requires KindAt(tokens, p.end) in {Newline, SyntaxKind.Eof}
    ensures KindAt(tokens, at) == SyntaxKind.Ident && KindAt(tokens, p.operator) == s.operator.kind
    ensures IsOperator(KindAt(tokens, p.operator)) && KindAt(tokens, p.value) != Whitespace
    ensures p.named == at + 1 && p.past == p.operator + 1
    ensures KindAt(tokens, p.flagged) == Whitespace || IsOperator(KindAt(tokens, p.flagged))
    ensures KindAt(tokens, p.overridden) in {LBracket, Whitespace} || IsOperator(KindAt(tokens, p.overridden))
  {
    SitsFirst(tokens, at, [s.name], p.named, p.named);
    SitsFirst(tokens, p.operator, [s.operator], p.past, p.past);
    FirstSits(tokens, p.value, s.value, p.end);
    FirstSits(tokens, p.flagged, s.gap, p.operator);
    FirstSits(tokens, p.overridden, s.flag, p.flagged);
  }

  lemma SkippedKinds(ts: seq<Token>)
    requires AreOverrides(ts) || IsBlank(ts)
    ensures AllSkipped(ts)
  {
    forall i | 0 <= i < |ts| ensures SkippedAhead(ts[i].kind) {
      KindsAreAsListed(ts[i].kind);
    }
  }

  lemma AssignmentIsAhead(tokens: seq<Token>, at: nat, s: Statement, p: Places)
    requires s.Assignment? && Fits(s) && SitsAt(tokens, at, s, p)
    requires KindAt(tokens, p.end) in {Newline, SyntaxKind.Eof}
    ensures AssignmentAhead(tokens, p.named)
  {
    KindsAtPlaces(tokens, at, s, p);
    KindsAreAsListed(KindAt(tokens, p.operator));
    SkippedKinds(s.overrides);
    SkippedKinds(s.gap);
    AheadOver(tokens, p.named, s.overrides, p.overridden);
    AheadOverFlag(tokens, p.overridden, s.flag, p.flagged);
    AheadOver(tokens, p.flagged, s.gap, p.operator);
  }

  lemma NameEndsAtPlaces(tokens: seq<Token>, at: nat, s: Statement, p: Places)
    requires s.Assignment? && Fits(s) && SitsAt(tokens, at, s, p)
    requires KindAt(tokens, p.end) in {Newline, SyntaxKind.Eof}
    ensures OverridesEnd(tokens, p.named) == p.overridden
    ensures FlagEnd(tokens, p.overridden) == p.flagged && FlagErrors(tokens, p.overridden) == []
  {
    KindsAtPlaces(tokens, at, s, p);
    OverridesSit(tokens, p.named, s.overrides, p.overridden);
    FlagSits(tokens, p.overridden, s.flag, p.flagged);
  }

  lemma ValueEndsAtPlaces(tokens: seq<Token>, at: nat, s: Statement, p: Places)
    requires s.Assignment? && Fits(s) && SitsAt(tokens, at, s, p) && Follows(s, KindAt(tokens, p.end))
    ensures BlankEnd(tokens, p.flagged) == p.operator && BlankEnd(tokens, p.past) == p.value
    ensures ValueEnd(tokens, p.value) == p.end
  {
    KindsAtPlaces(tokens, at, s, p);
    BlankSits(tokens, p.flagged, s.gap, p.operator);
    BlankSits(tokens, p.past, s.space, p.value);
    ValueSits(tokens, p.value, s.value, p.end);
  }

  lemma AssignmentIsRead(tokens: seq<Token>, at: nat, s: Statement, e: nat)
    requires s.Assignment? && Fits(s) && Sits(tokens, at, Print(s), e) && Follows(s, KindAt(tokens, e))
    ensures StatementAt(tokens, at) == Parsed(true, [NodeOf(s)], [], e)
  {
    var p := AssignmentSits(tokens, at, s, e);
    KindsAtPlaces(tokens, at, s, p);
    KindsAreAsListed(KindAt(tokens, p.operator));
    AssignmentIsAhead(tokens, at, s, p);
    NameEndsAtPlaces(tokens, at, s, p);
    ValueEndsAtPlaces(tokens, at, s, p);
    RangeSits(tokens, at, PrintName(s), p.flagged);
    RangeSits(tokens, p.flagged, PrintOperator(s), p.value);
    RangeSits(tokens, p.value, s.value, e);
    AssignmentIs(tokens, at, p.named, p.overridden, p.flagged, p.operator, p.past);
    AheadMeansAssignment(tokens, at, p.named);
  }

  lemma AheadMeansAssignment(tokens: seq<Token>, at: nat, next: nat)
    requires KindAt(tokens, at) == SyntaxKind.Ident && next == at + 1 && AssignmentAhead(tokens, next)
    ensures StatementAt(tokens, at) == AssignmentAt(tokens, at)
  {
  }

  lemma FunctionIsRead(tokens: seq<Token>, at: nat, s: Statement, e: nat)
    requires s.Function? && Fits(s) && Sits(tokens, at, Print(s), e) && Follows(s, KindAt(tokens, e))
    ensures StatementAt(tokens, at) == Parsed(true, [NodeOf(s)], [], e)
  {
    var next, name := at + 1, at + 1 + |s.gap|;
    var named := name + |s.function'|;
    SitsFirst(tokens, at, Print(s), next, e);
    assert Print(s)[1..] == s.gap + (s.function' + PrintSignature(s));
    SitsApart(tokens, next, s.gap, s.function' + PrintSignature(s), name, e);
    SitsApart(tokens, name, s.function', PrintSignature(s), named, e);
    FunctionNameSits(tokens, s, next, name, named, e);
    SignatureSits(tokens, s, named, e);
    RangeSits(tokens, at, Print(s), e);
    assert FunctionEnd(tokens, at) == AfterKeywordEnd(tokens, next) == e;
  }

  lemma SignatureStarts(s: Statement, next: SyntaxKind)
    requires s.Function? && Fits(s) && Follows(s, next) && s.function' == []
    ensures First(PrintSignature(s), next) !in {Whitespace, SyntaxKind.Ident}
  {
    assert PrintSignature(s) == s.parameters + (s.afterParameters + s.body);
  }

  lemma FunctionNameSits(tokens: seq<Token>, s: Statement, at: nat, name: nat, named: nat, e: nat)
    requires s.Function? && Fits(s) && Follows(s, KindAt(tokens, e))
    requires Sits(tokens, at, s.gap, name) && Sits(tokens, name, s.function', named) && Sits(tokens, named, PrintSignature(s), e)
    ensures FunctionNameEnd(tokens, at) == named
  {
    FirstSits(tokens, named, PrintSignature(s), e);
    if s.function' == [] {
      SignatureStarts(s, KindAt(tokens, e));
    }
    FirstSits(tokens, name, s.function', named);
    BlankSits(tokens, at, s.gap, name);
    OptionalSits(tokens, name, s.function', SyntaxKind.Ident, named);
  }

  lemma SignatureSits(tokens: seq<Token>, s: Statement, at: nat, e: nat)
    requires s.Function? && Fits(s) && Follows(s, KindAt(tokens, e)) && Sits(tokens, at, PrintSignature(s), e)
    ensures SignatureAndBodyEnd(tokens, at) == e
  {
    var open, closed := at + |s.afterName|, at + |s.afterName| + |s.parameters|;
    var body := closed + |s.afterParameters|;
    SitsApart(tokens, at, s.afterName, s.parameters + (s.afterParameters + s.body), open, e);
    SitsApart(tokens, open, s.parameters, s.afterParameters + s.body, closed, e);
    SitsApart(tokens, closed, s.afterParameters, s.body, body, e);
    FirstSits(tokens, body, s.body, e);
    FirstSits(tokens, closed, s.afterParameters, body);
    FirstSits(tokens, open, s.parameters, closed);
    BlankSits(tokens, at, s.afterName, open);
    ParametersSit(tokens, open, s.parameters, closed);
    BlankSits(tokens, closed, s.afterParameters, body);
    BodySits(tokens, body, s.body, e);
  }

  lemma InheritIsRead(tokens: seq<Token>, at: nat, next: nat, s: Statement, e: nat)
    requires s.Inherit? && next == at + 1
    requires Fits(s) && Sits(tokens, at, Print(s), e) && Follows(s, KindAt(tokens, e))
    ensures StatementAt(tokens, at) == Parsed(true, [NodeOf(s)], [], e)
  {
    SitsFirst(tokens, at, Print(s), next, e);
    RangeSits(tokens, at, Print(s), e);
    assert Print(s)[1..] == s.classes;
    ClassesSit(tokens, next, s.classes, e);
    assert InheritEnd(tokens, at) == e;
  }

  lemma IncludeIsRead(tokens: seq<Token>, at: nat, next: nat, s: Statement, e: nat)
    requires s.Include? && next == at + 1
    requires Fits(s) && Sits(tokens, at, Print(s), e) && Follows(s, KindAt(tokens, e))
    ensures StatementAt(tokens, at) == Parsed(true, [NodeOf(s)], [], e)
  {
    SitsFirst(tokens, at, Print(s), next, e);
    RangeSits(tokens, at, Print(s), e);
    assert Print(s)[1..] == s.path;
    LineSits(tokens, next, s.path, e);
    assert PathEnd(tokens, at) == e;
  }

  lemma ExportIsRead(tokens: seq<Token>, at: nat, next: nat, s: Statement, variable: nat, e: nat)
    requires s.Export? && next == at + 1 && variable == next + |s.gap|
    requires Fits(s) && Sits(tokens, at, Print(s), e) && Follows(s, KindAt(tokens, e))
    ensures StatementAt(tokens, at) == Parsed(true, [NodeOf(s)], [], e)
  {
    SitsFirst(tokens, at, Print(s), next, e);
    RangeSits(tokens, at, Print(s), e);
    assert Print(s)[1..] == s.gap + s.variable;
    SitsApart(tokens, next, s.gap, s.variable, variable, e);
    FirstSits(tokens, variable, s.variable, e);
    BlankSits(tokens, next, s.gap, variable);
    OptionalSits(tokens, variable, s.variable, SyntaxKind.Ident, e);
    assert ExportEnd(tokens, at) == e;
  }

  /** A statement that is written and followed by something else is read as its node, without error. */
  lemma StatementIsRead(tokens: seq<Token>, at: nat, s: Statement, e: nat)
    requires Fits(s) && Sits(tokens, at, Print(s), e) && Follows(s, KindAt(tokens, e))
    ensures StatementAt(tokens, at) == Parsed(true, [NodeOf(s)], [], e)
  {
    if s.Assignment? {
      AssignmentIsRead(tokens, at, s, e);
    } else if s.Function? {
      FunctionIsRead(tokens, at, s, e);
    } else if s.Inherit? {
      InheritIsRead(tokens, at, at + 1, s, e);
    } else if s.Include? {
      IncludeIsRead(tokens, at, at + 1, s, e);
    } else {
      ExportIsRead(tokens, at, at + 1, s, at + 1 + |s.gap|, e);
    }
  }

  // ---- Scripts ----

  /** A statement after whitespace, comments and newlines. */
  datatype Part = Part(trivia: seq<Token>, statement: Statement)

  /** Statements, and what comes after the last one. */
  function PrintScript(parts: seq<Part>, trailing: seq<Token>): seq<Token> {
    if parts == [] then trailing
    else parts[0].trivia + (Print(parts[0].statement) + PrintScript(parts[1..], trailing))
  }

  ghost predicate IsTriviaRun(ts: seq<Token>) {
    AllAre(ts, {Whitespace, SyntaxKind.Comment, Newline})
  }

  /** Every statement fits, and is followed by what may follow it; `next` comes after the script. */
  ghost predicate FitsScript(parts: seq<Part>, trailing: seq<Token>, next: SyntaxKind) {
    if parts == [] then IsTriviaRun(trailing)
    else
      && IsTriviaRun(parts[0].trivia) && Fits(parts[0].statement)
      && Follows(parts[0].statement, First(PrintScript(parts[1..], trailing), next))
      && FitsScript(parts[1..], trailing, next)
  }

  /** One node for every statement, in order, between the leaves of the trivia. */
  function ChildrenOf(parts: seq<Part>, trailing: seq<Token>): seq<Node> {
    if parts == [] then AsLeaves(trailing)
    else AsLeaves(parts[0].trivia) + ([NodeOf(parts[0].statement)] + ChildrenOf(parts[1..], trailing))
  }

  lemma StatementStarts(s: Statement, next: SyntaxKind)
    requires Fits(s)
    ensures var first := First(Print(s), next);
            first != SyntaxKind.Eof && !first.IsTrivia()
    ensures Print(s) != []
  {
  }

  lemma ItemIsRead(tokens: seq<Token>, at: nat, trivia: seq<Token>, start: nat, s: Statement, e: nat)
    requires Sits(tokens, at, trivia, start) && IsTriviaRun(trivia)
    requires Sits(tokens, start, Print(s), e) && Fits(s) && Follows(s, KindAt(tokens, e))
    ensures ItemAt(tokens, at) == Parsed(true, AsLeaves(trivia) + [NodeOf(s)], [], e)
    ensures KindAt(tokens, TriviaEnd(tokens, at)) != SyntaxKind.Eof && at < e
  {
    StatementStarts(s, KindAt(tokens, e));
    FirstSits(tokens, start, Print(s), e);
    TriviaSits(tokens, at, trivia, start);
    RangeSits(tokens, at, trivia, start);
    StatementIsRead(tokens, start, s, e);
  }

  lemma ChildrenStep(parts: seq<Part>, trailing: seq<Token>, trivia: seq<Token>, s: Statement)
    requires parts != [] && parts[0] == Part(trivia, s)
    ensures (AsLeaves(trivia) + [NodeOf(s)]) + ChildrenOf(parts[1..], trailing) == ChildrenOf(parts, trailing)
  {
  }

  /** Parsing undoes writing: a script is read without errors, and as exactly the nodes of its
      statements, in order. */
  lemma {:induction false} ScriptIsRead(tokens: seq<Token>, at: nat, parts: seq<Part>, trailing: seq<Token>, e: nat)
    requires FitsScript(parts, trailing, SyntaxKind.Eof) && Sits(tokens, at, PrintScript(parts, trailing), e)
    requires KindAt(tokens, e) == SyntaxKind.Eof
    ensures ParseFrom(tokens, at) == Parsed(true, ChildrenOf(parts, trailing), [], e)
    decreases |parts|
  {
    if parts == [] {
      TriviaSits(tokens, at, trailing, e);
      RangeSits(tokens, at, trailing, e);
    } else {
      var trivia, s, rest := parts[0].trivia, parts[0].statement, PrintScript(parts[1..], trailing);
      var start, end := at + |trivia|, at + |trivia| + |Print(s)|;
      SitsApart(tokens, at, trivia, Print(s) + rest, start, e);
      SitsApart(tokens, start, Print(s), rest, end, e);
      FirstSits(tokens, end, rest, e);
      ItemIsRead(tokens, at, trivia, start, s, end);
      ScriptIsRead(tokens, end, parts[1..], trailing, e);
      ParseStep(tokens, at, ItemAt(tokens, at), ParseFrom(tokens, end));
      ChildrenStep(parts, trailing, trivia, s);
    }
  }
  // ---- After an error ----

  /** p with these nodes and errors before it. */
  ghost predicate GoesOnWith(whole: Parsed, nodes: seq<Node>, errors: seq<ParseError>, p: Parsed) {
    whole.nodes == nodes + p.nodes && whole.errors == errors + p.errors && whole.end == p.end
  }

  /** The statements before a position are read whatever comes after them. */
  lemma {:induction false} StatementsAreRead(tokens: seq<Token>, at: nat, parts: seq<Part>, e: nat)
    requires FitsScript(parts, [], KindAt(tokens, e)) && Sits(tokens, at, PrintScript(parts, []), e)
    ensures GoesOnWith(ParseFrom(tokens, at), ChildrenOf(parts, []), [], ParseFrom(tokens, e))
    decreases |parts|
  {
    if parts == [] {
      NothingBefore(ParseFrom(tokens, e));
    } else {
      var trivia, s, more := parts[0].trivia, parts[0].statement, PrintScript(parts[1..], []);
      var start, end := at + |trivia|, at + |trivia| + |Print(s)|;
      SitsApart(tokens, at, trivia, Print(s) + more, start, e);
      SitsApart(tokens, start, Print(s), more, end, e);
      FirstSits(tokens, end, more, e);
      ItemIsRead(tokens, at, trivia, start, s, end);
      StatementsAreRead(tokens, end, parts[1..], e);
      ChildrenStep(parts, [], trivia, s);
      ItemThenStatements(tokens, at, AsLeaves(trivia) + [NodeOf(s)], end, ChildrenOf(parts[1..], []),
                         ChildrenOf(parts, []), ParseFrom(tokens, e));
    }
  }

  lemma NothingBefore(p: Parsed)
    ensures GoesOnWith(p, AsLeaves([]), [], p)
  {
    assert AsLeaves([]) == [] && [] + p.nodes == p.nodes && [] + p.errors == p.errors;
  }

  lemma ItemThenStatements(tokens: seq<Token>, at: nat, nodes: seq<Node>, end: nat, more: seq<Node>, all: seq<Node>, p: Parsed)
    requires at <= |tokens| && KindAt(tokens, TriviaEnd(tokens, at)) != SyntaxKind.Eof && end <= |tokens|
    requires ItemAt(tokens, at) == Parsed(true, nodes, [], end)
    requires GoesOnWith(ParseFrom(tokens, end), more, [], p) && all == nodes + more
    ensures GoesOnWith(ParseFrom(tokens, at), all, [], p)
  {
    ParseStep(tokens, at, ItemAt(tokens, at), ParseFrom(tokens, end));
    Prepend(ParseFrom(tokens, at), nodes, ParseFrom(tokens, end), more, all, p);
  }

  lemma Prepend(whole: Parsed, nodes: seq<Node>, rest: Parsed, more: seq<Node>, all: seq<Node>, p: Parsed)
    requires whole.nodes == nodes + rest.nodes && whole.errors == [] + rest.errors && whole.end == rest.end
    requires GoesOnWith(rest, more, [], p) && all == nodes + more
    ensures GoesOnWith(whole, all, [], p)
  {
    assert nodes + (more + p.nodes) == all + p.nodes;
    assert [] + ([] + p.errors) == [] + p.errors;
  }

  /** A line that begins with something that no statement begins with: it goes up to its newline, or up
      to a keyword that begins a statement. */
  ghost predicate IsJunk(ts: seq<Token>, next: SyntaxKind) {
    && ts != []
    && ts[0].kind !in {PythonKw, DefKw, SyntaxKind.Ident, Whitespace, SyntaxKind.Comment, Newline}
    && NoneIs(ts, {SyntaxKind.Eof, InheritKw, IncludeKw, RequireKw, ExportKw})
    && NoneIs(ts[..|ts| - 1], {Newline})
    && (EndsIn(ts, Newline) || next in {SyntaxKind.Eof, InheritKw, IncludeKw, RequireKw, ExportKw})
  }

  lemma {:induction false} RecoverySits(tokens: seq<Token>, at: nat, junk: seq<Token>, e: nat)
    requires Sits(tokens, at, junk, e) && junk != []
    requires NoneIs(junk, {SyntaxKind.Eof, InheritKw, IncludeKw, RequireKw, ExportKw})
    requires NoneIs(junk[..|junk| - 1], {Newline})
    requires EndsIn(junk, Newline) || KindAt(tokens, e) in {SyntaxKind.Eof, InheritKw, IncludeKw, RequireKw, ExportKw}
    ensures RecoveryEnd(tokens, at) == e
    decreases |junk|
  {
    SitsFirst(tokens, at, junk, at + 1, e);
    if |junk| > 1 {
      var tail := junk[1..];
      assert junk[..|junk| - 1][0] == junk[0];
      assert tail[..|tail| - 1] == junk[..|junk| - 1][1..] && tail[|tail| - 1] == junk[|junk| - 1];
      RecoverySits(tokens, at + 1, tail, e);
    }
  }

  /** Such a line is one error and one error node, and what comes after it is read as if it were not there. */
  lemma RecoveryGoesOn(tokens: seq<Token>, at: nat, trivia: seq<Token>, start: nat, junk: seq<Token>, e: nat)
    requires Sits(tokens, at, trivia, start) && IsTriviaRun(trivia)
    requires Sits(tokens, start, junk, e) && IsJunk(junk, KindAt(tokens, e))
    ensures GoesOnWith(ParseFrom(tokens, at), AsLeaves(trivia) + [Tree(SyntaxKind.Error, AsLeaves(junk))],
                       [ErrorAt(tokens, start, UnexpectedToken(Some(junk[0])))], ParseFrom(tokens, e))
  {
    FirstSits(tokens, start, junk, e);
    SitsFirst(tokens, start, junk, start + 1, e);
    TriviaSits(tokens, at, trivia, start);
    RangeSits(tokens, at, trivia, start);
    RecoverySits(tokens, start, junk, e);
    RangeSits(tokens, start, junk, e);
    JunkItem(tokens, at, start, e);
    ParseStep(tokens, at, ItemAt(tokens, at), ParseFrom(tokens, e));
  }

  lemma JunkItem(tokens: seq<Token>, at: nat, start: nat, e: nat)
    requires at <= start < e <= |tokens| && start == TriviaEnd(tokens, at) && e == RecoveryEnd(tokens, start)
    requires StatementAt(tokens, start) == Parsed(false, [], [], start) && KindAt(tokens, start) != SyntaxKind.Eof
    ensures ItemAt(tokens, at)
            == Parsed(false, LeafRange(tokens, at, start) + [Tree(SyntaxKind.Error, LeafRange(tokens, start, e))],
                      [ErrorAt(tokens, start, UnexpectedToken(Some(tokens[start])))], e)
  {
    var error := [Tree(SyntaxKind.Error, LeafRange(tokens, start, e))];
    assert [] + error == error;
  }
}
