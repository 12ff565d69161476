/** Whatever is parsed without errors is a script, and an assignment is recognised exactly by the
    operator that follows its name. */
module ScriptReading {
  import opened Wrappers
  import opened SyntaxTree
  import opened Grammar
  import opened GrammarTheorems
  import opened Scripts

  // ---- The lookahead ----

  /** A token that may stand between a name and an operator, or a flag in brackets. */
  ghost predicate IsPiece(tokens: seq<Token>, i: nat, j: nat) {
    && i < j <= |tokens|
    && (|| (j == i + 1 && tokens[i].kind in {Whitespace, SyntaxKind.Ident, Colon, ColonAppend, ColonPrepend, ColonRemove})
        || (&& i + 1 < j && tokens[i].kind == LBracket && tokens[j - 1].kind == RBracket
            && forall m :: i < m < j - 1 ==> tokens[m].kind != RBracket))
  }

  /** From cut to cut there is one piece. */
  ghost predicate ArePieces(tokens: seq<Token>, cuts: seq<nat>) {
    forall n :: 0 <= n < |cuts| - 1 ==> IsPiece(tokens, cuts[n], cuts[n + 1])
  }

  /** Pieces lead from `at` to an assignment operator. */
  ghost predicate LeadToOperator(tokens: seq<Token>, at: nat, cuts: seq<nat>) {
    && cuts != [] && cuts[0] == at && ArePieces(tokens, cuts)
    && cuts[|cuts| - 1] < |tokens| && IsOperator(tokens[cuts[|cuts| - 1]].kind)
  }

  ghost predicate OperatorFollows(tokens: seq<Token>, at: nat) {
    exists cuts :: LeadToOperator(tokens, at, cuts)
  }

  lemma {:induction false} BracketCloses(tokens: seq<Token>, at: nat, e: nat)
    requires at < e <= |tokens| && tokens[e - 1].kind == RBracket
    requires forall m :: at <= m < e - 1 ==> tokens[m].kind != RBracket
    ensures AfterBracket(tokens, at) == e
    decreases e - at
  {
    if tokens[at].kind != RBracket {
      BracketCloses(tokens, at + 1, e);
    }
  }

  lemma {:induction false} BracketClosed(tokens: seq<Token>, at: nat)
    requires at <= |tokens|
    ensures var e := AfterBracket(tokens, at);
            (exists m :: at <= m < e && tokens[m].kind == RBracket) ==>
              at < e && tokens[e - 1].kind == RBracket && forall m :: at <= m < e - 1 ==> tokens[m].kind != RBracket
    ensures AfterBracket(tokens, at) < |tokens| ==>
              exists m :: at <= m < AfterBracket(tokens, at) && tokens[m].kind == RBracket
    decreases |tokens| - at
  {
    if at < |tokens| && tokens[at].kind != RBracket {
      BracketClosed(tokens, at + 1);
    }
  }

  lemma MorePieces(tokens: seq<Token>, at: nat, next: nat, cuts: seq<nat>)
    requires IsPiece(tokens, at, next) && LeadToOperator(tokens, next, cuts)
    ensures LeadToOperator(tokens, at, [at] + cuts)
  {
    var all := [at] + cuts;
    forall n | 0 <= n < |all| - 1 ensures IsPiece(tokens, all[n], all[n + 1]) {
      assert n > 0 ==> all[n] == cuts[n - 1] && all[n + 1] == cuts[n];
    }
    assert all[|all| - 1] == cuts[|cuts| - 1];
  }

  lemma {:induction false} AheadFindsOperator(tokens: seq<Token>, at: nat) returns (cuts: seq<nat>)
    requires AssignmentAhead(tokens, at)
    ensures LeadToOperator(tokens, at, cuts)
    decreases |tokens| - at
  {
    KindsAreAsListed(tokens[at].kind);
    if SkippedAhead(tokens[at].kind) {
      cuts := AheadFindsOperator(tokens, at + 1);
      MorePieces(tokens, at, at + 1, cuts);
      cuts := [at] + cuts;
    } else if tokens[at].kind == LBracket {
      var next := AfterBracket(tokens, at + 1);
      cuts := AheadFindsOperator(tokens, next);
      BracketClosed(tokens, at + 1);
      MorePieces(tokens, at, next, cuts);
      cuts := [at] + cuts;
    } else {
      cuts := [at];
    }
  }

  lemma PieceIsSkipped(tokens: seq<Token>, at: nat, next: nat)
    requires IsPiece(tokens, at, next)
    ensures AssignmentAhead(tokens, at) == AssignmentAhead(tokens, next)
  {
    KindsAreAsListed(tokens[at].kind);
    if tokens[at].kind == LBracket {
      BracketCloses(tokens, at + 1, next);
    }
  }

  lemma {:induction false} PiecesAreSkipped(tokens: seq<Token>, at: nat, cuts: seq<nat>)
    requires LeadToOperator(tokens, at, cuts)
    ensures AssignmentAhead(tokens, at)
    decreases |cuts|
  {
    if |cuts| == 1 {
      KindsAreAsListed(tokens[at].kind);
    } else {
      assert IsPiece(tokens, cuts[0], cuts[1]);
      forall n | 0 <= n < |cuts| - 2 ensures IsPiece(tokens, cuts[1..][n], cuts[1..][n + 1]) {
        assert cuts[1..][n] == cuts[n + 1] && cuts[1..][n + 1] == cuts[n + 2];
      }
      PiecesAreSkipped(tokens, cuts[1], cuts[1..]);
      PieceIsSkipped(tokens, at, cuts[1]);
    }
  }

  /** The lookahead says yes exactly if an assignment operator comes after whitespace, names, override
      marks and flags in brackets, in any number and order. */
  lemma AheadIff(tokens: seq<Token>, at: nat)
    ensures AssignmentAhead(tokens, at) <==> OperatorFollows(tokens, at)
  {
    if AssignmentAhead(tokens, at) {
      var cuts := AheadFindsOperator(tokens, at);
    }
    if cuts :| LeadToOperator(tokens, at, cuts) {
      PiecesAreSkipped(tokens, at, cuts);
    }
  }

  // ---- What the runs hold ----

  lemma SliceFirst(tokens: seq<Token>, at: nat, next: nat, e: nat)
    requires at < e <= |tokens| && next == at + 1
    ensures tokens[at..e] == [tokens[at]] + tokens[next..e]
  {
  }

  lemma AllAreMore(t: Token, ts: seq<Token>, whole: seq<Token>, kinds: set<SyntaxKind>)
    requires whole == [t] + ts && AllAre(ts, kinds) && t.kind in kinds
    ensures AllAre(whole, kinds)
  {
  }

  lemma NoneIsMore(t: Token, ts: seq<Token>, whole: seq<Token>, kinds: set<SyntaxKind>)
    requires whole == [t] + ts && NoneIs(ts, kinds) && t.kind !in kinds
    ensures NoneIs(whole, kinds)
  {
  }

  lemma {:induction false} BlankSpan(tokens: seq<Token>, at: nat, e: nat)
    requires at <= |tokens| && e == BlankEnd(tokens, at)
    ensures IsBlank(tokens[at..e]) && KindAt(tokens, e) != Whitespace
    decreases |tokens| - at
  {
    if KindAt(tokens, at) == Whitespace {
      BlankSpan(tokens, at + 1, e);
      SliceFirst(tokens, at, at + 1, e);
      AllAreMore(tokens[at], tokens[at + 1..e], tokens[at..e], {Whitespace});
    }
  }

  lemma {:induction false} TriviaSpan(tokens: seq<Token>, at: nat, e: nat)
    requires at <= |tokens| && e == TriviaEnd(tokens, at)
    ensures IsTriviaRun(tokens[at..e])
    decreases |tokens| - at
  {
    KindsAreAsListed(KindAt(tokens, at));
    if KindAt(tokens, at).IsTrivia() {
      TriviaSpan(tokens, at + 1, e);
      SliceFirst(tokens, at, at + 1, e);
      AllAreMore(tokens[at], tokens[at + 1..e], tokens[at..e], {Whitespace, SyntaxKind.Comment, Newline});
    }
  }

  lemma {:induction false} LineSpan(tokens: seq<Token>, at: nat, e: nat)
    requires at <= |tokens| && e == LineEnd(tokens, at)
    ensures NoneIs(tokens[at..e], {Newline, SyntaxKind.Eof}) && KindAt(tokens, e) in {Newline, SyntaxKind.Eof}
    decreases |tokens| - at
  {
    if KindAt(tokens, at) != SyntaxKind.Eof && KindAt(tokens, at) != Newline {
      LineSpan(tokens, at + 1, e);
      SliceFirst(tokens, at, at + 1, e);
      NoneIsMore(tokens[at], tokens[at + 1..e], tokens[at..e], {Newline, SyntaxKind.Eof});
    }
  }

  lemma {:induction false} ClassesSpan(tokens: seq<Token>, at: nat, e: nat)
    requires at <= |tokens| && e == ClassesEnd(tokens, BlankEnd(tokens, at))
    ensures AllAre(tokens[at..e], {Whitespace, SyntaxKind.Ident}) && KindAt(tokens, e) !in {Whitespace, SyntaxKind.Ident}
    decreases |tokens| - at
  {
    if KindAt(tokens, at) in {Whitespace, SyntaxKind.Ident} {
      ClassesStep(tokens, at, at + 1);
      ClassesSpan(tokens, at + 1, e);
      SliceFirst(tokens, at, at + 1, e);
      AllAreMore(tokens[at], tokens[at + 1..e], tokens[at..e], {Whitespace, SyntaxKind.Ident});
    }
  }

  lemma ClassesStep(tokens: seq<Token>, at: nat, next: nat)
    requires at < |tokens| && next == at + 1 && tokens[at].kind in {Whitespace, SyntaxKind.Ident}
    ensures ClassesEnd(tokens, BlankEnd(tokens, at)) == ClassesEnd(tokens, BlankEnd(tokens, next))
  {
  }

  lemma {:induction false} ParenSpan(tokens: seq<Token>, at: nat, e: nat)
    requires at <= |tokens| && e == ParenEnd(tokens, at)
    ensures NoneIs(tokens[at..e], {RParen, SyntaxKind.Eof}) && KindAt(tokens, e) in {RParen, SyntaxKind.Eof}
    decreases |tokens| - at
  {
    if KindAt(tokens, at) != RParen && KindAt(tokens, at) != SyntaxKind.Eof {
      ParenSpan(tokens, at + 1, e);
      SliceFirst(tokens, at, at + 1, e);
      NoneIsMore(tokens[at], tokens[at + 1..e], tokens[at..e], {RParen, SyntaxKind.Eof});
    }
  }

  /** In place: every token is a mark, or a name after one. */
  ghost predicate OverridesBetween(tokens: seq<Token>, at: nat, e: nat) {
    && at <= e <= |tokens|
    && forall i :: at <= i < e && !IsOverrideMark(tokens[i].kind) ==>
                     i > at && tokens[i].kind == SyntaxKind.Ident && IsOverrideMark(tokens[i - 1].kind)
  }

  lemma {:induction false} OverridesBetweenEnds(tokens: seq<Token>, at: nat, e: nat)
    requires at <= |tokens| && e == OverridesEnd(tokens, at)
    ensures OverridesBetween(tokens, at, e)
    decreases |tokens| - at
  {
    KindsAreAsListed(KindAt(tokens, at));
    if KindAt(tokens, at).IsOverride() {
      OverridesBetweenEnds(tokens, if KindAt(tokens, at + 1) == SyntaxKind.Ident then at + 2 else at + 1, e);
    }
  }

  lemma OverridesSpan(tokens: seq<Token>, at: nat, e: nat)
    requires at <= |tokens| && e == OverridesEnd(tokens, at)
    ensures AreOverrides(tokens[at..e])
  {
    OverridesBetweenEnds(tokens, at, e);
    forall i | 0 <= i < e - at && !IsOverrideMark(tokens[at..e][i].kind)
      ensures i > 0 && tokens[at..e][i].kind == SyntaxKind.Ident && IsOverrideMark(tokens[at..e][i - 1].kind)
    {
      assert tokens[at..e][i] == tokens[at + i];
    }
  }

  lemma FlagSpan(tokens: seq<Token>, at: nat, e: nat)
    requires at <= |tokens| && e == FlagEnd(tokens, at) && FlagErrors(tokens, at) == []
    ensures IsFlag(tokens[at..e])
  {
  }

  /** In place: no EOF, and newlines after backslashes only. */
  ghost predicate ValueBetween(tokens: seq<Token>, at: nat, e: nat) {
    && at <= e <= |tokens|
    && (forall i :: at <= i < e ==> tokens[i].kind != SyntaxKind.Eof)
    && (at < e ==> tokens[at].kind != Newline)
    && (forall i :: at < i < e && tokens[i].kind == Newline ==> tokens[i - 1].kind == Backslash)
    && (KindAt(tokens, e) == SyntaxKind.Eof
        || (KindAt(tokens, e) == Newline && (at < e ==> tokens[e - 1].kind != Backslash)))
  }

  lemma {:induction false} ValueBetweenEnds(tokens: seq<Token>, at: nat, e: nat)
    requires at <= |tokens| && e == ValueEnd(tokens, at)
    ensures ValueBetween(tokens, at, e)
    decreases |tokens| - at
  {
    var kind := KindAt(tokens, at);
    if kind != SyntaxKind.Eof && kind != Newline {
      if kind == Backslash && KindAt(tokens, at + 1) == Newline {
        assert ValueEnd(tokens, at) == ValueEnd(tokens, at + 2);
        ValueBetweenEnds(tokens, at + 2, e);
      } else {
        assert ValueEnd(tokens, at) == ValueEnd(tokens, at + 1);
        ValueBetweenEnds(tokens, at + 1, e);
      }
    }
  }

  lemma ValueSpan(tokens: seq<Token>, at: nat, e: nat)
    requires at <= |tokens| && e == ValueEnd(tokens, at)
    ensures IsValue(tokens[at..e])
    ensures KindAt(tokens, e) == SyntaxKind.Eof || (KindAt(tokens, e) == Newline && !EndsIn(tokens[at..e], Backslash))
  {
    ValueBetweenEnds(tokens, at, e);
    ValueSlice(tokens, at, e, tokens[at..e]);
  }

  lemma ValueSlice(tokens: seq<Token>, at: nat, e: nat, value: seq<Token>)
    requires ValueBetween(tokens, at, e) && value == tokens[at..e]
    ensures IsValue(value)
    ensures KindAt(tokens, e) == SyntaxKind.Eof || (KindAt(tokens, e) == Newline && !EndsIn(value, Backslash))
  {
    forall i | 0 < i < |value| && value[i].kind == Newline ensures value[i - 1].kind == Backslash {
      assert value[i] == tokens[at + i] && value[i - 1] == tokens[at + i - 1];
    }
  }

  lemma OptionalSpan(tokens: seq<Token>, at: nat, kind: SyntaxKind, e: nat)
    requires at <= |tokens| && kind != SyntaxKind.Eof && e == OptionalEnd(tokens, at, kind)
    ensures IsOptional(tokens[at..e], kind) && (tokens[at..e] == [] ==> KindAt(tokens, e) != kind)
  {
  }

  lemma ParametersSpan(tokens: seq<Token>, at: nat, next: nat, e: nat)
    requires at <= |tokens| && e == ParametersEnd(tokens, at) && next == at + 1
    ensures AreParameters(tokens[at..e])
    ensures tokens[at..e] == [] ==> KindAt(tokens, e) != LParen
    ensures ParametersOpen(tokens[at..e]) ==> KindAt(tokens, e) == SyntaxKind.Eof
  {
    if KindAt(tokens, at) == LParen {
      var close := ParenEnd(tokens, next);
      ParenSpan(tokens, next, close);
      SliceFirst(tokens, at, next, close);
      NoneIsMore(tokens[at], tokens[next..close], tokens[at..close], {RParen, SyntaxKind.Eof});
      if KindAt(tokens, close) == RParen {
        assert tokens[at..e] == tokens[at..close] + [tokens[close]];
        assert tokens[at..e][..|tokens[at..e]| - 1] == tokens[at..close];
      } else {
        assert forall i :: 0 <= i < e - at - 1 ==> tokens[at..e][..e - at - 1][i] == tokens[at..e][i];
      }
    }
  }

  lemma {:induction false} BracesSpan(tokens: seq<Token>, b: nat, n: nat, at: nat, e: nat)
    requires b <= at <= e <= |tokens| && at == b + n && n > 0
    requires Depth(tokens[b..e], n) >= 0 && BracesEnd(tokens, at, Depth(tokens[b..e], n)) == e
    ensures forall m :: n <= m < e - b ==> Depth(tokens[b..e], m) > 0 && tokens[b + m].kind != SyntaxKind.Eof
    ensures Depth(tokens[b..e], e - b) == 0 || KindAt(tokens, e) == SyntaxKind.Eof
    decreases e - at
  {
    var depth := Depth(tokens[b..e], n);
    if at < e {
      assert tokens[b..e][n] == tokens[at];
      assert Depth(tokens[b..e], n + 1) >= 0;
      assert BracesEnd(tokens, at, depth) == BracesEnd(tokens, at + 1, Depth(tokens[b..e], n + 1));
      BracesSpan(tokens, b, n + 1, at + 1, e);
    }
  }

  lemma BodySpan(tokens: seq<Token>, at: nat, next: nat, e: nat)
    requires at <= |tokens| && e == BodyEnd(tokens, at) && next == at + 1
    ensures IsBody(tokens[at..e])
    ensures tokens[at..e] == [] ==> KindAt(tokens, e) != LBrace
    ensures BodyOpen(tokens[at..e]) ==> KindAt(tokens, e) == SyntaxKind.Eof
  {
    if KindAt(tokens, at) == LBrace {
      assert tokens[at..e][0] == tokens[at] && Depth(tokens[at..e], 1) == 1;
      BracesSpan(tokens, at, 1, next, e);
      assert Depth(tokens[at..e], e - at) == Depth(tokens[at..e], |tokens[at..e]|);
      forall i | 0 <= i < e - at ensures tokens[at..e][i].kind != SyntaxKind.Eof {
        assert tokens[at..e][i] == tokens[at + i];
        assert i > 0 ==> Depth(tokens[at..e], i) > 0;
      }
    }
  }
  // ---- Statements ----

  lemma Slice(tokens: seq<Token>, at: nat, e: nat)
    requires at <= e <= |tokens|
    ensures Sits(tokens, at, tokens[at..e], e)
  {
  }

  lemma SliceOne(tokens: seq<Token>, at: nat, next: nat)
    requires at < |tokens| && next == at + 1
    ensures Sits(tokens, at, [tokens[at]], next)
  {
  }

  /** The tokens up to e are those of the statement, and what comes next may follow it. */
  ghost predicate Reads(tokens: seq<Token>, at: nat, s: Statement, e: nat) {
    Fits(s) && Sits(tokens, at, Print(s), e) && Follows(s, KindAt(tokens, e))
  }

  /** The assignment with its parts in these places. */
  function AssignmentFrom(tokens: seq<Token>, at: nat, o: nat, n: nat, op: nat, v: nat, e: nat): Statement
    requires at < o <= n <= op < v <= e <= |tokens|
  {
    Assignment(tokens[at], tokens[at + 1..o], tokens[o..n], tokens[n..op], tokens[op], tokens[op + 1..v], tokens[v..e])
  }

  lemma AssignmentFromSits(tokens: seq<Token>, at: nat, next: nat, o: nat, n: nat, op: nat, past: nat, v: nat, e: nat)
    requires next == at + 1 && past == op + 1 && at < o <= n <= op < v <= e <= |tokens|
    ensures Sits(tokens, at, Print(AssignmentFrom(tokens, at, o, n, op, v, e)), e)
  {
    var s := AssignmentFrom(tokens, at, o, n, op, v, e);
    SitsTogether(tokens, next, s.overrides, o, s.flag, n);
    SitsTogether(tokens, at, [s.name], next, s.overrides + s.flag, n);
    SitsTogether(tokens, op, [s.operator], past, s.space, v);
    SitsTogether(tokens, n, s.gap, op, [s.operator] + s.space, v);
    SitsTogether(tokens, n, PrintOperator(s), v, s.value, e);
    SitsTogether(tokens, at, PrintName(s), n, PrintOperator(s) + s.value, e);
  }

  lemma AssignmentFromFits(tokens: seq<Token>, at: nat, next: nat, o: nat, n: nat, op: nat, past: nat, v: nat, e: nat)
    requires next == at + 1 && past == op + 1 && at < o <= n <= op < v <= e <= |tokens|
    requires tokens[at].kind == SyntaxKind.Ident && o == OverridesEnd(tokens, next)
    requires n == FlagEnd(tokens, o) && FlagErrors(tokens, o) == []
    requires op == BlankEnd(tokens, n) && tokens[op].kind.IsAssignmentOp()
    requires v == BlankEnd(tokens, past) && e == ValueEnd(tokens, v)
    ensures var s := AssignmentFrom(tokens, at, o, n, op, v, e); Fits(s) && Follows(s, KindAt(tokens, e))
  {
    OverridesSpan(tokens, next, o);
    FlagSpan(tokens, o, n);
    BlankSpan(tokens, n, op);
    KindsAreAsListed(tokens[op].kind);
    BlankSpan(tokens, past, v);
    ValueSpan(tokens, v, e);
    Slice(tokens, v, e);
    FirstSits(tokens, v, tokens[v..e], e);
  }

  lemma ReadAssignmentAt(tokens: seq<Token>, at: nat, next: nat, o: nat, n: nat, op: nat, past: nat, v: nat, e: nat)
    returns (s: Statement)
    requires next == at + 1 && past == op + 1 && at < o <= n <= op < v <= e <= |tokens|
    requires tokens[at].kind == SyntaxKind.Ident && o == OverridesEnd(tokens, next)
    requires n == FlagEnd(tokens, o) && FlagErrors(tokens, o) == []
    requires op == BlankEnd(tokens, n) && tokens[op].kind.IsAssignmentOp()
    requires v == BlankEnd(tokens, past) && e == ValueEnd(tokens, v)
    ensures Reads(tokens, at, s, e) && s.Assignment?
  {
    s := AssignmentFrom(tokens, at, o, n, op, v, e);
    AssignmentFromSits(tokens, at, next, o, n, op, past, v, e);
    AssignmentFromFits(tokens, at, next, o, n, op, past, v, e);
  }

  lemma ReadAssignment(tokens: seq<Token>, at: nat, next: nat, e: nat) returns (s: Statement)
    requires KindAt(tokens, at) == SyntaxKind.Ident && AssignmentAt(tokens, at).ok && next == at + 1
    requires AssignmentAt(tokens, at).errors == [] && e == AssignmentAt(tokens, at).end
    ensures Reads(tokens, at, s, e) && s.Assignment?
  {
    var o := OverridesEnd(tokens, next);
    var n := FlagEnd(tokens, o);
    var op := BlankEnd(tokens, n);
    AssignmentIs(tokens, at, next, o, n, op, op + 1);
    var v := BlankEnd(tokens, op + 1);
    s := ReadAssignmentAt(tokens, at, next, o, n, op, op + 1, v, e);
  }

  lemma ReadInherit(tokens: seq<Token>, at: nat, next: nat, e: nat) returns (s: Statement)
    requires KindAt(tokens, at) == InheritKw && next == at + 1 && e == InheritEnd(tokens, at)
    ensures Reads(tokens, at, s, e) && s.Inherit?
  {
    s := Inherit(tokens[at], tokens[next..e]);
    ClassesSpan(tokens, next, e);
    SliceOne(tokens, at, next);
    SitsTogether(tokens, at, [tokens[at]], next, tokens[next..e], e);
  }

  lemma ReadInclude(tokens: seq<Token>, at: nat, next: nat, e: nat) returns (s: Statement)
    requires KindAt(tokens, at) == IncludeKw || KindAt(tokens, at) == RequireKw
    requires next == at + 1 && e == PathEnd(tokens, at)
    ensures Reads(tokens, at, s, e) && s.Include?
  {
    s := Include(tokens[at], tokens[next..e]);
    LineSpan(tokens, next, e);
    SliceOne(tokens, at, next);
    SitsTogether(tokens, at, [tokens[at]], next, tokens[next..e], e);
  }

  lemma ReadExport(tokens: seq<Token>, at: nat, next: nat, e: nat) returns (s: Statement)
    requires KindAt(tokens, at) == ExportKw && next == at + 1 && e == ExportEnd(tokens, at)
    ensures Reads(tokens, at, s, e) && s.Export?
  {
    var g := BlankEnd(tokens, next);
    s := Export(tokens[at], tokens[next..g], tokens[g..e]);
    BlankSpan(tokens, next, g);
    OptionalSpan(tokens, g, SyntaxKind.Ident, e);
    SliceOne(tokens, at, next);
    SitsTogether(tokens, next, tokens[next..g], g, tokens[g..e], e);
    SitsTogether(tokens, at, [tokens[at]], next, tokens[next..g] + tokens[g..e], e);
  }

  function FunctionFrom(tokens: seq<Token>, at: nat, g: nat, n: nat, o: nat, p: nat, b: nat, e: nat): Statement
    requires at < g <= n <= o <= p <= b <= e <= |tokens|
  {
    Function(tokens[at], tokens[at + 1..g], tokens[g..n], tokens[n..o], tokens[o..p], tokens[p..b], tokens[b..e])
  }

  lemma FunctionFromSits(tokens: seq<Token>, at: nat, next: nat, g: nat, n: nat, o: nat, p: nat, b: nat, e: nat)
    requires next == at + 1 && at < g <= n <= o <= p <= b <= e <= |tokens|
    ensures Sits(tokens, at, Print(FunctionFrom(tokens, at, g, n, o, p, b, e)), e)
  {
    var s := FunctionFrom(tokens, at, g, n, o, p, b, e);
    SitsTogether(tokens, p, s.afterParameters, b, s.body, e);
    SitsTogether(tokens, o, s.parameters, p, s.afterParameters + s.body, e);
    SitsTogether(tokens, n, s.afterName, o, s.parameters + (s.afterParameters + s.body), e);
    SitsTogether(tokens, g, s.function', n, PrintSignature(s), e);
    SitsTogether(tokens, next, s.gap, g, s.function' + PrintSignature(s), e);
    SitsTogether(tokens, at, [s.keyword], next, s.gap + (s.function' + PrintSignature(s)), e);
  }

  /** What is known of the parts of a function in these places. */
  ghost predicate FunctionPlaces(tokens: seq<Token>, next: nat, g: nat, n: nat, o: nat, p: nat, b: nat, e: nat) {
    && next <= g <= n <= o <= p <= b <= e <= |tokens|
    && g == BlankEnd(tokens, next) && n == OptionalEnd(tokens, g, SyntaxKind.Ident)
    && o == BlankEnd(tokens, n) && p == ParametersEnd(tokens, o)
    && b == BlankEnd(tokens, p) && e == BodyEnd(tokens, b)
  }

  lemma NothingBetween(tokens: seq<Token>, next: nat, g: nat, n: nat, o: nat, p: nat, b: nat, e: nat)
    requires FunctionPlaces(tokens, next, g, n, o, p, b, e)
    ensures n == g ==> o == n
    ensures p == o ==> b == p
    ensures p < |tokens| || (b == p && e == p)
  {
    BlankSpan(tokens, next, g);
    BlankSpan(tokens, n, o);
  }

  lemma FunctionSpans(tokens: seq<Token>, next: nat, g: nat, n: nat, o: nat, p: nat, b: nat, e: nat)
    requires FunctionPlaces(tokens, next, g, n, o, p, b, e)
    ensures IsBlank(tokens[next..g]) && IsOptional(tokens[g..n], SyntaxKind.Ident) && IsBlank(tokens[n..o])
    ensures AreParameters(tokens[o..p]) && IsBlank(tokens[p..b]) && IsBody(tokens[b..e])
    ensures n == g ==> KindAt(tokens, n) != SyntaxKind.Ident
    ensures p == o ==> KindAt(tokens, o) !in {LParen, Whitespace}
    ensures e == b ==> KindAt(tokens, b) !in {LBrace, Whitespace}
    ensures ParametersOpen(tokens[o..p]) ==> KindAt(tokens, p) == SyntaxKind.Eof && b == p && e == b
    ensures BodyOpen(tokens[b..e]) ==> KindAt(tokens, e) == SyntaxKind.Eof
  {
    BlankSpan(tokens, next, g);
    OptionalSpan(tokens, g, SyntaxKind.Ident, n);
    BlankSpan(tokens, n, o);
    ParametersSpan(tokens, o, o + 1, p);
    BlankSpan(tokens, p, b);
    BodySpan(tokens, b, b + 1, e);
    EmptyParts(tokens, g, n);
    EmptyParts(tokens, o, p);
    EmptyParts(tokens, b, e);
  }

  /** Where one part of a function is missing, so is the whitespace after it. */
  lemma NothingAfterNothing(tokens: seq<Token>, next: nat, g: nat, n: nat, o: nat, p: nat, b: nat, e: nat)
    requires FunctionPlaces(tokens, next, g, n, o, p, b, e)
    ensures tokens[g..n] == [] ==> tokens[n..o] == []
    ensures tokens[o..p] == [] ==> tokens[p..b] == []
    ensures ParametersOpen(tokens[o..p]) ==> tokens[p..b] == [] && tokens[b..e] == []
  {
    NothingBetween(tokens, next, g, n, o, p, b, e);
    FunctionSpans(tokens, next, g, n, o, p, b, e);
    EmptyParts(tokens, g, n);
    EmptyParts(tokens, o, p);
    EmptyParts(tokens, b, e);
    EmptyParts(tokens, n, o);
    EmptyParts(tokens, p, b);
  }

  lemma FunctionFromFits(tokens: seq<Token>, at: nat, next: nat, g: nat, n: nat, o: nat, p: nat, b: nat, e: nat)
    requires KindAt(tokens, at) in {PythonKw, DefKw} && next == at + 1 && FunctionPlaces(tokens, next, g, n, o, p, b, e)
    ensures Fits(FunctionFrom(tokens, at, g, n, o, p, b, e))
  {
    NothingAfterNothing(tokens, next, g, n, o, p, b, e);
    FunctionSpans(tokens, next, g, n, o, p, b, e);
    PartsFit(tokens[at], tokens[next..g], tokens[g..n], tokens[n..o], tokens[o..p], tokens[p..b], tokens[b..e]);
  }

  lemma PartsFit(keyword: Token, gap: seq<Token>, name: seq<Token>, afterName: seq<Token>, parameters: seq<Token>,
                 afterParameters: seq<Token>, body: seq<Token>)
    requires keyword.kind in {PythonKw, DefKw} && IsBlank(gap) && IsOptional(name, SyntaxKind.Ident)
    requires IsBlank(afterName) && AreParameters(parameters) && IsBlank(afterParameters) && IsBody(body)
    requires (name == [] ==> afterName == []) && (parameters == [] ==> afterParameters == [])
    requires ParametersOpen(parameters) ==> afterParameters == [] && body == []
    ensures Fits(Function(keyword, gap, name, afterName, parameters, afterParameters, body))
  {
  }

  lemma FunctionFromEnds(tokens: seq<Token>, at: nat, next: nat, g: nat, n: nat, o: nat, p: nat, b: nat, e: nat)
    requires next == at + 1 && FunctionPlaces(tokens, next, g, n, o, p, b, e)
    ensures Follows(FunctionFrom(tokens, at, g, n, o, p, b, e), KindAt(tokens, e))
  {
    NothingBetween(tokens, next, g, n, o, p, b, e);
    FunctionSpans(tokens, next, g, n, o, p, b, e);
    FunctionMayEnd(tokens, n, g, o, p, b, e);
    EmptyParts(tokens, g, n);
    EmptyParts(tokens, o, p);
    EmptyParts(tokens, b, e);
  }

  /** What comes after a function without a body. */
  lemma FunctionMayEnd(tokens: seq<Token>, n: nat, g: nat, o: nat, p: nat, b: nat, e: nat)
    requires g <= n <= o <= p <= b <= e <= |tokens|
    requires n == g ==> o == n && KindAt(tokens, n) != SyntaxKind.Ident
    requires p == o ==> b == p && KindAt(tokens, o) !in {LParen, Whitespace}
    requires e == b ==> KindAt(tokens, b) !in {LBrace, Whitespace}
    ensures e == b ==> KindAt(tokens, e) !in {Whitespace, LBrace}
    ensures e == b && p == o ==> KindAt(tokens, e) != LParen
    ensures e == b && p == o && n == g ==> KindAt(tokens, e) != SyntaxKind.Ident
  {
  }

  lemma EmptyParts(tokens: seq<Token>, from: nat, e: nat)
    requires from <= e <= |tokens|
    ensures tokens[from..e] == [] <==> from == e
  {
  }

  lemma ReadFunction(tokens: seq<Token>, at: nat, next: nat, e: nat) returns (s: Statement)
    requires KindAt(tokens, at) == PythonKw || KindAt(tokens, at) == DefKw
    requires next == at + 1 && e == FunctionEnd(tokens, at)
    ensures Reads(tokens, at, s, e) && s.Function?
  {
    var g := BlankEnd(tokens, next);
    var n := OptionalEnd(tokens, g, SyntaxKind.Ident);
    var o := BlankEnd(tokens, n);
    var p := ParametersEnd(tokens, o);
    var b := BlankEnd(tokens, p);
    assert e == AfterKeywordEnd(tokens, next);
    assert AfterKeywordEnd(tokens, next) == BodyEnd(tokens, b);
    s := FunctionFrom(tokens, at, g, n, o, p, b, e);
    FunctionFromSits(tokens, at, next, g, n, o, p, b, e);
    FunctionFromFits(tokens, at, next, g, n, o, p, b, e);
    FunctionFromEnds(tokens, at, next, g, n, o, p, b, e);
  }

  /** What is parsed as a statement without errors was written as one. */
  lemma ReadStatement(tokens: seq<Token>, at: nat, p: Parsed) returns (s: Statement)
    requires at < |tokens| && p == StatementAt(tokens, at) && p.ok && p.errors == []
    requires !tokens[at].kind.IsTrivia()
    ensures Reads(tokens, at, s, p.end)
  {
    var kind := tokens[at].kind;
    if kind == InheritKw {
      s := ReadInherit(tokens, at, at + 1, p.end);
    } else if kind == IncludeKw || kind == RequireKw {
      s := ReadInclude(tokens, at, at + 1, p.end);
    } else if kind == ExportKw {
      s := ReadExport(tokens, at, at + 1, p.end);
    } else if kind == PythonKw || kind == DefKw {
      s := ReadFunction(tokens, at, at + 1, p.end);
    } else {
      s := ReadAssignment(tokens, at, at + 1, p.end);
    }
  }

  // ---- Scripts ----

  /** The tokens from `at` to e are those of a script. */
  ghost predicate IsScript(tokens: seq<Token>, at: nat, e: nat) {
    exists parts, trailing :: FitsScript(parts, trailing, SyntaxKind.Eof) && Sits(tokens, at, PrintScript(parts, trailing), e)
  }

  lemma OneMorePart(tokens: seq<Token>, at: nat, start: nat, s: Statement, end: nat, parts: seq<Part>, trailing: seq<Token>, e: nat)
    requires at <= start <= |tokens| && IsTriviaRun(tokens[at..start])
    requires Reads(tokens, start, s, end)
    requires FitsScript(parts, trailing, SyntaxKind.Eof) && Sits(tokens, end, PrintScript(parts, trailing), e)
    requires KindAt(tokens, e) == SyntaxKind.Eof
    ensures FitsScript([Part(tokens[at..start], s)] + parts, trailing, SyntaxKind.Eof)
    ensures Sits(tokens, at, PrintScript([Part(tokens[at..start], s)] + parts, trailing), e)
  {
    var all, rest := [Part(tokens[at..start], s)] + parts, PrintScript(parts, trailing);
    assert all[0] == Part(tokens[at..start], s) && all[1..] == parts;
    FirstSits(tokens, end, rest, e);
    SitsTogether(tokens, start, Print(s), end, rest, e);
    SitsTogether(tokens, at, tokens[at..start], start, Print(s) + rest, e);
  }

  lemma {:induction false} ReadScript(tokens: seq<Token>, at: nat) returns (parts: seq<Part>, trailing: seq<Token>)
    requires at <= |tokens| && ParseFrom(tokens, at).errors == []
    ensures FitsScript(parts, trailing, SyntaxKind.Eof) && Sits(tokens, at, PrintScript(parts, trailing), ParseFrom(tokens, at).end)
    decreases |tokens| - at
  {
    var start := TriviaEnd(tokens, at);
    TriviaSpan(tokens, at, start);
    if KindAt(tokens, start) == SyntaxKind.Eof {
      parts, trailing := [], tokens[at..start];
    } else {
      var item := ItemAt(tokens, at);
      ParseStep(tokens, at, item, ParseFrom(tokens, item.end));
      var s := ReadStatement(tokens, start, StatementAt(tokens, start));
      parts, trailing := ReadScript(tokens, item.end);
      OneMorePart(tokens, at, start, s, item.end, parts, trailing, ParseFrom(tokens, at).end);
      parts := [Part(tokens[at..start], s)] + parts;
    }
  }

  /** The parser reports no error exactly for scripts. */
  lemma ErrorFreeIff(tokens: seq<Token>, at: nat)
    requires at <= |tokens|
    ensures ParseFrom(tokens, at).errors == [] <==> IsScript(tokens, at, EofFrom(tokens, at))
  {
    ParseEndsAtEof(tokens, at);
    if ParseFrom(tokens, at).errors == [] {
      var parts, trailing := ReadScript(tokens, at);
    }
    if parts, trailing :| FitsScript(parts, trailing, SyntaxKind.Eof) && Sits(tokens, at, PrintScript(parts, trailing), EofFrom(tokens, at)) {
      ScriptIsRead(tokens, at, parts, trailing, EofFrom(tokens, at));
    }
  }

  /** A statement begins at `at`: with one of these tokens, or with a name that an assignment operator
      follows, as far as the lookahead sees, and right behind its overrides, its flag and whitespace. */
  ghost predicate Recognised(tokens: seq<Token>, at: nat)
    requires at < |tokens|
  {
    || tokens[at].kind in {InheritKw, IncludeKw, RequireKw, ExportKw, PythonKw, DefKw, SyntaxKind.Comment, Newline}
    || (&& tokens[at].kind == SyntaxKind.Ident && OperatorFollows(tokens, at + 1)
        && IsOperator(KindAt(tokens, BlankEnd(tokens, NameEnd(tokens, at)))))
  }

  /** Exactly then it is recognised as one. */
  lemma StatementIff(tokens: seq<Token>, at: nat)
    requires at < |tokens|
    ensures StatementAt(tokens, at).ok <==> Recognised(tokens, at)
  {
    AheadIff(tokens, at + 1);
    if tokens[at].kind == SyntaxKind.Ident {
      KindsAreAsListed(KindAt(tokens, BlankEnd(tokens, NameEnd(tokens, at))));
    }
  }
}
