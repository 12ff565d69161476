/** What the grammar promises on all token lists: every token up to EOF becomes a leaf, in order; the
    lookahead finds an operator exactly if one is there; without errors every node is of the right shape. */
module GrammarTheorems {
  import opened Wrappers
  import opened SyntaxTree
  import opened Grammar

  // ---- Item by item ----

  lemma NothingMore(tokens: seq<Token>, at: nat)
    requires at <= |tokens| && KindAt(tokens, at) == SyntaxKind.Eof
    ensures ParseFrom(tokens, at) == Parsed(true, [], [], at)
  {
    assert TriviaEnd(tokens, at) == at && LeafRange(tokens, at, at) == [];
  }

  lemma ParseStep(tokens: seq<Token>, at: nat, item: Parsed, rest: Parsed)
    requires at <= |tokens| && KindAt(tokens, TriviaEnd(tokens, at)) != SyntaxKind.Eof
    requires item == ItemAt(tokens, at) && rest == ParseFrom(tokens, item.end)
    ensures ParseFrom(tokens, at)
            == Parsed(item.ok && rest.ok, item.nodes + rest.nodes, item.errors + rest.errors, rest.end)
  {
  }

  /** An assignment by the places of its parts. */
  lemma AssignmentIs(tokens: seq<Token>, at: nat, next: nat, o: nat, n: nat, op: nat, past: nat)
    requires KindAt(tokens, at) == SyntaxKind.Ident && next == at + 1 && past == op + 1
    requires o == OverridesEnd(tokens, next) && n == FlagEnd(tokens, o) && op == BlankEnd(tokens, n)
    ensures NameEnd(tokens, at) == n && AssignmentAt(tokens, at).ok == KindAt(tokens, op).IsAssignmentOp()
    ensures KindAt(tokens, op).IsAssignmentOp() ==>
              var v := BlankEnd(tokens, past);
              AssignmentAt(tokens, at)
              == Parsed(true, [Tree(VariableAssignment,
                                    [Tree(VariableName, LeafRange(tokens, at, n))]
                                    + OperatorAndValue(tokens, n, v, ValueEnd(tokens, v)))],
                        FlagErrors(tokens, o), ValueEnd(tokens, v))
    ensures !KindAt(tokens, op).IsAssignmentOp() ==> AssignmentAt(tokens, at).end == op
  {
    assert NameEnd(tokens, at) == n;
    assert KindAt(tokens, op).IsAssignmentOp() ==> ValueStart(tokens, n) == BlankEnd(tokens, past);
  }

  // ---- The end of the tokens ----

  /** The position of the first EOF token from `at` on, or the number of tokens. */
  function EofFrom(tokens: seq<Token>, at: nat): (e: nat)
    requires at <= |tokens|
    ensures at <= e <= |tokens| && KindAt(tokens, e) == SyntaxKind.Eof
    ensures forall i :: at <= i < e ==> tokens[i].kind != SyntaxKind.Eof
    decreases |tokens| - at
  {
    if KindAt(tokens, at) == SyntaxKind.Eof then at else EofFrom(tokens, at + 1)
  }

  /** What a lexer produces: EOF is the last token and no other. */
  ghost predicate Terminated(tokens: seq<Token>) {
    && tokens != [] && tokens[|tokens| - 1].kind == SyntaxKind.Eof
    && forall i :: 0 <= i < |tokens| - 1 ==> tokens[i].kind != SyntaxKind.Eof
  }

  lemma EndOfTerminated(tokens: seq<Token>)
    requires Terminated(tokens)
    ensures EofFrom(tokens, 0) == |tokens| - 1
  {
    var e := EofFrom(tokens, 0);
  }

  /** No EOF is passed on the way from `at` to e. */
  ghost predicate Leads(tokens: seq<Token>, at: nat, e: nat) {
    at <= e <= |tokens| && EofFrom(tokens, at) == EofFrom(tokens, e)
  }

  lemma LeadsOn(tokens: seq<Token>, at: nat, mid: nat, e: nat)
    requires Leads(tokens, at, mid) && Leads(tokens, mid, e)
    ensures Leads(tokens, at, e)
  {
  }

  lemma LeadsOne(tokens: seq<Token>, at: nat, next: nat)
    requires at < |tokens| && tokens[at].kind != SyntaxKind.Eof && next == at + 1
    ensures Leads(tokens, at, next)
  {
  }

  lemma {:induction false} BlankLeads(tokens: seq<Token>, at: nat)
    requires at <= |tokens|
    ensures Leads(tokens, at, BlankEnd(tokens, at))
    decreases |tokens| - at
  {
    if KindAt(tokens, at) == Whitespace {
      BlankLeads(tokens, at + 1);
    }
  }

  lemma {:induction false} TriviaLeads(tokens: seq<Token>, at: nat)
    requires at <= |tokens|
    ensures Leads(tokens, at, TriviaEnd(tokens, at))
    decreases |tokens| - at
  {
    if KindAt(tokens, at).IsTrivia() {
      TriviaLeads(tokens, at + 1);
    }
  }

  lemma {:induction false} LineLeads(tokens: seq<Token>, at: nat)
    requires at <= |tokens|
    ensures Leads(tokens, at, LineEnd(tokens, at))
    decreases |tokens| - at
  {
    if KindAt(tokens, at) != SyntaxKind.Eof && KindAt(tokens, at) != Newline {
      LineLeads(tokens, at + 1);
    }
  }

  lemma {:induction false} OverridesLead(tokens: seq<Token>, at: nat)
    requires at <= |tokens|
    ensures Leads(tokens, at, OverridesEnd(tokens, at))
    decreases |tokens| - at
  {
    if KindAt(tokens, at).IsOverride() {
      OverridesLead(tokens, if KindAt(tokens, at + 1) == SyntaxKind.Ident then at + 2 else at + 1);
    }
  }

  lemma FlagLeads(tokens: seq<Token>, at: nat)
    requires at <= |tokens|
    ensures Leads(tokens, at, FlagEnd(tokens, at))
  {
    if KindAt(tokens, at) == LBracket {
      LeadsOne(tokens, at, at + 1);
      var close := FlagNameEnd(tokens, at);
      if close == at + 2 {
        LeadsOne(tokens, at + 1, close);
      }
      if KindAt(tokens, close) == RBracket {
        LeadsOne(tokens, close, close + 1);
      }
    }
  }

  lemma NameLeads(tokens: seq<Token>, at: nat)
    requires KindAt(tokens, at) == SyntaxKind.Ident
    ensures Leads(tokens, at, NameEnd(tokens, at))
  {
    LeadsOne(tokens, at, at + 1);
    OverridesLead(tokens, at + 1);
    FlagLeads(tokens, OverridesEnd(tokens, at + 1));
  }

  /** One token of a value, or a backslash and the newline after it. */
  lemma ValueStep(tokens: seq<Token>, at: nat, next: nat) returns (mid: nat)
    requires at <= |tokens| && KindAt(tokens, at) != SyntaxKind.Eof && KindAt(tokens, at) != Newline && next == at + 1
    ensures at < mid <= |tokens| && ValueEnd(tokens, at) == ValueEnd(tokens, mid) && Leads(tokens, at, mid)
  {
    LeadsOne(tokens, at, next);
    mid := next;
    if KindAt(tokens, at) == Backslash && KindAt(tokens, next) == Newline {
      LeadsOne(tokens, next, next + 1);
      mid := next + 1;
    }
  }

  lemma {:induction false} ValueLeads(tokens: seq<Token>, at: nat)
    requires at <= |tokens|
    ensures Leads(tokens, at, ValueEnd(tokens, at))
    decreases |tokens| - at
  {
    if KindAt(tokens, at) != SyntaxKind.Eof && KindAt(tokens, at) != Newline {
      var mid := ValueStep(tokens, at, at + 1);
      ValueLeads(tokens, mid);
    }
  }

  lemma OperatorAndValueLead(tokens: seq<Token>, n: nat, op: nat, next: nat)
    requires n <= |tokens| && op == BlankEnd(tokens, n) && KindAt(tokens, op).IsAssignmentOp() && next == op + 1
    ensures Leads(tokens, n, ValueEnd(tokens, BlankEnd(tokens, next)))
  {
    BlankLeads(tokens, n);
    LeadsOne(tokens, op, next);
    BlankLeads(tokens, next);
    ValueLeads(tokens, BlankEnd(tokens, next));
  }

  lemma AssignmentLeads(tokens: seq<Token>, at: nat)
    requires KindAt(tokens, at) == SyntaxKind.Ident
    ensures Leads(tokens, at, AssignmentAt(tokens, at).end)
  {
    var n := NameEnd(tokens, at);
    var op := BlankEnd(tokens, n);
    NameLeads(tokens, at);
    AssignmentIs(tokens, at, at + 1, OverridesEnd(tokens, at + 1), n, op, op + 1);
    if KindAt(tokens, op).IsAssignmentOp() {
      OperatorAndValueLead(tokens, n, op, op + 1);
    } else {
      BlankLeads(tokens, n);
    }
    LeadsOn(tokens, at, n, AssignmentAt(tokens, at).end);
  }

  lemma {:induction false} ClassesLead(tokens: seq<Token>, at: nat)
    requires at <= |tokens|
    ensures Leads(tokens, at, ClassesEnd(tokens, at))
    decreases |tokens| - at
  {
    if KindAt(tokens, at) == SyntaxKind.Ident {
      LeadsOne(tokens, at, at + 1);
      BlankLeads(tokens, at + 1);
      ClassesLead(tokens, BlankEnd(tokens, at + 1));
    }
  }

  lemma {:induction false} ParenLeads(tokens: seq<Token>, at: nat)
    requires at <= |tokens|
    ensures Leads(tokens, at, ParenEnd(tokens, at))
    decreases |tokens| - at
  {
    if KindAt(tokens, at) != RParen && KindAt(tokens, at) != SyntaxKind.Eof {
      ParenLeads(tokens, at + 1);
    }
  }

  lemma {:induction false} BracesLead(tokens: seq<Token>, at: nat, depth: nat)
    requires at <= |tokens|
    ensures Leads(tokens, at, BracesEnd(tokens, at, depth))
    decreases |tokens| - at
  {
    var kind := KindAt(tokens, at);
    if depth > 0 && kind != SyntaxKind.Eof {
      var next := if kind == LBrace then depth + 1 else if kind == RBrace then depth - 1 else depth;
      assert BracesEnd(tokens, at, depth) == BracesEnd(tokens, at + 1, next);
      LeadsOne(tokens, at, at + 1);
      BracesLead(tokens, at + 1, next);
    }
  }

  lemma ParametersLead(tokens: seq<Token>, at: nat, next: nat)
    requires at <= |tokens| && next == at + 1
    ensures Leads(tokens, at, ParametersEnd(tokens, at))
  {
    if KindAt(tokens, at) == LParen {
      LeadsOne(tokens, at, next);
      ParenLeads(tokens, next);
      var close := ParenEnd(tokens, next);
      if KindAt(tokens, close) == RParen {
        LeadsOne(tokens, close, close + 1);
      }
    }
  }

  lemma BodyLeads(tokens: seq<Token>, at: nat, next: nat)
    requires at <= |tokens| && next == at + 1
    ensures Leads(tokens, at, BodyEnd(tokens, at))
  {
    if KindAt(tokens, at) == LBrace {
      LeadsOne(tokens, at, next);
      BracesLead(tokens, next, 1);
    }
  }

  lemma FunctionTailLeads(tokens: seq<Token>, at: nat)
    requires at <= |tokens|
    ensures Leads(tokens, at, SignatureAndBodyEnd(tokens, at))
  {
    var p := BlankEnd(tokens, at);
    var q := ParametersEnd(tokens, p);
    var b := BlankEnd(tokens, q);
    BlankLeads(tokens, at);
    ParametersLead(tokens, p, p + 1);
    BlankLeads(tokens, q);
    BodyLeads(tokens, b, b + 1);
  }

  lemma BlankAndNameLead(tokens: seq<Token>, at: nat)
    requires at <= |tokens|
    ensures Leads(tokens, at, FunctionNameEnd(tokens, at))
  {
    BlankLeads(tokens, at);
    if KindAt(tokens, BlankEnd(tokens, at)) == SyntaxKind.Ident {
      LeadsOne(tokens, BlankEnd(tokens, at), BlankEnd(tokens, at) + 1);
    }
  }

  lemma KeywordLeads(tokens: seq<Token>, at: nat, next: nat)
    requires at < |tokens| && next == at + 1
    requires tokens[at].kind.StartsLineStatement() || tokens[at].kind == PythonKw || tokens[at].kind == DefKw
    ensures Leads(tokens, at, StatementAt(tokens, at).end)
  {
    LeadsOne(tokens, at, next);
    KeywordEnds(tokens, at, next);
    if tokens[at].kind == InheritKw {
      BlankLeads(tokens, next);
      ClassesLead(tokens, BlankEnd(tokens, next));
    } else if tokens[at].kind == ExportKw {
      BlankAndNameLead(tokens, next);
    } else if tokens[at].kind == PythonKw || tokens[at].kind == DefKw {
      BlankAndNameLead(tokens, next);
      FunctionTailLeads(tokens, FunctionNameEnd(tokens, next));
    } else {
      LineLeads(tokens, next);
    }
  }

  lemma KeywordEnds(tokens: seq<Token>, at: nat, next: nat)
    requires at < |tokens| && next == at + 1
    ensures tokens[at].kind == InheritKw ==> StatementAt(tokens, at).end == ClassesEnd(tokens, BlankEnd(tokens, next))
    ensures tokens[at].kind == ExportKw ==> StatementAt(tokens, at).end == FunctionNameEnd(tokens, next)
    ensures tokens[at].kind == IncludeKw || tokens[at].kind == RequireKw ==>
              StatementAt(tokens, at).end == LineEnd(tokens, next)
    ensures tokens[at].kind == PythonKw || tokens[at].kind == DefKw ==>
              StatementAt(tokens, at).end == SignatureAndBodyEnd(tokens, FunctionNameEnd(tokens, next))
  {
  }

  lemma StatementLeads(tokens: seq<Token>, at: nat)
    requires at <= |tokens|
    ensures Leads(tokens, at, StatementAt(tokens, at).end)
  {
    var kind := KindAt(tokens, at);
    if kind.StartsLineStatement() || kind == PythonKw || kind == DefKw {
      KeywordLeads(tokens, at, at + 1);
    } else if kind == SyntaxKind.Ident {
      NameStatementLeads(tokens, at);
      assert StatementAt(tokens, at) == NameStatementAt(tokens, at);
    } else if kind == SyntaxKind.Comment || kind == Newline {
      LeadsOne(tokens, at, at + 1);
    }
  }

  lemma NameStatementLeads(tokens: seq<Token>, at: nat)
    requires KindAt(tokens, at) == SyntaxKind.Ident
    ensures Leads(tokens, at, NameStatementAt(tokens, at).end)
  {
    if AssignmentAhead(tokens, at + 1) {
      AssignmentLeads(tokens, at);
    }
  }

  lemma {:induction false} RecoveryLeads(tokens: seq<Token>, at: nat)
    requires at <= |tokens|
    ensures Leads(tokens, at, RecoveryEnd(tokens, at))
    decreases |tokens| - at
  {
    var kind := KindAt(tokens, at);
    if kind != SyntaxKind.Eof && !kind.StartsLineStatement() {
      LeadsOne(tokens, at, at + 1);
      if kind != Newline {
        RecoveryLeads(tokens, at + 1);
      }
    }
  }

  lemma ItemLeads(tokens: seq<Token>, at: nat)
    requires at <= |tokens|
    ensures Leads(tokens, at, ItemAt(tokens, at).end)
  {
    var start := TriviaEnd(tokens, at);
    TriviaLeads(tokens, at);
    if KindAt(tokens, start) != SyntaxKind.Eof {
      StatementLeads(tokens, start);
      RecoveryLeads(tokens, StatementAt(tokens, start).end);
    }
  }

  /** Parsing goes on to EOF. */
  lemma {:induction false} ParseEndsAtEof(tokens: seq<Token>, at: nat)
    requires at <= |tokens|
    ensures ParseFrom(tokens, at).end == EofFrom(tokens, at)
    decreases |tokens| - at
  {
    ItemLeads(tokens, at);
    if KindAt(tokens, TriviaEnd(tokens, at)) != SyntaxKind.Eof {
      ParseEndsAtEof(tokens, ItemAt(tokens, at).end);
    }
  }

  // ---- Every token is a leaf ----

  /** The leaves under these nodes are the tokens from `at` to e. */
  ghost predicate Holds(tokens: seq<Token>, nodes: seq<Node>, at: nat, e: nat) {
    at <= e <= |tokens| && LeavesOf(nodes) == LexemesBetween(tokens, at, e)
  }

  lemma HoldsOn(tokens: seq<Token>, a: seq<Node>, at: nat, mid: nat, b: seq<Node>, e: nat)
    requires Holds(tokens, a, at, mid) && Holds(tokens, b, mid, e)
    ensures Holds(tokens, a + b, at, e)
  {
    LeavesOfConcat(a, b);
    LexemesSplit(tokens, at, mid, e);
  }

  lemma {:induction false} RangeHolds(tokens: seq<Token>, at: nat, e: nat)
    requires at <= e <= |tokens|
    ensures Holds(tokens, LeafRange(tokens, at, e), at, e)
    decreases e
  {
    if at < e {
      var leaf := LeafOf(tokens[e - 1]);
      RangeHolds(tokens, at, e - 1);
      assert LeafRange(tokens, at, e) == LeafRange(tokens, at, e - 1) + [leaf];
      LeavesOfConcat(LeafRange(tokens, at, e - 1), [leaf]);
      LeavesOfOne(leaf);
    }
  }

  lemma NodeHolds(tokens: seq<Token>, kind: SyntaxKind, inner: seq<Node>, at: nat, e: nat)
    requires Holds(tokens, inner, at, e)
    ensures Holds(tokens, [Tree(kind, inner)], at, e)
  {
    LeavesOfOne(Tree(kind, inner));
  }

  lemma FlatHolds(tokens: seq<Token>, kind: SyntaxKind, at: nat, e: nat)
    requires at <= e <= |tokens|
    ensures Holds(tokens, [Tree(kind, LeafRange(tokens, at, e))], at, e)
  {
    RangeHolds(tokens, at, e);
    NodeHolds(tokens, kind, LeafRange(tokens, at, e), at, e);
  }

  lemma AssignmentHolds(tokens: seq<Token>, at: nat)
    requires KindAt(tokens, at) == SyntaxKind.Ident
    ensures Holds(tokens, AssignmentAt(tokens, at).nodes, at, AssignmentAt(tokens, at).end)
  {
    var n := NameEnd(tokens, at);
    var op := BlankEnd(tokens, n);
    FlatHolds(tokens, VariableName, at, n);
    if KindAt(tokens, op).IsAssignmentOp() {
      var v := ValueStart(tokens, n);
      var e := ValueEnd(tokens, v);
      RangeHolds(tokens, n, v);
      FlatHolds(tokens, VariableValue, v, e);
      HoldsOn(tokens, LeafRange(tokens, n, v), n, v, [Tree(VariableValue, LeafRange(tokens, v, e))], e);
      HoldsOn(tokens, [NameNodeAt(tokens, at)], at, n, OperatorAndValue(tokens, n, v, e), e);
      NodeHolds(tokens, VariableAssignment, [NameNodeAt(tokens, at)] + OperatorAndValue(tokens, n, v, e), at, e);
    } else {
      RangeHolds(tokens, n, op);
      HoldsOn(tokens, [NameNodeAt(tokens, at)], at, n, LeafRange(tokens, n, op), op);
      NodeHolds(tokens, VariableAssignment, [NameNodeAt(tokens, at)] + LeafRange(tokens, n, op), at, op);
    }
  }

  lemma KeywordHolds(tokens: seq<Token>, at: nat)
    requires at < |tokens|
    requires tokens[at].kind.StartsLineStatement() || tokens[at].kind == PythonKw || tokens[at].kind == DefKw
    ensures Holds(tokens, StatementAt(tokens, at).nodes, at, StatementAt(tokens, at).end)
  {
    if tokens[at].kind == InheritKw {
      FlatHolds(tokens, InheritStmt, at, InheritEnd(tokens, at));
    } else if tokens[at].kind == IncludeKw {
      FlatHolds(tokens, IncludeStmt, at, PathEnd(tokens, at));
    } else if tokens[at].kind == RequireKw {
      FlatHolds(tokens, RequireStmt, at, PathEnd(tokens, at));
    } else if tokens[at].kind == ExportKw {
      FlatHolds(tokens, ExportStmt, at, ExportEnd(tokens, at));
    } else {
      FlatHolds(tokens, ShellFunction, at, FunctionEnd(tokens, at));
    }
  }

  lemma StatementHolds(tokens: seq<Token>, at: nat)
    requires at <= |tokens|
    ensures Holds(tokens, StatementAt(tokens, at).nodes, at, StatementAt(tokens, at).end)
  {
    var kind := KindAt(tokens, at);
    if kind.StartsLineStatement() || kind == PythonKw || kind == DefKw {
      KeywordHolds(tokens, at);
    } else if kind == SyntaxKind.Ident {
      NameStatementHolds(tokens, at);
      assert StatementAt(tokens, at) == NameStatementAt(tokens, at);
    } else if kind == SyntaxKind.Comment || kind == Newline {
      RangeHolds(tokens, at, at + 1);
    } else {
      RangeHolds(tokens, at, at);
    }
  }

  lemma NameStatementHolds(tokens: seq<Token>, at: nat)
    requires KindAt(tokens, at) == SyntaxKind.Ident
    ensures Holds(tokens, NameStatementAt(tokens, at).nodes, at, NameStatementAt(tokens, at).end)
  {
    if AssignmentAhead(tokens, at + 1) {
      AssignmentHolds(tokens, at);
    }
  }

  lemma ItemHolds(tokens: seq<Token>, at: nat)
    requires at <= |tokens|
    ensures Holds(tokens, ItemAt(tokens, at).nodes, at, ItemAt(tokens, at).end)
  {
    var start := TriviaEnd(tokens, at);
    RangeHolds(tokens, at, start);
    if KindAt(tokens, start) != SyntaxKind.Eof {
      var s := StatementAt(tokens, start);
      StatementHolds(tokens, start);
      if s.ok {
        HoldsOn(tokens, LeafRange(tokens, at, start), at, start, s.nodes, s.end);
      } else {
        var e := RecoveryEnd(tokens, s.end);
        FlatHolds(tokens, SyntaxKind.Error, s.end, e);
        HoldsOn(tokens, s.nodes, start, s.end, [Tree(SyntaxKind.Error, LeafRange(tokens, s.end, e))], e);
        HoldsOn(tokens, LeafRange(tokens, at, start), at, start, StatementOrErrorAt(tokens, start).nodes, e);
      }
    }
  }

  /** Nothing is lost and nothing is invented: the leaves are the tokens up to EOF, in order. */
  lemma {:induction false} ParseIsLossless(tokens: seq<Token>, at: nat)
    requires at <= |tokens|
    ensures LeavesOf(ParseFrom(tokens, at).nodes) == LexemesBetween(tokens, at, EofFrom(tokens, at))
    decreases |tokens| - at
  {
    ParseEndsAtEof(tokens, at);
    ItemHolds(tokens, at);
    if KindAt(tokens, TriviaEnd(tokens, at)) != SyntaxKind.Eof {
      var item := ItemAt(tokens, at);
      ParseIsLossless(tokens, item.end);
      ParseEndsAtEof(tokens, item.end);
      HoldsOn(tokens, item.nodes, at, item.end, ParseFrom(tokens, item.end).nodes, EofFrom(tokens, item.end));
    }
  }

  // ---- The shape of the nodes ----

  lemma RangeIsLeaves(tokens: seq<Token>, at: nat, e: nat)
    requires at <= e <= |tokens|
    ensures OnlyLeaves(LeafRange(tokens, at, e)) && AllWellShaped(LeafRange(tokens, at, e))
  {
    var range := LeafRange(tokens, at, e);
    forall n | n in range ensures n.Leaf? {
      var i :| 0 <= i < |range| && range[i] == n;
      LeafAt(tokens, at, e, i, at + i);
    }
  }

  lemma {:induction false} BlanksAreWhitespace(tokens: seq<Token>, at: nat)
    requires at <= |tokens|
    ensures forall i :: at <= i < BlankEnd(tokens, at) ==> tokens[i].kind == Whitespace
    decreases |tokens| - at
  {
    if KindAt(tokens, at) == Whitespace {
      BlanksAreWhitespace(tokens, at + 1);
    }
  }

  lemma ShapeOfParts(name: Node, range: seq<Node>, value: Node, k: nat)
    requires NameNode(name) && value.Tree? && value.kind == VariableValue && k < |range|
    requires range[k].Leaf? && range[k].kind.IsAssignmentOp()
    requires forall i :: 0 <= i < |range| && i != k ==> IsWhitespaceLeaf(range[i])
    ensures AssignmentShapeAt([name] + (range + [value]), k + 1)
  {
    var c := [name] + (range + [value]);
    assert |c| == |range| + 2 && c[0] == name && c[|c| - 1] == value && c[k + 1] == range[k];
    forall i | 1 <= i < |c| - 1 && i != k + 1 ensures IsWhitespaceLeaf(c[i]) {
      assert c[i] == range[i - 1];
    }
    assert 1 <= k + 1 < |c| - 1 && NameNode(c[0]) && c[k + 1].kind.IsAssignmentOp();
    assert forall i :: 1 <= i < k + 1 ==> IsWhitespaceLeaf(c[i]);
    assert forall i :: k + 1 < i < |c| - 1 ==> IsWhitespaceLeaf(c[i]);
  }

  lemma LeafAt(tokens: seq<Token>, from: nat, end: nat, i: nat, at: nat)
    requires from + i == at < end <= |tokens|
    ensures LeafRange(tokens, from, end)[i] == LeafOf(tokens[at])
  {
  }

  /** The range from the name to the value is whitespace but for the operator. */
  lemma RangeAroundOperator(tokens: seq<Token>, n: nat, op: nat, v: nat)
    requires n <= |tokens| && op == BlankEnd(tokens, n) && KindAt(tokens, op).IsAssignmentOp()
    requires v == BlankEnd(tokens, op + 1)
    ensures var range := LeafRange(tokens, n, v);
            && op - n < |range| && range[op - n].Leaf? && range[op - n].kind.IsAssignmentOp()
            && forall i :: 0 <= i < |range| && i != op - n ==> IsWhitespaceLeaf(range[i])
  {
    BlanksAreWhitespace(tokens, n);
    BlanksAreWhitespace(tokens, op + 1);
    var range := LeafRange(tokens, n, v);
    LeafAt(tokens, n, v, op - n, op);
    forall i | 0 <= i < |range| && i != op - n ensures IsWhitespaceLeaf(range[i]) {
      LeafAt(tokens, n, v, i, n + i);
    }
  }

  lemma NameIsShaped(tokens: seq<Token>, at: nat)
    requires KindAt(tokens, at) == SyntaxKind.Ident
    ensures NameNode(NameNodeAt(tokens, at)) && WellShaped(NameNodeAt(tokens, at))
  {
    RangeIsLeaves(tokens, at, NameEnd(tokens, at));
    assert LeafRange(tokens, at, NameEnd(tokens, at))[0] == LeafOf(tokens[at]);
  }

  lemma NodeIsShaped(name: Node, rest: seq<Node>, k: nat)
    requires WellShaped(name) && AllWellShaped(rest) && AssignmentShapeAt([name] + rest, k)
    ensures AllWellShaped([Tree(VariableAssignment, [name] + rest)])
  {
    assert WellShaped(Tree(VariableAssignment, [name] + rest));
  }

  lemma RestIsShaped(tokens: seq<Token>, n: nat, v: nat, e: nat)
    requires n <= v <= e <= |tokens|
    ensures AllWellShaped(OperatorAndValue(tokens, n, v, e))
  {
    RangeIsLeaves(tokens, n, v);
    RangeIsLeaves(tokens, v, e);
    assert WellShaped(Tree(VariableValue, LeafRange(tokens, v, e)));
  }

  /** An assignment that is found with its operator has the five-part shape. */
  lemma AssignmentIsWellShaped(tokens: seq<Token>, at: nat)
    requires KindAt(tokens, at) == SyntaxKind.Ident && AssignmentAt(tokens, at).ok
    ensures AllWellShaped(AssignmentAt(tokens, at).nodes)
  {
    var o := OverridesEnd(tokens, at + 1);
    var n := FlagEnd(tokens, o);
    var op := BlankEnd(tokens, n);
    var past := op + 1;
    AssignmentIs(tokens, at, at + 1, o, n, op, past);
    var v := BlankEnd(tokens, past);
    PlacedIsWellShaped(tokens, at, n, op, past, v, ValueEnd(tokens, v), [NameNodeAt(tokens, at)]);
  }

  lemma PlacedIsWellShaped(tokens: seq<Token>, at: nat, n: nat, op: nat, past: nat, v: nat, e: nat, name: seq<Node>)
    requires KindAt(tokens, at) == SyntaxKind.Ident && n == NameEnd(tokens, at) && name == [NameNodeAt(tokens, at)]
    requires op == BlankEnd(tokens, n) && KindAt(tokens, op).IsAssignmentOp() && past == op + 1
    requires v == BlankEnd(tokens, past) <= e <= |tokens|
    ensures AllWellShaped([Tree(VariableAssignment, name + OperatorAndValue(tokens, n, v, e))])
  {
    NameIsShaped(tokens, at);
    RangeAroundOperator(tokens, n, op, v);
    ShapeOfParts(NameNodeAt(tokens, at), LeafRange(tokens, n, v), Tree(VariableValue, LeafRange(tokens, v, e)), op - n);
    RestIsShaped(tokens, n, v, e);
    NodeIsShaped(NameNodeAt(tokens, at), OperatorAndValue(tokens, n, v, e), op - n + 1);
  }

  lemma StatementIsWellShaped(tokens: seq<Token>, at: nat)
    requires at <= |tokens| && StatementAt(tokens, at).ok
    ensures AllWellShaped(StatementAt(tokens, at).nodes)
  {
    var p := StatementAt(tokens, at);
    if KindAt(tokens, at) == SyntaxKind.Ident {
      AssignmentIsWellShaped(tokens, at);
    } else {
      RangeIsLeaves(tokens, at, p.end);
    }
  }

  /** Without errors there is no error node, and every assignment has its five parts. */
  lemma {:induction false} ErrorFreeIsWellShaped(tokens: seq<Token>, at: nat)
    requires at <= |tokens| && ParseFrom(tokens, at).errors == []
    ensures AllWellShaped(ParseFrom(tokens, at).nodes) && ParseFrom(tokens, at).ok
    decreases |tokens| - at
  {
    var start := TriviaEnd(tokens, at);
    RangeIsLeaves(tokens, at, start);
    if KindAt(tokens, start) != SyntaxKind.Eof {
      var item := ItemAt(tokens, at);
      assert item.errors == [] && StatementAt(tokens, start).ok;
      StatementIsWellShaped(tokens, start);
      ErrorFreeIsWellShaped(tokens, item.end);
    }
  }
}
