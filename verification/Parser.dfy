/** The resilient recursive-descent parser: a class that moves over its tokens and feeds a tree
    builder, proved to do at every position what the grammar says. */
module Parser {
  import opened Wrappers
  import opened SyntaxTree
  import opened Grammar
  import opened GrammarTheorems
  import Scripts
  import ScriptReading

  /** The part of the parser that its methods move. */
  datatype Progress = Progress(pos: nat, builder: Builder, errors: seq<ParseError>)

  /** What every parsing method promises: from s to t, exactly these nodes were added to the innermost
      open node, and exactly these errors to the list. */
  ghost predicate Added(s: Progress, nodes: seq<Node>, errors: seq<ParseError>, t: Progress) {
    t.builder == AddAll(s.builder, nodes) && t.errors == s.errors + errors
  }

  /** The tokens from s to t were added as leaves. */
  ghost predicate Took(tokens: seq<Token>, s: Progress, t: Progress) {
    s.pos <= t.pos <= |tokens| && Added(s, LeafRange(tokens, s.pos, t.pos), [], t)
  }

  lemma TookNothing(tokens: seq<Token>, s: Progress)
    requires s.pos <= |tokens|
    ensures Took(tokens, s, s)
  {
    AddNothing(s.builder);
    assert LeafRange(tokens, s.pos, s.pos) == [];
  }

  lemma StartsEmpty(s: Progress)
    ensures Added(s, [], [], s)
  {
    AddNothing(s.builder);
  }

  lemma AddedFurther(s: Progress, a: seq<Node>, e: seq<ParseError>, t: Progress, b: seq<Node>, f: seq<ParseError>, u: Progress)
    requires Added(s, a, e, t) && Added(t, b, f, u)
    ensures Added(s, a + b, e + f, u)
  {
    AddAllTwice(s.builder, a, b);
  }

  lemma LeafRangeSplit(tokens: seq<Token>, from: nat, mid: nat, end: nat)
    requires from <= mid <= end <= |tokens|
    ensures LeafRange(tokens, from, mid) + LeafRange(tokens, mid, end) == LeafRange(tokens, from, end)
  {
  }

  lemma TookFurther(tokens: seq<Token>, s: Progress, t: Progress, u: Progress)
    requires Took(tokens, s, t) && Took(tokens, t, u)
    ensures Took(tokens, s, u)
  {
    AddedFurther(s, LeafRange(tokens, s.pos, t.pos), [], t, LeafRange(tokens, t.pos, u.pos), [], u);
    LeafRangeSplit(tokens, s.pos, t.pos, u.pos);
  }

  lemma TookOne(tokens: seq<Token>, s: Progress, t: Progress)
    requires s.pos < |tokens| && t.pos == s.pos + 1 && t.errors == s.errors
    requires t.builder == AddAll(s.builder, [LeafOf(tokens[s.pos])])
    ensures Took(tokens, s, t)
  {
    assert LeafRange(tokens, s.pos, t.pos) == [LeafOf(tokens[s.pos])];
    assert s.errors + [] == s.errors;
  }

  /** With a new open node. */
  function Opened(s: Progress, kind: SyntaxKind): Progress {
    s.(builder := Open(kind, [], s.builder))
  }

  /** What was added inside a node that was opened at s and is closed now. */
  lemma AddedNode(s: Progress, kind: SyntaxKind, inner: seq<Node>, errors: seq<ParseError>, t: Progress)
    requires Added(Opened(s, kind), inner, errors, t)
    ensures t.builder == Open(kind, inner, s.builder)
    ensures Added(s, [Tree(kind, inner)], errors, t.(builder := AddAll(s.builder, [Tree(kind, inner)])))
  {
    assert [] + inner == inner;
  }

  lemma RootIsWhole(tokens: seq<Token>)
    ensures var p := ParseFrom(tokens, 0);
            && Leaves(Tree(Root, p.nodes)) == Lexemes(tokens[..EofFrom(tokens, 0)]) && p.end == EofFrom(tokens, 0)
            && (Terminated(tokens) ==> EofFrom(tokens, 0) == |tokens| - 1)
            && (p.errors == [] <==> ScriptReading.IsScript(tokens, 0, EofFrom(tokens, 0)))
            && (p.errors == [] ==> WellShaped(Tree(Root, p.nodes)))
  {
    LeavesAreTokens(tokens);
    ScriptReading.ErrorFreeIff(tokens, 0);
    if Terminated(tokens) {
      EndOfTerminated(tokens);
    }
    RootIsWellShaped(tokens);
  }

  lemma LeavesAreTokens(tokens: seq<Token>)
    ensures Leaves(Tree(Root, ParseFrom(tokens, 0).nodes)) == Lexemes(tokens[..EofFrom(tokens, 0)])
    ensures ParseFrom(tokens, 0).end == EofFrom(tokens, 0)
  {
    ParseIsLossless(tokens, 0);
    ParseEndsAtEof(tokens, 0);
    LexemesFromStart(tokens, EofFrom(tokens, 0));
  }

  lemma RootIsWellShaped(tokens: seq<Token>)
    ensures ParseFrom(tokens, 0).errors == [] ==> WellShaped(Tree(Root, ParseFrom(tokens, 0).nodes))
  {
    if ParseFrom(tokens, 0).errors == [] {
      ErrorFreeIsWellShaped(tokens, 0);
    }
  }

  class Parser {
    const tokens: seq<Token>
    var pos: nat
    var builder: Builder
    var errors: seq<ParseError>

    ghost function Now(): Progress
      reads this
    {
      Progress(pos, builder, errors)
    }

    ghost predicate Ready()
      reads this`pos
    {
      pos <= |tokens|
    }

    /** The builder starts with its list of finished nodes, which is empty. */
    constructor (tokens: seq<Token>)
      ensures this.tokens == tokens && Now() == Progress(0, Finished([]), [])
    {
      this.tokens := tokens;
      pos, builder, errors := 0, Finished([]), [];
    }

    // ---- Looking at the tokens ----

    function Current(): SyntaxKind
      reads this`pos
    {
      if pos < |tokens| then tokens[pos].kind else SyntaxKind.Eof
    }

    predicate At(kind: SyntaxKind)
      reads this`pos
    {
      Current() == kind
    }

    predicate AtEof()
      reads this`pos
    {
      pos >= |tokens| || At(SyntaxKind.Eof)
    }

    /** Whether an assignment operator follows the name at the current position. */
    method IsAssignmentAhead() returns (ahead: bool)
      ensures ahead == AssignmentAhead(tokens, pos + 1)
    {
      var lookahead := pos + 1;
      ghost var goal := AssignmentAhead(tokens, pos + 1);
      while lookahead < |tokens|
        invariant goal == AssignmentAhead(tokens, lookahead)
        decreases |tokens| - lookahead
      {
        var kind := tokens[lookahead].kind;
        AheadStep(tokens, lookahead, lookahead + 1);
        if kind == Whitespace {
          lookahead := lookahead + 1;
        } else if kind == Colon || kind == ColonAppend || kind == ColonPrepend || kind == ColonRemove {
          lookahead := lookahead + 1;
        } else if kind == SyntaxKind.Ident {
          lookahead := lookahead + 1;
        } else if kind == LBracket {
          lookahead := SkipFlag(lookahead + 1);
        } else {
          return kind.IsAssignmentOp();
        }
      }
      return false;
    }

    method SkipFlag(open: nat) returns (lookahead: nat)
      requires open <= |tokens|
      ensures lookahead == AfterBracket(tokens, open) && open <= lookahead
    {
      lookahead := open;
      while lookahead < |tokens| && tokens[lookahead].kind != RBracket
        invariant open <= lookahead <= |tokens|
        invariant AfterBracket(tokens, open) == AfterBracket(tokens, lookahead)
      {
        lookahead := lookahead + 1;
      }
      if lookahead < |tokens| {
        lookahead := lookahead + 1;
      }
    }

    // ---- The builder ----

    method StartNode(kind: SyntaxKind)
      modifies this`builder
      ensures Now() == Opened(old(Now()), kind)
    {
      builder := Open(kind, [], builder);
    }

    /** Opens a node; `open` is the state right after. */
    method OpenNode(kind: SyntaxKind) returns (ghost open: Progress)
      requires Ready()
      modifies this`builder
      ensures open == Now() && open == Opened(old(Now()), kind) && Took(tokens, open, open)
    {
      StartNode(kind);
      open := Now();
      TookNothing(tokens, open);
    }

    /** The innermost open node becomes a child of the one around it. */
    method FinishNode()
      requires builder.Open?
      modifies this`builder
      ensures builder == AddAll(old(builder).outer, [Tree(old(builder).kind, old(builder).children)])
    {
      var node := Tree(builder.kind, builder.children);
      builder := builder.outer;
      AddToOpenNode(node);
    }

    method AddToOpenNode(node: Node)
      modifies this`builder
      ensures builder == AddAll(old(builder), [node])
    {
      match builder {
        case Finished(nodes) => builder := Finished(nodes + [node]);
        case Open(kind, children, outer) => builder := Open(kind, children + [node], outer);
      }
    }

    /** Closes the node that was opened at s and holds `inner`. */
    method CloseNode(ghost s: Progress, ghost kind: SyntaxKind, ghost inner: seq<Node>, ghost found: seq<ParseError>)
      requires Added(Opened(s, kind), inner, found, Now())
      modifies this`builder
      ensures Added(s, [Tree(kind, inner)], found, Now())
    {
      AddedNode(s, kind, inner, found, Now());
      FinishNode();
    }

    /** Closes a node that holds just the tokens since it was opened. */
    method CloseLeaves(ghost s: Progress, ghost kind: SyntaxKind)
      requires Took(tokens, Opened(s, kind), Now())
      modifies this`builder
      ensures Added(s, [Tree(kind, LeafRange(tokens, s.pos, pos))], [], Now())
    {
      CloseNode(s, kind, LeafRange(tokens, s.pos, pos), []);
    }

    // ---- Consuming tokens ----

    /** Never called at EOF. */
    method Bump()
      requires Ready() && !AtEof()
      modifies this`pos, this`builder
      ensures Took(tokens, old(Now()), Now()) && pos == old(pos) + 1
    {
      if pos < |tokens| {
        var token := tokens[pos];
        AddToOpenNode(LeafOf(token));
        pos := pos + 1;
      }
      TookOne(tokens, old(Now()), Now());
    }

    /** Bump, as a step of a stretch that began at s. */
    method BumpOn(ghost s: Progress)
      requires Ready() && !AtEof() && Took(tokens, s, Now())
      modifies this`pos, this`builder
      ensures Took(tokens, s, Now()) && pos == old(pos) + 1
    {
      Bump();
      TookFurther(tokens, s, old(Now()), Now());
    }

    method BumpIf(kind: SyntaxKind, ghost s: Progress)
      requires Ready() && kind != SyntaxKind.Eof && Took(tokens, s, Now())
      modifies this`pos, this`builder
      ensures Took(tokens, s, Now()) && pos == OptionalEnd(tokens, old(pos), kind)
    {
      if At(kind) {
        BumpOn(s);
      }
    }

    method SkipWhitespaceInline(ghost s: Progress)
      requires Ready() && Took(tokens, s, Now())
      modifies this`pos, this`builder
      ensures Took(tokens, s, Now()) && pos == BlankEnd(tokens, old(pos))
    {
      while At(Whitespace)
        invariant Ready() && Took(tokens, s, Now())
        invariant BlankEnd(tokens, pos) == BlankEnd(tokens, old(pos))
        decreases |tokens| - pos
      {
        BumpOn(s);
      }
    }

    method SkipTrivia()
      requires Ready()
      modifies this`pos, this`builder
      ensures Took(tokens, old(Now()), Now()) && pos == TriviaEnd(tokens, old(pos))
    {
      TookNothing(tokens, Now());
      while Current().IsTrivia()
        invariant Ready() && Took(tokens, old(Now()), Now())
        invariant TriviaEnd(tokens, pos) == TriviaEnd(tokens, old(pos))
        decreases |tokens| - pos
      {
        BumpOn(old(Now()));
      }
    }

    method ReportError(message: ErrorKind)
      modifies this`errors
      ensures errors == old(errors) + [ErrorAt(tokens, pos, message)]
    {
      var error := if pos < |tokens| then ParseError(message, tokens[pos].spanStart, tokens[pos].spanEnd)
                   else ParseError(message, 0, 0);
      errors := errors + [error];
    }

    method Expect(kind: SyntaxKind) returns (ok: bool)
      requires Ready() && kind != SyntaxKind.Eof
      modifies this`pos, this`builder, this`errors
      ensures ok <==> old(At(kind))
      ensures ok ==> Took(tokens, old(Now()), Now()) && pos == old(pos) + 1
      ensures !ok ==> Now() == old(Now()).(errors := old(errors) + [ErrorAt(tokens, pos, Expected(kind, Current()))])
    {
      if At(kind) {
        Bump();
        ok := true;
      } else {
        ReportError(Expected(kind, Current()));
        ok := false;
      }
    }

    // ---- Statements ----

    /** The whole parse: the builder ends with one finished root node, which holds what the grammar
        makes of the tokens, and the errors are those of the grammar.  The leaves of the root are
        exactly the tokens before EOF; there is no error exactly if these tokens are a script, and
        then every node is well shaped. */
    method ParseRoot() returns (root: Node)
      requires Now() == Progress(0, Finished([]), [])
      modifies this
      ensures builder == Finished([root])
      ensures root == Tree(Root, ParseFrom(tokens, 0).nodes)
      ensures errors == ParseFrom(tokens, 0).errors && pos == ParseFrom(tokens, 0).end
      ensures Leaves(root) == Lexemes(tokens[..EofFrom(tokens, 0)]) && pos == EofFrom(tokens, 0)
      ensures Terminated(tokens) ==> Leaves(root) == Lexemes(tokens[..|tokens| - 1])
      ensures errors == [] <==> ScriptReading.IsScript(tokens, 0, EofFrom(tokens, 0))
      ensures errors == [] ==> WellShaped(root)
    {
      root := RootNode();
      RootIsWhole(tokens);
    }

    method RootNode() returns (root: Node)
      requires Now() == Progress(0, Finished([]), [])
      modifies this
      ensures builder == Finished([root]) && root == Tree(Root, ParseFrom(tokens, 0).nodes)
      ensures errors == ParseFrom(tokens, 0).errors && pos == ParseFrom(tokens, 0).end
    {
      ghost var start, parsed := Now(), ParseFrom(tokens, 0);
      StartNode(Root);
      Statements();
      CloseNode(start, Root, parsed.nodes, parsed.errors);
      assert [] + [Tree(Root, parsed.nodes)] == [Tree(Root, parsed.nodes)] && [] + parsed.errors == parsed.errors;
      root := builder.nodes[0];
    }

    method Statements()
      requires Ready()
      modifies this
      ensures var p := ParseFrom(tokens, old(pos));
              pos == p.end && Added(old(Now()), p.nodes, p.errors, Now())
    {
      ghost var s, nodes, found := Now(), [], [];
      ghost var goal := ParseFrom(tokens, pos);
      StartsEmpty(s);
      assert [] + goal.nodes == goal.nodes && [] + goal.errors == goal.errors;
      var more := true;
      while more && !AtEof()
        invariant Ready() && Added(s, nodes, found, Now())
        invariant GoesOn(tokens, goal, nodes, found, pos)
        invariant !more ==> AtEof()
        decreases more, |tokens| - pos
      {
        ghost var before, item := Now(), ItemAt(tokens, pos);
        more := TriviaAndStatement();
        AddedFurther(s, nodes, found, before, item.nodes, item.errors, Now());
        GoesOnAfter(tokens, goal, nodes, found, before.pos, item);
        nodes, found := nodes + item.nodes, found + item.errors;
      }
      EndsHere(tokens, goal, nodes, found, pos);
    }

    /** One turn of the loop: false at the end of the tokens. */
    method TriviaAndStatement() returns (more: bool)
      requires Ready()
      modifies this
      ensures var p := ItemAt(tokens, old(pos));
              pos == p.end && Added(old(Now()), p.nodes, p.errors, Now())
      ensures more <==> KindAt(tokens, TriviaEnd(tokens, old(pos))) != SyntaxKind.Eof
      ensures !more ==> AtEof()
    {
      ghost var s := Now();
      SkipTrivia();
      if AtEof() {
        return false;
      }
      ghost var middle, p := Now(), StatementOrErrorAt(tokens, pos);
      StatementOrError();
      AddedFurther(s, LeafRange(tokens, s.pos, middle.pos), [], middle, p.nodes, p.errors, Now());
      assert [] + p.errors == p.errors;
      return true;
    }

    method StatementOrError()
      requires Ready() && !AtEof()
      modifies this
      ensures var p := StatementOrErrorAt(tokens, old(pos));
              pos == p.end && Added(old(Now()), p.nodes, p.errors, Now())
    {
      ghost var s, p := Now(), StatementAt(tokens, pos);
      var ok := Statement();
      if !ok {
        ghost var failed := Now();
        var token := if pos < |tokens| then Some(tokens[pos]) else None;
        ReportError(UnexpectedToken(token));
        ghost var reported := Now();
        Reported(failed, errors[|errors| - 1], reported);
        AddedFurther(s, p.nodes, p.errors, failed, [], [errors[|errors| - 1]], reported);
        AdvanceWithError();
        ghost var skipped := [Tree(SyntaxKind.Error, LeafRange(tokens, p.end, pos))];
        AddedFurther(s, p.nodes + [], p.errors + [errors[|errors| - 1]], reported, skipped, [], Now());
        SameLists(p.nodes, skipped, p.errors, [errors[|errors| - 1]]);
      }
    }

    /** True for a recognised statement: one that begins with a keyword, a comment or a newline, or an
        assignment whose operator is there.  False means that an error was reported, or that nothing
        was done because no statement starts here. */
    method Statement() returns (ok: bool)
      requires Ready() && !AtEof()
      modifies this
      ensures var p := StatementAt(tokens, old(pos));
              ok == p.ok && pos == p.end && Added(old(Now()), p.nodes, p.errors, Now())
      ensures ok <==> ScriptReading.Recognised(tokens, old(pos))
    {
      ScriptReading.StatementIff(tokens, pos);
      var kind := Current();
      ok := true;
      StartsEmpty(Now());
      if kind == InheritKw {
        InheritStatement();
      } else if kind == IncludeKw {
        IncludeStatement();
      } else if kind == RequireKw {
        RequireStatement();
      } else if kind == ExportKw {
        ExportStatement();
      } else if kind == PythonKw || kind == DefKw {
        FunctionDefinition();
      } else if kind == SyntaxKind.Ident {
        ok := AssignmentIfAhead();
      } else if kind == SyntaxKind.Comment || kind == Newline {
        Bump();
      } else {
        ok := false;
      }
    }

    /** A name is the beginning of an assignment or of nothing. */
    method AssignmentIfAhead() returns (ok: bool)
      requires Ready() && At(SyntaxKind.Ident)
      modifies this
      ensures var p := NameStatementAt(tokens, old(pos));
              ok == p.ok && pos == p.end && Added(old(Now()), p.nodes, p.errors, Now())
    {
      StartsEmpty(Now());
      var ahead := IsAssignmentAhead();
      if ahead {
        ok := Assignment();
      } else {
        ok := false;
      }
    }

    method Assignment() returns (ok: bool)
      requires Ready() && At(SyntaxKind.Ident)
      modifies this
      ensures var p := AssignmentAt(tokens, old(pos));
              ok == p.ok && pos == p.end && Added(old(Now()), p.nodes, p.errors, Now())
    {
      ghost var s, p := Now(), AssignmentAt(tokens, pos);
      StartNode(VariableAssignment);
      ok := AssignmentContents();
      CloseNode(s, VariableAssignment, p.nodes[0].children, p.errors);
    }

    /** What an assignment node holds. */
    method AssignmentContents() returns (ok: bool)
      requires Ready() && At(SyntaxKind.Ident)
      modifies this
      ensures var p := AssignmentAt(tokens, old(pos));
              ok == p.ok && pos == p.end && Added(old(Now()), p.nodes[0].children, p.errors, Now())
    {
      ghost var s, n := Now(), NameEnd(tokens, pos);
      ghost var found := FlagErrors(tokens, OverridesEnd(tokens, pos + 1));
      ghost var name := NameNodeAt(tokens, pos);
      VariableNameNode();
      ghost var named := Now();
      TookNothing(tokens, named);
      SkipWhitespaceInline(named);
      if !Current().IsAssignmentOp() {
        NoOperator(s, name, found, named);
        return false;
      }
      OperatorThenValue(named);
      AddedFurther(s, [name], found, named, OperatorAndValue(tokens, n, ValueStart(tokens, n), pos), [], Now());
      assert found + [] == found;
      return true;
    }

    method NoOperator(ghost s: Progress, ghost name: Node, ghost found: seq<ParseError>, ghost named: Progress)
      requires Ready() && Added(s, [name], found, named) && Took(tokens, named, Now())
      modifies this`errors
      ensures Added(s, [name] + LeafRange(tokens, named.pos, pos),
                    found + [ErrorAt(tokens, pos, ExpectedAssignmentOperator(Current()))], Now())
    {
      AddedFurther(s, [name], found, named, LeafRange(tokens, named.pos, pos), [], Now());
      ReportError(ExpectedAssignmentOperator(Current()));
      assert (s.errors + (found + [])) + [errors[|errors| - 1]] == s.errors + (found + [errors[|errors| - 1]]);
    }

    /** From the end of the name at `named`, past the whitespace after it, over operator and value. */
    method OperatorThenValue(ghost named: Progress)
      requires Ready() && Took(tokens, named, Now()) && pos == BlankEnd(tokens, named.pos) && Current().IsAssignmentOp()
      modifies this`pos, this`builder
      ensures var v := ValueStart(tokens, named.pos);
              pos == ValueEnd(tokens, v) && Added(named, OperatorAndValue(tokens, named.pos, v, pos), [], Now())
    {
      OperatorAndBlanks(named);
      ghost var start := Now();
      VariableValueNode();
      AddedFurther(named, LeafRange(tokens, named.pos, start.pos), [], start,
                   [Tree(VariableValue, LeafRange(tokens, start.pos, pos))], [], Now());
    }

    method OperatorAndBlanks(ghost named: Progress)
      requires Ready() && Took(tokens, named, Now()) && pos == BlankEnd(tokens, named.pos) && Current().IsAssignmentOp()
      modifies this`pos, this`builder
      ensures Took(tokens, named, Now()) && pos == ValueStart(tokens, named.pos)
    {
      BumpOn(named);
      SkipWhitespaceInline(named);
    }

    /** The name with its overrides and flag. */
    method VariableNameNode()
      requires Ready() && At(SyntaxKind.Ident)
      modifies this
      ensures pos == NameEnd(tokens, old(pos))
      ensures Added(old(Now()), [NameNodeAt(tokens, old(pos))], FlagErrors(tokens, OverridesEnd(tokens, old(pos) + 1)), Now())
    {
      ghost var s, next := Now(), pos + 1;
      ghost var found := FlagErrors(tokens, OverridesEnd(tokens, next));
      assert NameEnd(tokens, s.pos) == FlagEnd(tokens, OverridesEnd(tokens, next));
      ghost var open := OpenNode(VariableName);
      NameContents(open, next);
      CloseNode(s, VariableName, LeafRange(tokens, s.pos, pos), found);
    }

    method NameContents(ghost s: Progress, ghost next: nat)
      requires Ready() && At(SyntaxKind.Ident) && s == Now() && Took(tokens, s, s) && next == pos + 1
      modifies this`pos, this`builder, this`errors
      ensures pos == FlagEnd(tokens, OverridesEnd(tokens, next)) && s.pos <= pos
      ensures Added(s, LeafRange(tokens, s.pos, pos), FlagErrors(tokens, OverridesEnd(tokens, next)), Now())
    {
      BumpOn(s);
      assert pos == next;
      Overrides(s);
      Flag(s);
    }

    method Overrides(ghost s: Progress)
      requires Ready() && Took(tokens, s, Now())
      modifies this`pos, this`builder
      ensures Took(tokens, s, Now()) && pos == OverridesEnd(tokens, old(pos))
    {
      while Current().IsOverride()
        invariant Ready() && Took(tokens, s, Now())
        invariant OverridesEnd(tokens, pos) == OverridesEnd(tokens, old(pos))
        decreases |tokens| - pos
      {
        BumpOn(s);
        BumpIf(SyntaxKind.Ident, s);
      }
    }

    method Flag(ghost s: Progress)
      requires Ready() && Took(tokens, s, Now())
      modifies this`pos, this`builder, this`errors
      ensures pos == FlagEnd(tokens, old(pos)) && s.pos <= pos
      ensures Added(s, LeafRange(tokens, s.pos, pos), FlagErrors(tokens, old(pos)), Now())
    {
      if At(LBracket) {
        FlagName(s);
        ghost var named := Now();
        var closed := Expect(RBracket);
        if closed {
          TookFurther(tokens, s, named, Now());
        } else {
          assert s.errors + [] == s.errors;
        }
      }
    }

    method FlagName(ghost s: Progress)
      requires Ready() && Took(tokens, s, Now()) && At(LBracket)
      modifies this`pos, this`builder
      ensures Took(tokens, s, Now()) && pos == FlagNameEnd(tokens, old(pos))
    {
      BumpOn(s);
      if At(SyntaxKind.Ident) || At(SyntaxKind.String) {
        BumpOn(s);
      }
    }

    /** The value runs to the end of the line; only a backslash continues it on the next line. */
    method VariableValueNode()
      requires Ready()
      modifies this`pos, this`builder
      ensures pos == ValueEnd(tokens, old(pos))
      ensures Added(old(Now()), [Tree(VariableValue, LeafRange(tokens, old(pos), pos))], [], Now())
    {
      ghost var s := Now();
      ghost var open := OpenNode(VariableValue);
      Value(open);
      CloseLeaves(s, VariableValue);
    }

    method Value(ghost s: Progress)
      requires Ready() && s == Now() && Took(tokens, s, s)
      modifies this`pos, this`builder
      ensures Took(tokens, s, Now()) && pos == ValueEnd(tokens, s.pos)
    {
      var more := true;
      while more
        invariant Ready() && Took(tokens, s, Now())
        invariant ValueEnd(tokens, s.pos) == ValueEnd(tokens, pos)
        invariant !more ==> pos == ValueEnd(tokens, pos)
        decreases more, |tokens| - pos
      {
        more := ValueToken(s);
      }
    }

    /** One turn of the loop over a value: false when the value ends. */
    method ValueToken(ghost s: Progress) returns (more: bool)
      requires Ready() && Took(tokens, s, Now())
      modifies this`pos, this`builder
      ensures Took(tokens, s, Now()) && old(pos) <= pos && (more ==> old(pos) < pos)
      ensures ValueEnd(tokens, old(pos)) == ValueEnd(tokens, pos)
      ensures !more ==> pos == ValueEnd(tokens, pos)
    {
      var kind := Current();
      if kind == Backslash {
        BumpOn(s);
        BumpIf(Newline, s);
        more := true;
      } else if kind == Newline || kind == SyntaxKind.Eof {
        more := false;
      } else {
        BumpOn(s);
        more := !At(Newline);
      }
    }

    method InheritStatement()
      requires Ready() && At(InheritKw)
      modifies this`pos, this`builder
      ensures pos == InheritEnd(tokens, old(pos))
      ensures Added(old(Now()), [Tree(InheritStmt, LeafRange(tokens, old(pos), pos))], [], Now())
    {
      ghost var s, next := Now(), pos + 1;
      assert InheritEnd(tokens, s.pos) == ClassesEnd(tokens, BlankEnd(tokens, next));
      ghost var open := OpenNode(InheritStmt);
      InheritContents(open, next);
      CloseLeaves(s, InheritStmt);
    }

    /** The keyword and the class names. */
    method InheritContents(ghost s: Progress, ghost next: nat)
      requires Ready() && At(InheritKw) && s == Now() && Took(tokens, s, s) && next == pos + 1
      modifies this`pos, this`builder
      ensures Took(tokens, s, Now()) && pos == ClassesEnd(tokens, BlankEnd(tokens, next))
    {
      BumpOn(s);
      assert pos == next;
      SkipWhitespaceInline(s);
      ClassNames(s);
    }

    method ClassNames(ghost s: Progress)
      requires Ready() && Took(tokens, s, Now())
      modifies this`pos, this`builder
      ensures Took(tokens, s, Now()) && pos == ClassesEnd(tokens, old(pos))
    {
      while At(SyntaxKind.Ident)
        invariant Ready() && Took(tokens, s, Now())
        invariant ClassesEnd(tokens, pos) == ClassesEnd(tokens, old(pos))
        decreases |tokens| - pos
      {
        BumpOn(s);
        SkipWhitespaceInline(s);
      }
    }

    method IncludeStatement()
      requires Ready() && At(IncludeKw)
      modifies this`pos, this`builder
      ensures pos == PathEnd(tokens, old(pos))
      ensures Added(old(Now()), [Tree(IncludeStmt, LeafRange(tokens, old(pos), pos))], [], Now())
    {
      ghost var s, next := Now(), pos + 1;
      assert PathEnd(tokens, s.pos) == LineEnd(tokens, next);
      ghost var open := OpenNode(IncludeStmt);
      LineContents(open, next);
      CloseLeaves(s, IncludeStmt);
    }

    method RequireStatement()
      requires Ready() && At(RequireKw)
      modifies this`pos, this`builder
      ensures pos == PathEnd(tokens, old(pos))
      ensures Added(old(Now()), [Tree(RequireStmt, LeafRange(tokens, old(pos), pos))], [], Now())
    {
      ghost var s, next := Now(), pos + 1;
      assert PathEnd(tokens, s.pos) == LineEnd(tokens, next);
      ghost var open := OpenNode(RequireStmt);
      LineContents(open, next);
      CloseLeaves(s, RequireStmt);
    }

    /** The keyword and everything up to the end of the line. */
    method LineContents(ghost s: Progress, ghost next: nat)
      requires Ready() && !AtEof() && s == Now() && Took(tokens, s, s) && next == pos + 1
      modifies this`pos, this`builder
      ensures Took(tokens, s, Now()) && pos == LineEnd(tokens, next)
    {
      BumpOn(s);
      assert pos == next;
      SkipWhitespaceInline(s);
      BlankThenLine(tokens, next);
      UntilLineEnd(s);
    }

    method UntilLineEnd(ghost s: Progress)
      requires Ready() && Took(tokens, s, Now())
      modifies this`pos, this`builder
      ensures Took(tokens, s, Now()) && pos == LineEnd(tokens, old(pos))
    {
      while !AtEof() && !At(Newline)
        invariant Ready() && Took(tokens, s, Now())
        invariant LineEnd(tokens, pos) == LineEnd(tokens, old(pos))
        decreases |tokens| - pos
      {
        BumpOn(s);
      }
    }

    method ExportStatement()
      requires Ready() && At(ExportKw)
      modifies this`pos, this`builder
      ensures pos == ExportEnd(tokens, old(pos))
      ensures Added(old(Now()), [Tree(ExportStmt, LeafRange(tokens, old(pos), pos))], [], Now())
    {
      ghost var s, next := Now(), pos + 1;
      assert ExportEnd(tokens, s.pos) == OptionalEnd(tokens, BlankEnd(tokens, next), SyntaxKind.Ident);
      ghost var open := OpenNode(ExportStmt);
      ExportContents(open, next);
      CloseLeaves(s, ExportStmt);
    }

    method ExportContents(ghost s: Progress, ghost next: nat)
      requires Ready() && At(ExportKw) && s == Now() && Took(tokens, s, s) && next == pos + 1
      modifies this`pos, this`builder
      ensures Took(tokens, s, Now()) && pos == OptionalEnd(tokens, BlankEnd(tokens, next), SyntaxKind.Ident)
    {
      BumpOn(s);
      assert pos == next;
      SkipWhitespaceInline(s);
      BumpIf(SyntaxKind.Ident, s);
    }

    method FunctionDefinition()
      requires Ready() && (At(PythonKw) || At(DefKw))
      modifies this`pos, this`builder
      ensures pos == FunctionEnd(tokens, old(pos))
      ensures Added(old(Now()), [Tree(ShellFunction, LeafRange(tokens, old(pos), pos))], [], Now())
    {
      ghost var s, next := Now(), pos + 1;
      assert FunctionEnd(tokens, s.pos) == AfterKeywordEnd(tokens, next);
      ghost var open := OpenNode(ShellFunction);
      FunctionContents(open, next);
      CloseLeaves(s, ShellFunction);
    }

    method FunctionContents(ghost s: Progress, ghost next: nat)
      requires Ready() && (At(PythonKw) || At(DefKw)) && s == Now() && Took(tokens, s, s) && next == pos + 1
      modifies this`pos, this`builder
      ensures Took(tokens, s, Now()) && pos == AfterKeywordEnd(tokens, next)
    {
      BumpOn(s);
      assert pos == next;
      AfterKeyword(s);
    }

    method AfterKeyword(ghost s: Progress)
      requires Ready() && Took(tokens, s, Now())
      modifies this`pos, this`builder
      ensures Took(tokens, s, Now()) && pos == AfterKeywordEnd(tokens, old(pos))
    {
      FunctionName(s);
      SignatureAndBody(s);
    }

    method FunctionName(ghost s: Progress)
      requires Ready() && Took(tokens, s, Now())
      modifies this`pos, this`builder
      ensures Took(tokens, s, Now()) && pos == FunctionNameEnd(tokens, old(pos))
    {
      SkipWhitespaceInline(s);
      BumpIf(SyntaxKind.Ident, s);
    }

    method SignatureAndBody(ghost s: Progress)
      requires Ready() && Took(tokens, s, Now())
      modifies this`pos, this`builder
      ensures Took(tokens, s, Now()) && pos == SignatureAndBodyEnd(tokens, old(pos))
    {
      SkipWhitespaceInline(s);
      Parameters(s);
      SkipWhitespaceInline(s);
      Body(s);
    }

    method Parameters(ghost s: Progress)
      requires Ready() && Took(tokens, s, Now())
      modifies this`pos, this`builder
      ensures Took(tokens, s, Now()) && pos == ParametersEnd(tokens, old(pos))
    {
      if At(LParen) {
        ghost var next := pos + 1;
        assert ParametersEnd(tokens, pos) == OptionalEnd(tokens, ParenEnd(tokens, next), RParen);
        BumpOn(s);
        assert pos == next;
        UntilParen(s);
        BumpIf(RParen, s);
      }
    }

    method UntilParen(ghost s: Progress)
      requires Ready() && Took(tokens, s, Now())
      modifies this`pos, this`builder
      ensures Took(tokens, s, Now()) && pos == ParenEnd(tokens, old(pos))
    {
      while !At(RParen) && !AtEof()
        invariant Ready() && Took(tokens, s, Now())
        invariant ParenEnd(tokens, pos) == ParenEnd(tokens, old(pos))
        decreases |tokens| - pos
      {
        BumpOn(s);
      }
    }

    method Body(ghost s: Progress)
      requires Ready() && Took(tokens, s, Now())
      modifies this`pos, this`builder
      ensures Took(tokens, s, Now()) && pos == BodyEnd(tokens, old(pos))
    {
      if At(LBrace) {
        ghost var next := pos + 1;
        assert BodyEnd(tokens, pos) == BracesEnd(tokens, next, 1);
        BumpOn(s);
        assert pos == next;
        UntilClosed(s);
      }
    }

    method UntilClosed(ghost s: Progress)
      requires Ready() && Took(tokens, s, Now())
      modifies this`pos, this`builder
      ensures Took(tokens, s, Now()) && pos == BracesEnd(tokens, old(pos), 1)
    {
      var depth := 1;
      while depth > 0 && !AtEof()
        invariant Ready() && Took(tokens, s, Now()) && depth >= 0
        invariant BracesEnd(tokens, pos, depth) == BracesEnd(tokens, old(pos), 1)
        decreases |tokens| - pos
      {
        ghost var next := pos + 1;
        BracesStep(tokens, pos, depth, next);
        if At(LBrace) {
          depth := depth + 1;
        } else if At(RBrace) {
          depth := depth - 1;
        }
        BumpOn(s);
        assert pos == next;
      }
    }

    /** Error recovery: up to and including the next newline, or up to a keyword that starts a line
        statement. */
    method AdvanceWithError()
      requires Ready()
      modifies this`pos, this`builder
      ensures pos == RecoveryEnd(tokens, old(pos))
      ensures Added(old(Now()), [Tree(SyntaxKind.Error, LeafRange(tokens, old(pos), pos))], [], Now())
    {
      ghost var s := Now();
      ghost var open := OpenNode(SyntaxKind.Error);
      SkippedContents(open);
      CloseLeaves(s, SyntaxKind.Error);
    }

    method SkippedContents(ghost s: Progress)
      requires Ready() && s == Now() && Took(tokens, s, s)
      modifies this`pos, this`builder
      ensures Took(tokens, s, Now()) && pos == RecoveryEnd(tokens, s.pos)
    {
      while !AtEof()
        invariant Ready() && Took(tokens, s, Now())
        invariant RecoveryEnd(tokens, pos) == RecoveryEnd(tokens, s.pos)
        decreases |tokens| - pos
      {
        if At(Newline) {
          BumpOn(s);
          return;
        }
        if Current() == InheritKw || Current() == IncludeKw || Current() == RequireKw || Current() == ExportKw {
          return;
        }
        BumpOn(s);
      }
    }
  }

  lemma AheadStep(tokens: seq<Token>, at: nat, next: nat)
    requires at < |tokens| && next == at + 1
    ensures AssignmentAhead(tokens, at)
            == if SkippedAhead(tokens[at].kind) then AssignmentAhead(tokens, next)
               else if tokens[at].kind == LBracket then AssignmentAhead(tokens, AfterBracket(tokens, next))
               else tokens[at].kind.IsAssignmentOp()
  {
  }

  lemma BracesStep(tokens: seq<Token>, at: nat, depth: nat, next: nat)
    requires KindAt(tokens, at) != SyntaxKind.Eof && depth > 0 && next == at + 1
    ensures BracesEnd(tokens, at, depth)
            == BracesEnd(tokens, next, if tokens[at].kind == LBrace then depth + 1
                                       else if tokens[at].kind == RBrace then depth - 1 else depth)
  {
  }

  lemma {:induction false} BlankThenLine(tokens: seq<Token>, at: nat)
    requires at <= |tokens|
    ensures LineEnd(tokens, BlankEnd(tokens, at)) == LineEnd(tokens, at)
    decreases |tokens| - at
  {
    if KindAt(tokens, at) == Whitespace {
      BlankThenLine(tokens, at + 1);
    }
  }

  /** After an error and nothing else. */
  lemma Reported(s: Progress, error: ParseError, t: Progress)
    requires t == s.(errors := s.errors + [error])
    ensures Added(s, [], [error], t)
  {
    AddNothing(s.builder);
  }

  lemma SameLists(nodes: seq<Node>, more: seq<Node>, errors: seq<ParseError>, error: seq<ParseError>)
    ensures (nodes + []) + more == nodes + more && (errors + error) + [] == errors + error
  {
  }

  // ---- The loop over the statements ----

  /** What is still to come completes the goal. */
  ghost predicate GoesOn(tokens: seq<Token>, goal: Parsed, nodes: seq<Node>, found: seq<ParseError>, pos: nat) {
    && pos <= |tokens|
    && var rest := ParseFrom(tokens, pos);
       goal.nodes == nodes + rest.nodes && goal.errors == found + rest.errors && goal.end == rest.end
  }

  lemma GoesOnAfter(tokens: seq<Token>, goal: Parsed, nodes: seq<Node>, found: seq<ParseError>, at: nat, item: Parsed)
    requires GoesOn(tokens, goal, nodes, found, at) && item == ItemAt(tokens, at)
    ensures GoesOn(tokens, goal, nodes + item.nodes, found + item.errors, item.end)
  {
    var rest := ParseFrom(tokens, item.end);
    if KindAt(tokens, TriviaEnd(tokens, at)) == SyntaxKind.Eof {
      NothingMore(tokens, item.end);
      Regroup(nodes, item.nodes, [], found, item.errors, []);
      assert item.nodes + [] == item.nodes && item.errors + [] == item.errors;
    } else {
      ParseStep(tokens, at, item, rest);
      Regroup(nodes, item.nodes, rest.nodes, found, item.errors, rest.errors);
    }
  }

  lemma Regroup(nodes: seq<Node>, more: seq<Node>, rest: seq<Node>,
                found: seq<ParseError>, errors: seq<ParseError>, others: seq<ParseError>)
    ensures nodes + (more + rest) == (nodes + more) + rest
    ensures found + (errors + others) == (found + errors) + others
  {
  }

  lemma EndsHere(tokens: seq<Token>, goal: Parsed, nodes: seq<Node>, found: seq<ParseError>, pos: nat)
    requires GoesOn(tokens, goal, nodes, found, pos) && KindAt(tokens, pos) == SyntaxKind.Eof
    ensures goal.nodes == nodes && goal.errors == found && goal.end == pos
  {
    NothingMore(tokens, pos);
    assert nodes + [] == nodes && found + [] == found;
  }
  // ---- Parsing undoes writing ----

  /** A script, written as tokens and parsed: no errors, and one node for every statement. */
  method ParseScript(parts: seq<Scripts.Part>, trailing: seq<Token>, eof: Token) returns (root: Node, errors: seq<ParseError>)
    requires Scripts.FitsScript(parts, trailing, SyntaxKind.Eof) && eof.kind == SyntaxKind.Eof
    ensures root == Tree(Root, Scripts.ChildrenOf(parts, trailing)) && errors == []
  {
    var written := Scripts.PrintScript(parts, trailing);
    var tokens := written + [eof];
    var parser := new Parser(tokens);
    root := parser.ParseRoot();
    errors := parser.errors;
    assert Scripts.Sits(tokens, 0, written, |written|);
    Scripts.ScriptIsRead(tokens, 0, parts, trailing, |written|);
  }
}
