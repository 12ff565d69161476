/** What the parser makes of the tokens from a position on: where each construct ends, the nodes it
    becomes and the errors it reports. */
module Grammar {
  import opened Wrappers
  import opened SyntaxTree

  datatype ErrorKind =
    | ExpectedAssignmentOperator(found: SyntaxKind)
    | Expected(kind: SyntaxKind, found: SyntaxKind)
    | UnexpectedToken(token: Option<Token>)

  datatype ParseError = ParseError(message: ErrorKind, spanStart: nat, spanEnd: nat)

  function KindAt(tokens: seq<Token>, at: nat): SyntaxKind {
    if at < |tokens| then tokens[at].kind else SyntaxKind.Eof
  }

  /** Errors point at the current token, or nowhere at the end of the list. */
  function ErrorAt(tokens: seq<Token>, at: nat, message: ErrorKind): ParseError {
    if at < |tokens| then ParseError(message, tokens[at].spanStart, tokens[at].spanEnd) else ParseError(message, 0, 0)
  }

  /** The tokens from one position up to another, each as a leaf. */
  function LeafRange(tokens: seq<Token>, from: nat, end: nat): (r: seq<Node>)
    requires from <= end <= |tokens|
    ensures |r| == end - from
  {
    seq(end - from, i requires 0 <= i < end - from => LeafOf(tokens[from + i]))
  }

  // ---- Runs of tokens ----

  /** Past whitespace. */
  function BlankEnd(tokens: seq<Token>, at: nat): (e: nat)
    requires at <= |tokens|
    ensures at <= e <= |tokens|
    decreases |tokens| - at
  {
    if KindAt(tokens, at) == Whitespace then BlankEnd(tokens, at + 1) else at
  }

  /** Past whitespace, comments and newlines. */
  function TriviaEnd(tokens: seq<Token>, at: nat): (e: nat)
    requires at <= |tokens|
    ensures at <= e <= |tokens| && !KindAt(tokens, e).IsTrivia()
    decreases |tokens| - at
  {
    if KindAt(tokens, at).IsTrivia() then TriviaEnd(tokens, at + 1) else at
  }

  /** The end of the line, or of the tokens. */
  function LineEnd(tokens: seq<Token>, at: nat): (e: nat)
    requires at <= |tokens|
    ensures at <= e <= |tokens|
    decreases |tokens| - at
  {
    if KindAt(tokens, at) == SyntaxKind.Eof || KindAt(tokens, at) == Newline then at else LineEnd(tokens, at + 1)
  }

  // ---- Assignments ----

  /** Past overrides, each with its name if it has one. */
  function OverridesEnd(tokens: seq<Token>, at: nat): (e: nat)
    requires at <= |tokens|
    ensures at <= e <= |tokens|
    decreases |tokens| - at
  {
    if !KindAt(tokens, at).IsOverride() then at
    else OverridesEnd(tokens, if KindAt(tokens, at + 1) == SyntaxKind.Ident then at + 2 else at + 1)
  }

  /** Past an opening bracket and the name of a flag: where the closing bracket is expected. */
  function FlagNameEnd(tokens: seq<Token>, at: nat): (e: nat)
    requires KindAt(tokens, at) == LBracket
    ensures at <= e <= |tokens|
  {
    if KindAt(tokens, at + 1) == SyntaxKind.Ident || KindAt(tokens, at + 1) == SyntaxKind.String then at + 2 else at + 1
  }

  function FlagEnd(tokens: seq<Token>, at: nat): (e: nat)
    requires at <= |tokens|
    ensures at <= e <= |tokens|
  {
    if KindAt(tokens, at) != LBracket then at
    else
      var close := FlagNameEnd(tokens, at);
      if KindAt(tokens, close) == RBracket then close + 1 else close
  }

  /** A flag without its closing bracket. */
  function FlagErrors(tokens: seq<Token>, at: nat): seq<ParseError>
    requires at <= |tokens|
  {
    if KindAt(tokens, at) != LBracket then []
    else
      var close := FlagNameEnd(tokens, at);
      if KindAt(tokens, close) == RBracket then []
      else [ErrorAt(tokens, close, Expected(RBracket, KindAt(tokens, close)))]
  }

  /** The name that begins at `at`, with its overrides and its flag. */
  function NameEnd(tokens: seq<Token>, at: nat): (e: nat)
    requires KindAt(tokens, at) == SyntaxKind.Ident
    ensures at < e <= |tokens|
  {
    FlagEnd(tokens, OverridesEnd(tokens, at + 1))
  }

  /** The end of a value: a newline continues it if a backslash comes right before. */
  function ValueEnd(tokens: seq<Token>, at: nat): (e: nat)
    requires at <= |tokens|
    ensures at <= e <= |tokens|
    decreases |tokens| - at
  {
    var kind := KindAt(tokens, at);
    if kind == SyntaxKind.Eof || kind == Newline then at
    else if kind == Backslash && KindAt(tokens, at + 1) == Newline then ValueEnd(tokens, at + 2)
    else ValueEnd(tokens, at + 1)
  }

  /** Nodes, errors and where they end; not ok if this is not a statement. */
  datatype Parsed = Parsed(ok: bool, nodes: seq<Node>, errors: seq<ParseError>, end: nat)

  function NameNodeAt(tokens: seq<Token>, at: nat): Node
    requires KindAt(tokens, at) == SyntaxKind.Ident
  {
    Tree(VariableName, LeafRange(tokens, at, NameEnd(tokens, at)))
  }

  /** The value after the name that ends at n, and after an operator. */
  function ValueStart(tokens: seq<Token>, n: nat): (v: nat)
    requires n <= |tokens| && KindAt(tokens, BlankEnd(tokens, n)).IsAssignmentOp()
    ensures n < v <= |tokens|
  {
    BlankEnd(tokens, BlankEnd(tokens, n) + 1)
  }

  function OperatorAndValue(tokens: seq<Token>, n: nat, v: nat, e: nat): seq<Node>
    requires n <= v <= e <= |tokens|
  {
    LeafRange(tokens, n, v) + [Tree(VariableValue, LeafRange(tokens, v, e))]
  }

  function AssignmentAt(tokens: seq<Token>, at: nat): (p: Parsed)
    requires KindAt(tokens, at) == SyntaxKind.Ident
    ensures at < p.end <= |tokens|
  {
    var n := NameEnd(tokens, at);
    var op := BlankEnd(tokens, n);
    var errors := FlagErrors(tokens, OverridesEnd(tokens, at + 1));
    if KindAt(tokens, op).IsAssignmentOp() then
      var v := ValueStart(tokens, n);
      var e := ValueEnd(tokens, v);
      Parsed(true, [Tree(VariableAssignment, [NameNodeAt(tokens, at)] + OperatorAndValue(tokens, n, v, e))], errors, e)
    else
      Parsed(false, [Tree(VariableAssignment, [NameNodeAt(tokens, at)] + LeafRange(tokens, n, op))],
             errors + [ErrorAt(tokens, op, ExpectedAssignmentOperator(KindAt(tokens, op)))], op)
  }

  // ---- The lookahead ----

  /** The tokens that the lookahead may skip over on its way to an assignment operator. */
  predicate SkippedAhead(kind: SyntaxKind) {
    kind == Whitespace || kind.IsOverride() || kind == SyntaxKind.Ident
  }

  /** Past the closing bracket of a flag, or at the end of the tokens. */
  function AfterBracket(tokens: seq<Token>, at: nat): (r: nat)
    requires at <= |tokens|
    ensures at <= r <= |tokens| && (at < |tokens| ==> at < r)
    decreases |tokens| - at
  {
    if at == |tokens| then at
    else if tokens[at].kind == RBracket then at + 1
    else AfterBracket(tokens, at + 1)
  }

  predicate AssignmentAhead(tokens: seq<Token>, at: nat)
    decreases |tokens| - at
  {
    if at >= |tokens| then false
    else if SkippedAhead(tokens[at].kind) then AssignmentAhead(tokens, at + 1)
    else if tokens[at].kind == LBracket then AssignmentAhead(tokens, AfterBracket(tokens, at + 1))
    else tokens[at].kind.IsAssignmentOp()
  }

  // ---- Lines and functions ----

  /** Past class names and the whitespace after them. */
  function ClassesEnd(tokens: seq<Token>, at: nat): (e: nat)
    requires at <= |tokens|
    ensures at <= e <= |tokens|
    decreases |tokens| - at
  {
    if KindAt(tokens, at) == SyntaxKind.Ident then ClassesEnd(tokens, BlankEnd(tokens, at + 1)) else at
  }

  function OptionalEnd(tokens: seq<Token>, at: nat, kind: SyntaxKind): (e: nat)
    requires at <= |tokens| && kind != SyntaxKind.Eof
    ensures at <= e <= |tokens|
  {
    if KindAt(tokens, at) == kind then at + 1 else at
  }

  /** The first closing parenthesis, or the end of the tokens. */
  function ParenEnd(tokens: seq<Token>, at: nat): (e: nat)
    requires at <= |tokens|
    ensures at <= e <= |tokens|
    decreases |tokens| - at
  {
    if KindAt(tokens, at) == RParen || KindAt(tokens, at) == SyntaxKind.Eof then at else ParenEnd(tokens, at + 1)
  }

  function ParametersEnd(tokens: seq<Token>, at: nat): (e: nat)
    requires at <= |tokens|
    ensures at <= e <= |tokens|
  {
    if KindAt(tokens, at) == LParen then OptionalEnd(tokens, ParenEnd(tokens, at + 1), RParen) else at
  }

  /** Past the brace that closes `depth` open ones. */
  function BracesEnd(tokens: seq<Token>, at: nat, depth: nat): (e: nat)
    requires at <= |tokens|
    ensures at <= e <= |tokens|
    decreases |tokens| - at
  {
    var kind := KindAt(tokens, at);
    if depth == 0 || kind == SyntaxKind.Eof then at
    else BracesEnd(tokens, at + 1, if kind == LBrace then depth + 1 else if kind == RBrace then depth - 1 else depth)
  }

  function BodyEnd(tokens: seq<Token>, at: nat): (e: nat)
    requires at <= |tokens|
    ensures at <= e <= |tokens|
  {
    if KindAt(tokens, at) == LBrace then BracesEnd(tokens, at + 1, 1) else at
  }

  function FunctionNameEnd(tokens: seq<Token>, at: nat): (e: nat)
    requires at <= |tokens|
    ensures at <= e <= |tokens|
  {
    OptionalEnd(tokens, BlankEnd(tokens, at), SyntaxKind.Ident)
  }

  /** From behind the name of a function. */
  function SignatureAndBodyEnd(tokens: seq<Token>, at: nat): (e: nat)
    requires at <= |tokens|
    ensures at <= e <= |tokens|
  {
    BodyEnd(tokens, BlankEnd(tokens, ParametersEnd(tokens, BlankEnd(tokens, at))))
  }

  /** From behind the keyword of a function. */
  function AfterKeywordEnd(tokens: seq<Token>, at: nat): (e: nat)
    requires at <= |tokens|
    ensures at <= e <= |tokens|
  {
    SignatureAndBodyEnd(tokens, FunctionNameEnd(tokens, at))
  }

  /** The end of the statement whose keyword is at `at`. */
  function InheritEnd(tokens: seq<Token>, at: nat): (e: nat)
    requires KindAt(tokens, at) == InheritKw
    ensures at < e <= |tokens|
  {
    ClassesEnd(tokens, BlankEnd(tokens, at + 1))
  }

  function PathEnd(tokens: seq<Token>, at: nat): (e: nat)
    requires KindAt(tokens, at) == IncludeKw || KindAt(tokens, at) == RequireKw
    ensures at < e <= |tokens|
  {
    LineEnd(tokens, at + 1)
  }

  function ExportEnd(tokens: seq<Token>, at: nat): (e: nat)
    requires KindAt(tokens, at) == ExportKw
    ensures at < e <= |tokens|
  {
    OptionalEnd(tokens, BlankEnd(tokens, at + 1), SyntaxKind.Ident)
  }

  function FunctionEnd(tokens: seq<Token>, at: nat): (e: nat)
    requires KindAt(tokens, at) == PythonKw || KindAt(tokens, at) == DefKw
    ensures at < e <= |tokens|
  {
    AfterKeywordEnd(tokens, at + 1)
  }

  // ---- Statements ----

  /** A statement that is one node over its tokens. */
  function Flat(tokens: seq<Token>, kind: SyntaxKind, at: nat, end: nat): (p: Parsed)
    requires at <= end <= |tokens|
  {
    Parsed(true, [Tree(kind, LeafRange(tokens, at, end))], [], end)
  }

  /** A name is the beginning of an assignment, or of nothing. */
  function NameStatementAt(tokens: seq<Token>, at: nat): (p: Parsed)
    requires KindAt(tokens, at) == SyntaxKind.Ident
    ensures at <= p.end <= |tokens| && (p.ok ==> at < p.end)
  {
    if AssignmentAhead(tokens, at + 1) then AssignmentAt(tokens, at) else Parsed(false, [], [], at)
  }

  function StatementAt(tokens: seq<Token>, at: nat): (p: Parsed)
    requires at <= |tokens|
    ensures at <= p.end <= |tokens| && (p.ok ==> at < p.end)
    ensures KindAt(tokens, at).StartsLineStatement() || KindAt(tokens, at) == Newline ==> p.ok
  {
    var kind := KindAt(tokens, at);
    if kind == InheritKw then Flat(tokens, InheritStmt, at, InheritEnd(tokens, at))
    else if kind == IncludeKw then Flat(tokens, IncludeStmt, at, PathEnd(tokens, at))
    else if kind == RequireKw then Flat(tokens, RequireStmt, at, PathEnd(tokens, at))
    else if kind == ExportKw then Flat(tokens, ExportStmt, at, ExportEnd(tokens, at))
    else if kind == PythonKw || kind == DefKw then Flat(tokens, ShellFunction, at, FunctionEnd(tokens, at))
    else if kind == SyntaxKind.Ident then NameStatementAt(tokens, at)
    else if kind == SyntaxKind.Comment || kind == Newline then Parsed(true, LeafRange(tokens, at, at + 1), [], at + 1)
    else Parsed(false, [], [], at)
  }

  /** Where error recovery stops: behind the next newline, or at a keyword that starts a line statement. */
  function RecoveryEnd(tokens: seq<Token>, at: nat): (e: nat)
    requires at <= |tokens|
    ensures at <= e <= |tokens|
    ensures KindAt(tokens, at) != SyntaxKind.Eof && !KindAt(tokens, at).StartsLineStatement() ==> at < e
    decreases |tokens| - at
  {
    var kind := KindAt(tokens, at);
    if kind == SyntaxKind.Eof || kind.StartsLineStatement() then at
    else if kind == Newline then at + 1
    else RecoveryEnd(tokens, at + 1)
  }

  /** A statement, or what recovery makes of something else. */
  function StatementOrErrorAt(tokens: seq<Token>, at: nat): (p: Parsed)
    requires at <= |tokens| && KindAt(tokens, at) != SyntaxKind.Eof
    ensures at < p.end <= |tokens| && (p.ok <==> StatementAt(tokens, at).ok)
  {
    var s := StatementAt(tokens, at);
    if s.ok then s
    else
      var e := RecoveryEnd(tokens, s.end);
      Parsed(false, s.nodes + [Tree(SyntaxKind.Error, LeafRange(tokens, s.end, e))],
             s.errors + [ErrorAt(tokens, s.end, UnexpectedToken(if s.end < |tokens| then Some(tokens[s.end]) else None))], e)
  }

  /** Trivia, and the statement after it if there is one. */
  function ItemAt(tokens: seq<Token>, at: nat): (p: Parsed)
    requires at <= |tokens|
    ensures at <= p.end <= |tokens|
    ensures KindAt(tokens, TriviaEnd(tokens, at)) != SyntaxKind.Eof ==> at < p.end
  {
    var start := TriviaEnd(tokens, at);
    var trivia := LeafRange(tokens, at, start);
    if KindAt(tokens, start) == SyntaxKind.Eof then Parsed(true, trivia, [], start)
    else
      var first := StatementOrErrorAt(tokens, start);
      Parsed(first.ok, trivia + first.nodes, first.errors, first.end)
  }

  /** Everything from a position up to EOF. */
  function ParseFrom(tokens: seq<Token>, at: nat): (p: Parsed)
    requires at <= |tokens|
    ensures at <= p.end <= |tokens| && KindAt(tokens, p.end) == SyntaxKind.Eof
    decreases |tokens| - at
  {
    var item := ItemAt(tokens, at);
    if KindAt(tokens, TriviaEnd(tokens, at)) == SyntaxKind.Eof then item
    else
      var rest := ParseFrom(tokens, item.end);
      Parsed(item.ok && rest.ok, item.nodes + rest.nodes, item.errors + rest.errors, rest.end)
  }
}
