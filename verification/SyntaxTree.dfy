/** Tokens, syntax trees and the tree builder of the resilient parser. */
module SyntaxTree {

  datatype SyntaxKind =
      // assignment operators
    | Eq | ColonEq | PlusEq | EqPlus | DotEq | EqDot | QuestionEq | QuestionQuestionEq
      // override syntax
    | ColonAppend | ColonPrepend | ColonRemove
      // keywords
    | InheritKw | IncludeKw | RequireKw | ExportKw | DefKw | PythonKw
      // literals and delimiters
    | Ident | String | VarExpansion | Comment
    | LParen | RParen | LBrace | RBrace | LBracket | RBracket
    | Semicolon | Colon | Backslash | Newline | Whitespace | ErrorToken
      // nodes
    | Root | VariableAssignment | VariableName | VariableValue
    | InheritStmt | IncludeStmt | RequireStmt | ExportStmt | ShellFunction
    | Error | Eof
  {
    predicate IsTrivia() {
      Whitespace? || Comment? || Newline?
    }

    predicate IsAssignmentOp() {
      Eq? || ColonEq? || PlusEq? || EqPlus? || DotEq? || EqDot? || QuestionEq? || QuestionQuestionEq?
    }

    predicate IsOverride() {
      Colon? || ColonAppend? || ColonPrepend? || ColonRemove?
    }

    /** Where error recovery stops without consuming anything. */
    predicate StartsLineStatement() {
      InheritKw? || IncludeKw? || RequireKw? || ExportKw?
    }
  }

  datatype Token = Token(kind: SyntaxKind, text: string, spanStart: nat, spanEnd: nat)

  datatype Lexeme = Lexeme(kind: SyntaxKind, text: string)

  datatype Node =
    | Leaf(kind: SyntaxKind, text: string)
    | Tree(kind: SyntaxKind, children: seq<Node>)

  function Leaves(n: Node): seq<Lexeme>
    decreases n, 1
  {
    match n
    case Leaf(kind, text) => [Lexeme(kind, text)]
    case Tree(_, children) => LeavesOf(children)
  }

  function LeavesOf(nodes: seq<Node>): seq<Lexeme>
    decreases nodes, 0
  {
    if nodes == [] then [] else Leaves(nodes[0]) + LeavesOf(nodes[1..])
  }

  lemma {:induction false} LeavesOfConcat(a: seq<Node>, b: seq<Node>)
    ensures LeavesOf(a + b) == LeavesOf(a) + LeavesOf(b)
  {
    if a == [] {
      assert a + b == b;
    } else {
      assert (a + b)[0] == a[0] && (a + b)[1..] == a[1..] + b;
      LeavesOfConcat(a[1..], b);
    }
  }

  lemma LeavesOfOne(n: Node)
    ensures LeavesOf([n]) == Leaves(n)
  {
    assert [n][1..] == [];
  }

  /** The tokens from one position up to another, as leaves of a tree would hold them. */
  function LexemesBetween(tokens: seq<Token>, from: nat, end: nat): seq<Lexeme>
    requires end <= |tokens|
  {
    if from >= end then []
    else LexemesBetween(tokens, from, end - 1) + [Lexeme(tokens[end - 1].kind, tokens[end - 1].text)]
  }

  lemma {:induction false} LexemesSplit(tokens: seq<Token>, from: nat, mid: nat, end: nat)
    requires from <= mid <= end <= |tokens|
    ensures LexemesBetween(tokens, from, end) == LexemesBetween(tokens, from, mid) + LexemesBetween(tokens, mid, end)
    decreases end
  {
    if mid < end {
      LexemesSplit(tokens, from, mid, end - 1);
    }
  }

  function Lexemes(tokens: seq<Token>): seq<Lexeme> {
    seq(|tokens|, i requires 0 <= i < |tokens| => Lexeme(tokens[i].kind, tokens[i].text))
  }

  lemma {:induction false} LexemesFromStart(tokens: seq<Token>, end: nat)
    requires end <= |tokens|
    ensures LexemesBetween(tokens, 0, end) == Lexemes(tokens[..end])
  {
    if end > 0 {
      LexemesFromStart(tokens, end - 1);
    }
  }

  function LeafOf(t: Token): Node {
    Leaf(t.kind, t.text)
  }

  ghost predicate IsWhitespaceLeaf(n: Node) {
    n.Leaf? && n.kind == Whitespace
  }

  ghost predicate NameNode(n: Node) {
    n.Tree? && n.kind == VariableName && n.children != [] && n.children[0].Leaf? && n.children[0].kind == Ident
  }

  /** One name, optional whitespace, one assignment operator at position k, optional whitespace, one
      value. */
  ghost predicate AssignmentShapeAt(c: seq<Node>, k: nat) {
    && 1 <= k < |c| - 1
    && NameNode(c[0])
    && (forall i :: 1 <= i < k ==> IsWhitespaceLeaf(c[i]))
    && c[k].Leaf? && c[k].kind.IsAssignmentOp()
    && (forall i :: k < i < |c| - 1 ==> IsWhitespaceLeaf(c[i]))
    && c[|c| - 1].Tree? && c[|c| - 1].kind == VariableValue
  }

  /** No error node anywhere, and every assignment of the right shape. */
  ghost predicate WellShaped(n: Node) {
    n.Tree? ==>
      && n.kind != Error
      && (n.kind == VariableAssignment ==> exists k :: AssignmentShapeAt(n.children, k))
      && forall c :: c in n.children ==> WellShaped(c)
  }

  ghost predicate AllWellShaped(nodes: seq<Node>) {
    forall n :: n in nodes ==> WellShaped(n)
  }

  ghost predicate OnlyLeaves(nodes: seq<Node>) {
    forall n :: n in nodes ==> n.Leaf?
  }

  // ---- The builder ----

  /** Open nodes inside each other, innermost first, around the list of finished nodes. */
  datatype Builder = Finished(nodes: seq<Node>) | Open(kind: SyntaxKind, children: seq<Node>, outer: Builder)

  /** Nodes added to the innermost open node. */
  function AddAll(b: Builder, nodes: seq<Node>): Builder {
    match b
    case Finished(done) => Finished(done + nodes)
    case Open(kind, children, outer) => Open(kind, children + nodes, outer)
  }

  lemma AddAllTwice(b: Builder, one: seq<Node>, two: seq<Node>)
    ensures AddAll(AddAll(b, one), two) == AddAll(b, one + two)
  {
    var children := if b.Finished? then b.nodes else b.children;
    assert (children + one) + two == children + (one + two);
  }

  lemma AddNothing(b: Builder)
    ensures AddAll(b, []) == b
  {
    var children := if b.Finished? then b.nodes else b.children;
    assert children + [] == children;
  }
}
