/** The template tree handed to the compiler by the parser (which is not part of
    this model). The parent back-pointer of a node is not stored: the visitor
    passes down whether the parent is an expression node. */
module Tree {

  /** The four structural modes of a node. */
  datatype Mode = PRG | MKP | NODE | EXP

  /** Token kinds: the two markers `AT` and `AT_COLON` carry no text into the output. */
  datatype TokenType = AT | AT_COLON | Other(tag: string)

  datatype Token = Token(kind: TokenType, text: string)

  /** A child of a node is either a leaf token or a sub-tree. */
  datatype Child = Leaf(tok: Token) | Sub(node: Ast)

  datatype Ast = Ast(mode: Mode, tagName: string, children: seq<Child>)

  predicate IsMarker(t: Token) {
    t.kind == AT || t.kind == AT_COLON
  }

  /** getValStr: the text a child stands for. */
  function ValStr(c: Child): (r: string)
    ensures c.Sub? ==> r == c.node.tagName
    ensures c.Leaf? ==> r == (if IsMarker(c.tok) then "" else c.tok.text)
  {
    match c
    case Sub(n) => n.tagName
    case Leaf(t) => if !(t.kind == AT || t.kind == AT_COLON) then t.text else ""
  }

  /** A leaf token whose text is exactly `s`. */
  predicate IsTokenText(c: Child, s: string) {
    c.Leaf? && c.tok.text == s
  }

  /** A control node whose children begin with a `{` token and end with a `}` token:
      those two children are structural and are not emitted. */
  predicate DropsBraces(n: Ast) {
    |n.children| >= 2 && IsTokenText(n.children[0], "{")
    && IsTokenText(n.children[|n.children| - 1], "}")
  }

  /** Program nodes hold only sub-trees (the source asserts `c.(*Ast)` and panics otherwise). */
  predicate WellFormed(n: Ast)
    decreases n, 1
  {
    forall i :: 0 <= i < |n.children| ==> ChildOk(n, i)
  }

  /** The child at `i` is acceptable where it stands. */
  predicate ChildOk(n: Ast, i: nat)
    requires i < |n.children|
    decreases n, 0
  {
    match n.children[i]
    case Leaf(_) => n.mode != PRG
    case Sub(m) => WellFormed(m)
  }

}
