/** The statement nodes the parser builds. Each has a `next` pointer, which chains the items of a
    block and also holds the body of a `for`. */
module StmtAst {
  import opened Tokens
  import opened ExprGrammar
  import opened Ast
  import opened StmtGrammar

  datatype Node = NullNode | Node(shape: Shape, next: Node)

  datatype Shape =
    | ExprShape(e: Expr)
    | DeclShape(spec: Token)
    | BlockShape(first: Node)
    | IfShape(cond: Expr, ifnode: Node, elnode: Node)
    | CaseShape(cond: Expr, ifnode: Node)
    | DefaultShape(ifnode: Node)
    | SwitchShape(cond: Expr, ifnode: Node)
    | WhileShape(cond: Expr, ifnode: Node)
    | DoShape(ifnode: Node, cond: Expr)
    | ForShape(init: Shape, cond: Expr, step: Expr)
    | BreakShape
    | ContinueShape
    | GotoShape(symbol: Symbol)
    | ReturnShape(cond: Expr)

  function Leaf(s: Shape): Node {
    Node(s, NullNode)
  }

  function EraseInit(i: ForInit): Shape {
    match i
    case InitDecl(t) => DeclShape(t)
    case InitExpr(e) => ExprShape(Erase(e))
  }

  /** The node built for a concrete statement. */
  function EraseStmt(s: CStmt): Node {
    match s
    case Void(_) => NullNode
    case ExprStmt(e) => Leaf(ExprShape(Erase(e)))
    case Block(items) => Leaf(BlockShape(Chain(items)))
    case If(c, t) => Leaf(IfShape(Erase(c), EraseStmt(t), NullNode))
    case IfElse(c, t, e) => Leaf(IfShape(Erase(c), EraseStmt(t), EraseStmt(e)))
    case Case(e, b) => Leaf(CaseShape(Erase(e), EraseStmt(b)))
    case Default(b) => Leaf(DefaultShape(EraseStmt(b)))
    case Switch(c, b) => Leaf(SwitchShape(Erase(c), EraseStmt(b)))
    case While(c, b) => Leaf(WhileShape(Erase(c), EraseStmt(b)))
    case Do(b, c) => Leaf(DoShape(EraseStmt(b), Erase(c)))
    case For(i, c, st, b) => Node(ForShape(EraseInit(i), Erase(c), Erase(st)), EraseStmt(b))
    case Break => Leaf(BreakShape)
    case Continue => Leaf(ContinueShape)
    case Goto(_, sym) => Leaf(GotoShape(sym))
    case Return(e) => Leaf(ReturnShape(Erase(e)))
    case Decl(t) => Leaf(DeclShape(t))
  }

  /** `n` with its `next` pointer set to `next`. */
  function Link(n: Node, next: Node): Node {
    if n.NullNode? then next else Node(n.shape, next)
  }

  /** The items of a block, each linked to the one after it; the last keeps the `next` it had. */
  function Chain(items: Items): Node {
    match items
    case Close => NullNode
    case Item(h, Close) => EraseStmt(h)
    case Item(h, t) => Link(EraseStmt(h), Chain(t))
  }

  /** A `for` whose clause expressions are optional prints as any other shape; its body, like the
      sibling that may replace it, follows through `next`. */
  function YieldShape(s: Shape): seq<Token> {
    match s
    case ExprShape(e) => Yield(e) + [Punct(SEMICOLON)]
    case DeclShape(t) => [t, Punct(SEMICOLON)]
    case BlockShape(f) => [Punct(LBRACE)] + (YieldNode(f) + [Punct(RBRACE)])
    case IfShape(c, t, e) =>
      [Keyword(IF)] + Yield(c) + YieldNode(t) + if e.NullNode? then [] else [Keyword(ELSE)] + YieldNode(e)
    case CaseShape(c, b) => [Keyword(CASE)] + (Yield(c) + [Punct(COLON)]) + YieldNode(b)
    case DefaultShape(b) => [Keyword(DEFAULT), Punct(COLON)] + YieldNode(b)
    case SwitchShape(c, b) => [Keyword(SWITCH)] + Yield(c) + YieldNode(b)
    case WhileShape(c, b) => [Keyword(WHILE)] + Yield(c) + YieldNode(b)
    case DoShape(b, c) => [Keyword(DO)] + YieldNode(b) + [Keyword(WHILE)] + Yield(c) + [Punct(SEMICOLON)]
    case ForShape(i, c, st) =>
      [Keyword(FOR)] + (YieldShape(i) + if i.DeclShape? then [Punct(SEMICOLON)] else [])
      + (Yield(c) + [Punct(SEMICOLON)]) + Yield(st)
    case BreakShape => [Keyword(BREAK), Punct(SEMICOLON)]
    case ContinueShape => [Keyword(CONTINUE), Punct(SEMICOLON)]
    case GotoShape(sym) => [Keyword(GOTO), Identifier(sym.ident), Punct(SEMICOLON)]
    case ReturnShape(c) => [Keyword(RETURN)] + (Yield(c) + [Punct(SEMICOLON)])
  }

  /** The tokens of a node and of what follows it, parentheses left out. */
  function YieldNode(n: Node): seq<Token> {
    match n
    case NullNode => []
    case Node(s, next) => YieldShape(s) + YieldNode(next)
  }

  /** A `for` followed by a sibling in its block: the sibling takes the place of the body, so the
      program builds for `for (...) body sibling` what it builds for `for (...) sibling`. */
  lemma SiblingReplacesBody(i: ForInit, c: CExpr, st: CExpr, body: CStmt, sibling: CStmt)
    requires !sibling.Void?
    ensures EraseStmt(Block(Item(For(i, c, st, body), Item(sibling, Close))))
         == EraseStmt(Block(Item(For(i, c, st, sibling), Close)))
  {
    hide Erase, EraseStmt, Chain;
    var (f, f') := (For(i, c, st, body), For(i, c, st, sibling));
    ErasedFor(i, c, st, body);
    ErasedFor(i, c, st, sibling);
    ErasedBlock(Item(f, Item(sibling, Close)));
    ErasedBlock(Item(f', Close));
    ChainOfTwo(f, sibling);
    ChainOfOne(f');
  }

  lemma ErasedFor(i: ForInit, c: CExpr, st: CExpr, body: CStmt)
    ensures EraseStmt(For(i, c, st, body)) == Node(ForShape(EraseInit(i), Erase(c), Erase(st)), EraseStmt(body))
  {
  }

  lemma ErasedBlock(items: Items)
    ensures EraseStmt(Block(items)) == Leaf(BlockShape(Chain(items)))
  {
  }

  lemma ChainOfOne(h: CStmt)
    ensures Chain(Item(h, Close)) == EraseStmt(h)
  {
    hide EraseStmt;
  }

  lemma ChainOfTwo(h: CStmt, h': CStmt)
    ensures Chain(Item(h, Item(h', Close))) == Link(EraseStmt(h), EraseStmt(h'))
  {
    hide EraseStmt;
    ChainOfOne(h');
  }
}
