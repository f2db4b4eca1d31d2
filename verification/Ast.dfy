/** The nodes the parser builds, what is left of a concrete expression in them, and the tokens
    that can be read back from them. */
module Ast {
  import opened Tokens
  import opened ExprGrammar

  datatype ConstType = CharType | LongType | DoubleType

  /** An expression node; `Null` is the null pointer. */
  datatype Expr =
    | Null
    | ConstNode(ctype: ConstType, value: Token)
    | IdentNode(symbol: Symbol)
    | PostfixNode(op: Token, lhs: Expr, rhs: Expr)
    | UnaryNode(op: Token, lhs: Expr)
    | BinaryNode(op: Token, lhs: Expr, rhs: Expr)
    | TernaryNode(cond: Expr, ifnode: Expr, elnode: Expr)
    | AssignNode(op: Token, lhs: Expr, rhs: Expr)

  function ConstTypeOf(t: Token): ConstType {
    if t.Character? then CharType else if t.Floating? then DoubleType else LongType
  }

  /** The node built for a concrete expression: parentheses, and the operator of an assignment,
      leave no trace. */
  function Erase(c: CExpr): Expr {
    match c
    case Missing => Null
    case Const(t) => ConstNode(ConstTypeOf(t), t)
    case Ident(_, s) => IdentNode(s)
    case Paren(e) => Erase(e)
    case Postfix(b, op) => PostfixNode(op, Erase(b), Null)
    case Index(b, i) => PostfixNode(Punct(LBRACKET), Erase(b), Erase(i))
    case Prefix(op, a) => UnaryNode(op, Erase(a))
    case Binary(op, l, r) => BinaryNode(op, Erase(l), Erase(r))
    case Ternary(c, t, e) => TernaryNode(Erase(c), Erase(t), Erase(e))
    case Assign(l, _, op, r) => AssignNode(op, Erase(l), Erase(r))
  }

  /** The parse consumed no operand: nothing at all, or empty parentheses. */
  predicate Hollow(c: CExpr) {
    c.Missing? || (c.Paren? && Hollow(c.inner))
  }

  lemma HollowIsNull(c: CExpr)
    ensures Erase(c) == Null <==> Hollow(c)
  {
  }

  /** The tokens of a node from left to right, with `?`, `:` and `]` put back. */
  function Yield(e: Expr): seq<Token> {
    match e
    case Null => []
    case ConstNode(_, t) => [t]
    case IdentNode(s) => [Identifier(s.ident)]
    case PostfixNode(op, l, r) =>
      Yield(l) + [op] + if op == Punct(LBRACKET) then Yield(r) + [Punct(RBRACKET)] else []
    case UnaryNode(op, l) => [op] + Yield(l)
    case BinaryNode(op, l, r) => Yield(l) + [op] + Yield(r)
    case TernaryNode(c, t, e) => Yield(c) + [Punct(QUESTION)] + Yield(t) + [Punct(COLON)] + Yield(e)
    case AssignNode(op, l, r) => Yield(l) + [op] + Yield(r)
  }
}
