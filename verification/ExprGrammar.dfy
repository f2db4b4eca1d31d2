/** Concrete expression trees: everything the expression parser consumes, including redundant
    parentheses and operands that are missing. */
module ExprGrammar {
  import opened Tokens

  datatype CExpr =
    | Missing
    | Const(tok: Token)
    | Ident(name: string, sym: Symbol)
    | Paren(inner: CExpr)
    | Postfix(base: CExpr, op: Token)
    | Index(base: CExpr, index: CExpr)
    | Prefix(op: Token, arg: CExpr)
    | Binary(op: Token, lhs: CExpr, rhs: CExpr)
    | Ternary(cond: CExpr, thn: CExpr, els: CExpr)
      // the program swallows the operator `asg` and records the token after it
    | Assign(lhs: CExpr, asg: Token, op: Token, rhs: CExpr)

  function Print(c: CExpr): seq<Token> {
    match c
    case Missing => []
    case Const(t) => [t]
    case Ident(n, _) => [Identifier(n)]
    case Paren(e) => [Punct(LPAREN)] + Print(e) + [Punct(RPAREN)]
    case Postfix(b, op) => Print(b) + [op]
    case Index(b, i) => Print(b) + [Punct(LBRACKET)] + Print(i) + [Punct(RBRACKET)]
    case Prefix(op, a) => [op] + Print(a)
    case Binary(op, l, r) => Print(l) + [op] + Print(r)
    case Ternary(c, t, e) => Print(c) + [Punct(QUESTION)] + Print(t) + [Punct(COLON)] + Print(e)
    case Assign(l, asg, op, r) => Print(l) + [asg, op] + Print(r)
  }

  /** The last thing printed is a missing operand. */
  predicate EndsMissing(c: CExpr) {
    match c
    case Missing => true
    case Const(_) | Ident(_, _) | Paren(_) | Postfix(_, _) | Index(_, _) => false
    case Prefix(_, e) => EndsMissing(e)
    case Binary(_, _, e) => EndsMissing(e)
    case Ternary(_, _, e) => EndsMissing(e)
    case Assign(_, _, _, e) => EndsMissing(e)
  }

  /** The last thing printed is a primary that has not had its one postfix operator yet. */
  predicate EndsBare(c: CExpr) {
    match c
    case Missing | Const(_) | Ident(_, _) | Paren(_) => true
    case Postfix(_, _) | Index(_, _) => false
    case Prefix(_, e) => EndsBare(e)
    case Binary(_, _, e) => EndsBare(e)
    case Ternary(_, _, e) => EndsBare(e)
    case Assign(_, _, _, e) => EndsBare(e)
  }

  /** Token `t` cannot be taken as a continuation of `c` at layer `k`. */
  predicate Stops(k: Layer, c: CExpr, t: Token) {
    && !(0 < OpLayer(t) <= k)
    && (k >= COND ==> t != Punct(QUESTION))
    && (k >= ASSIGNMENT ==> !IsAssign(t))
    && (k >= POSTFIX && EndsBare(c) ==> t != Punct(LBRACKET) && !IsIncDec(t) && !IsMember(t))
    && (EndsMissing(c) ==> !t.Identifier? && !IsConstant(t) && !t.StringLit? && t != Punct(LPAREN))
    && (k >= UNARY && EndsMissing(c) ==> !IsPrefix(t))
  }

  /** `c` respects the layering of the grammar at layer `k`. */
  predicate Legal(env: Env, k: Layer, c: CExpr)
    decreases c
  {
    match c
    case Missing => true
    case Const(t) => IsConstant(t)
    case Ident(n, s) => n in env && env[n] == s
    case Paren(e) => Legal(env, EXPR, e)
    case Postfix(b, op) =>
      k >= POSTFIX && IsIncDec(op) && Legal(env, PRIMARY, b) && (b.Missing? ==> k == POSTFIX)
    case Index(b, i) =>
      k >= POSTFIX && Legal(env, PRIMARY, b) && Legal(env, EXPR, i)
    case Prefix(op, a) =>
      k >= UNARY && IsPrefix(op) && Legal(env, UNARY, a)
    case Binary(op, l, r) =>
      var j := OpLayer(op);
      0 < j <= k && Legal(env, j, l) && Legal(env, j - 1, r) && (EndsMissing(l) ==> !IsPrefix(op))
    case Ternary(c, t, e) =>
      k >= COND && Legal(env, 7, c) && Legal(env, EXPR, t) && Legal(env, COND, e)
    case Assign(l, asg, _, r) =>
      k >= ASSIGNMENT && IsAssign(asg) && Legal(env, COND, l) && Legal(env, ASSIGNMENT, r)
  }
}
