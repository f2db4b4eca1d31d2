/** Concrete statement trees: everything the statement parser consumes. */
module StmtGrammar {
  import opened Tokens
  import opened ExprGrammar
  import opened Ast

  datatype CStmt =
      // the parser answers with the null pointer, having consumed at most empty parentheses
    | Void(e: CExpr)
    | ExprStmt(e: CExpr)
    | Block(items: Items)
    | If(cond: CExpr, thn: CStmt)
    | IfElse(cond: CExpr, thn: CStmt, els: CStmt)
    | Case(e: CExpr, body: CStmt)
    | Default(body: CStmt)
    | Switch(cond: CExpr, body: CStmt)
    | While(cond: CExpr, body: CStmt)
    | Do(body: CStmt, cond: CExpr)
    | For(init: ForInit, cond: CExpr, step: CExpr, body: CStmt)
    | Break
    | Continue
    | Goto(name: string, sym: Symbol)
    | Return(e: CExpr)
    | Decl(spec: Token)

  /** What is left of a block: its remaining items, then the closing brace. */
  datatype Items = Close | Item(head: CStmt, tail: Items)

  datatype ForInit = InitDecl(spec: Token) | InitExpr(e: CExpr)

  /** The first clause of a `for` with its semicolon; a declaration brings one of its own. */
  function PrintInit(i: ForInit): seq<Token> {
    match i
    case InitDecl(t) => [t, Punct(SEMICOLON), Punct(SEMICOLON)]
    case InitExpr(e) => Print(e) + [Punct(SEMICOLON)]
  }

  function PrintStmt(s: CStmt): seq<Token> {
    match s
    case Void(e) => Print(e)
    case ExprStmt(e) => Print(e) + [Punct(SEMICOLON)]
    case Block(items) => [Punct(LBRACE)] + PrintItems(items)
    case If(c, t) => [Keyword(IF)] + Print(Paren(c)) + PrintStmt(t)
    case IfElse(c, t, e) => [Keyword(IF)] + Print(Paren(c)) + PrintStmt(t) + [Keyword(ELSE)] + PrintStmt(e)
    case Case(e, b) => [Keyword(CASE)] + (Print(e) + [Punct(COLON)]) + PrintStmt(b)
    case Default(b) => [Keyword(DEFAULT), Punct(COLON)] + PrintStmt(b)
    case Switch(c, b) => [Keyword(SWITCH)] + Print(Paren(c)) + PrintStmt(b)
    case While(c, b) => [Keyword(WHILE)] + Print(Paren(c)) + PrintStmt(b)
    case Do(b, c) => [Keyword(DO)] + PrintStmt(b) + [Keyword(WHILE)] + Print(Paren(c)) + [Punct(SEMICOLON)]
    case For(i, c, st, b) =>
      [Keyword(FOR), Punct(LPAREN)] + PrintInit(i) + (Print(c) + [Punct(SEMICOLON)]) + (Print(st) + [Punct(RPAREN)])
      + PrintStmt(b)
    case Break => [Keyword(BREAK), Punct(SEMICOLON)]
    case Continue => [Keyword(CONTINUE), Punct(SEMICOLON)]
    case Goto(n, _) => [Keyword(GOTO), Identifier(n), Punct(SEMICOLON)]
    case Return(e) => [Keyword(RETURN)] + (Print(e) + [Punct(SEMICOLON)])
    case Decl(t) => [t, Punct(SEMICOLON)]
  }

  function PrintItems(items: Items): seq<Token> {
    match items
    case Close => [Punct(RBRACE)]
    case Item(h, t) => PrintStmt(h) + PrintItems(t)
  }

  predicate StartsStmt(t: Token) {
    t == Punct(LBRACE) || IsStmtKeyword(t)
  }

  /** The right edge of `s` is an `if` that could still take an `else`. */
  predicate OpenIf(s: CStmt) {
    match s
    case If(_, _) => true
    case IfElse(_, _, e) => OpenIf(e)
    case Case(_, b) => OpenIf(b)
    case Default(b) => OpenIf(b)
    case Switch(_, b) => OpenIf(b)
    case While(_, b) => OpenIf(b)
    case For(_, _, _, b) => OpenIf(b)
    case _ => false
  }

  /** Token `t` cannot be taken as a continuation of `s`. */
  predicate StmtStops(s: CStmt, t: Token) {
    match s
    case Void(e) => Stops(EXPR, e, t) && (e.Missing? ==> !StartsStmt(t))
    case If(_, b) => t != Keyword(ELSE) && StmtStops(b, t)
    case IfElse(_, _, e) => StmtStops(e, t)
    case Case(_, b) => StmtStops(b, t)
    case Default(b) => StmtStops(b, t)
    case Switch(_, b) => StmtStops(b, t)
    case While(_, b) => StmtStops(b, t)
    case For(_, _, _, b) => StmtStops(b, t)
    case _ => true
  }

  predicate LegalInit(env: Env, i: ForInit) {
    match i
    case InitDecl(t) => IsDeclSpec(t)
    case InitExpr(e) => Legal(env, EXPR, e)
  }

  /** `s` respects the statement grammar. An `else` belongs to the nearest `if` that can take it. */
  predicate LegalStmt(env: Env, s: CStmt) {
    match s
    case Void(e) => Legal(env, EXPR, e) && Hollow(e)
    case ExprStmt(e) => Legal(env, EXPR, e) && !Hollow(e)
    case Block(items) => LegalItems(env, items)
    case If(c, t) => Legal(env, EXPR, c) && !Hollow(c) && LegalStmt(env, t) && !t.Void?
    case IfElse(c, t, e) =>
      Legal(env, EXPR, c) && !Hollow(c) && LegalStmt(env, t) && !t.Void? && LegalStmt(env, e)
      && StmtStops(t, Keyword(ELSE))
    case Case(e, b) => Legal(env, EXPR, e) && LegalStmt(env, b)
    case Default(b) => LegalStmt(env, b)
    case Switch(c, b) => Legal(env, EXPR, c) && LegalStmt(env, b)
    case While(c, b) => Legal(env, EXPR, c) && LegalStmt(env, b)
    case Do(b, c) => LegalStmt(env, b) && Legal(env, EXPR, c) && StmtStops(b, Keyword(WHILE))
    case For(i, c, st, b) =>
      LegalInit(env, i) && Legal(env, EXPR, c) && Legal(env, EXPR, st) && LegalStmt(env, b)
    case Break | Continue => true
    case Goto(n, sym) => n in env && env[n] == sym
    case Return(e) => Legal(env, EXPR, e)
    case Decl(_) => false
  }

  /** Block items are declarations and statements that consume something. */
  predicate LegalItems(env: Env, items: Items) {
    match items
    case Close => true
    case Item(h, t) =>
      && LegalItems(env, t)
      && if h.Decl? then IsDeclSpec(h.spec)
         else LegalStmt(env, h) && !h.Void? && StmtStops(h, Head(PrintItems(t)))
  }
}
