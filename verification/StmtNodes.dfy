/** Which node each form of statement builds, told from tokens. */
module StmtNodes {
  import opened Tokens
  import opened ExprGrammar
  import opened ExprParsing
  import opened Ast
  import opened StmtGrammar
  import opened StmtParsing
  import opened StmtTheorems
  import opened StmtAst
  import opened DanglingElse
  import opened ExprNodes

  /** In front of `t`, which is left over, `ts` is read as one statement, with node `n`. */
  ghost predicate WholeStmt(env: Env, ts: seq<Token>, n: Node, t: Token) {
    var r := ParseStmt(env, ts + [t]);
    r.Ok? && r.rest == [t] && EraseStmt(r.node) == n
  }

  lemma StmtTree(env: Env, ts: seq<Token>, n: Node, t: Token) returns (s: CStmt)
    requires WholeStmt(env, ts, n, t)
    ensures LegalStmt(env, s) && PrintStmt(s) == ts && EraseStmt(s) == n && StmtStops(s, t)
    ensures n == NullNode <==> s.Void?
  {
    hide ParseStmt, LegalStmt, PrintStmt, StmtStops, EraseStmt;
    s := ParseStmt(env, ts + [t]).node;
    StmtSound(env, ts + [t]);
    assert (PrintStmt(s) + [t])[..|PrintStmt(s)|] == PrintStmt(s) && (ts + [t])[..|ts|] == ts;
    ErasedOpen(env, s);
  }

  lemma TreeWholeStmt(env: Env, s: CStmt, t: Token)
    requires LegalStmt(env, s) && StmtStops(s, t)
    ensures WholeStmt(env, PrintStmt(s), EraseStmt(s), t)
  {
    hide ParseStmt, LegalStmt, PrintStmt, StmtStops, EraseStmt;
    StmtRoundTrip(env, s, [t]);
  }

  /** A parenthesised expression behind a keyword. */
  function Guarded(kw: Keyword, ts: seq<Token>): seq<Token> {
    [Keyword(kw)] + ([Punct(LPAREN)] + ts + [Punct(RPAREN)])
  }

  // ---------- the forms of statements ----------

  lemma ExprStmtBuilds(env: Env, ts: seq<Token>, n: Expr, t: Token)
    requires Whole(env, ts, n) && n != Null
    ensures WholeStmt(env, ts + [Punct(SEMICOLON)], Leaf(ExprShape(n)), t)
  {
    hide Whole, WholeStmt, Legal, Print, Erase, Hollow;
    var c := WholeTree(env, ts, n);
    HollowIsNull(c);
    TreeWholeStmt(env, ExprStmt(c), t);
  }

  lemma IfBuilds(env: Env, ts: seq<Token>, n: Expr, ss: seq<Token>, m: Node, t: Token)
    requires Whole(env, ts, n) && n != Null && WholeStmt(env, ss, m, t) && m != NullNode && t != Keyword(ELSE)
    ensures WholeStmt(env, Guarded(IF, ts) + ss, Leaf(IfShape(n, m, NullNode)), t)
  {
    hide Whole, WholeStmt, Legal, Erase, Hollow;
    var c := WholeTree(env, ts, n);
    HollowIsNull(c);
    var s := StmtTree(env, ss, m, t);
    TreeWholeStmt(env, If(c, s), t);
  }

  lemma IfElseBuilds(env: Env, ts: seq<Token>, n: Expr, ss: seq<Token>, m: Node, us: seq<Token>, k: Node, t: Token)
    requires Whole(env, ts, n) && n != Null && WholeStmt(env, ss, m, Keyword(ELSE)) && m != NullNode
    requires WholeStmt(env, us, k, t)
    ensures WholeStmt(env, Guarded(IF, ts) + ss + [Keyword(ELSE)] + us, Leaf(IfShape(n, m, k)), t)
  {
    hide Whole, WholeStmt, Legal, Erase, Hollow;
    var c := WholeTree(env, ts, n);
    HollowIsNull(c);
    var s := StmtTree(env, ss, m, Keyword(ELSE));
    var u := StmtTree(env, us, k, t);
    TreeWholeStmt(env, IfElse(c, s, u), t);
  }

  lemma LoopsBuild(env: Env, ts: seq<Token>, n: Expr, ss: seq<Token>, m: Node, t: Token)
    requires Whole(env, ts, n) && WholeStmt(env, ss, m, t)
    ensures WholeStmt(env, Guarded(WHILE, ts) + ss, Leaf(WhileShape(n, m)), t)
    ensures WholeStmt(env, Guarded(SWITCH, ts) + ss, Leaf(SwitchShape(n, m)), t)
  {
    hide Whole, WholeStmt, Legal, Erase;
    var c := WholeTree(env, ts, n);
    var s := StmtTree(env, ss, m, t);
    TreeWholeStmt(env, While(c, s), t);
    TreeWholeStmt(env, Switch(c, s), t);
  }

  lemma LabelsBuild(env: Env, ts: seq<Token>, n: Expr, ss: seq<Token>, m: Node, t: Token)
    requires Whole(env, ts, n) && WholeStmt(env, ss, m, t)
    ensures WholeStmt(env, [Keyword(CASE)] + (ts + [Punct(COLON)]) + ss, Leaf(CaseShape(n, m)), t)
    ensures WholeStmt(env, [Keyword(DEFAULT), Punct(COLON)] + ss, Leaf(DefaultShape(m)), t)
  {
    hide Whole, WholeStmt, Legal, Print, Erase;
    var c := WholeTree(env, ts, n);
    var s := StmtTree(env, ss, m, t);
    TreeWholeStmt(env, Case(c, s), t);
    TreeWholeStmt(env, Default(s), t);
  }

  lemma DoBuilds(env: Env, ss: seq<Token>, m: Node, ts: seq<Token>, n: Expr, t: Token)
    requires WholeStmt(env, ss, m, Keyword(WHILE)) && Whole(env, ts, n)
    ensures WholeStmt(env, [Keyword(DO)] + ss + Guarded(WHILE, ts) + [Punct(SEMICOLON)], Leaf(DoShape(m, n)), t)
  {
    hide Whole, WholeStmt, Legal, Erase;
    var c := WholeTree(env, ts, n);
    var s := StmtTree(env, ss, m, Keyword(WHILE));
    TreeWholeStmt(env, Do(s, c), t);
    assert [Keyword(DO)] + ss + Guarded(WHILE, ts) + [Punct(SEMICOLON)] == PrintStmt(Do(s, c));
  }

  /** The body of a `for` goes into the `next` of its node. */
  lemma ForBuilds(env: Env, vs: seq<Token>, i: Expr, cs: seq<Token>, c: Expr, us: seq<Token>, u: Expr,
                  ss: seq<Token>, m: Node, t: Token)
    requires Whole(env, vs, i) && Whole(env, cs, c) && Whole(env, us, u) && WholeStmt(env, ss, m, t)
    ensures WholeStmt(env, [Keyword(FOR), Punct(LPAREN)] + (vs + [Punct(SEMICOLON)]) + (cs + [Punct(SEMICOLON)])
                           + (us + [Punct(RPAREN)]) + ss, Node(ForShape(ExprShape(i), c, u), m), t)
  {
    hide Whole, WholeStmt, Legal, Print, Erase;
    var ti := WholeTree(env, vs, i);
    var tc := WholeTree(env, cs, c);
    var tu := WholeTree(env, us, u);
    var s := StmtTree(env, ss, m, t);
    TreeWholeStmt(env, For(InitExpr(ti), tc, tu, s), t);
  }

  lemma JumpsBuild(env: Env, ts: seq<Token>, n: Expr, name: string, t: Token)
    requires Whole(env, ts, n) && name in env
    ensures WholeStmt(env, [Keyword(BREAK), Punct(SEMICOLON)], Leaf(BreakShape), t)
    ensures WholeStmt(env, [Keyword(CONTINUE), Punct(SEMICOLON)], Leaf(ContinueShape), t)
    ensures WholeStmt(env, [Keyword(GOTO), Identifier(name), Punct(SEMICOLON)], Leaf(GotoShape(env[name])), t)
    ensures WholeStmt(env, [Keyword(RETURN)] + (ts + [Punct(SEMICOLON)]), Leaf(ReturnShape(n)), t)
  {
    hide Whole, WholeStmt, Legal, Print, Erase;
    var c := WholeTree(env, ts, n);
    TreeWholeStmt(env, Break, t);
    TreeWholeStmt(env, Continue, t);
    TreeWholeStmt(env, Goto(name, env[name]), t);
    TreeWholeStmt(env, Return(c), t);
  }

  /** The first item of a block hangs on it and the second on the first; the first loses what it had in
      its `next`. */
  lemma BlockBuilds(env: Env, ss: seq<Token>, m: Node, us: seq<Token>, k: Node, t: Token)
    requires us != [] && WholeStmt(env, ss, m, us[0]) && WholeStmt(env, us, k, Punct(RBRACE))
    requires m != NullNode && k != NullNode
    ensures WholeStmt(env, [Punct(LBRACE)] + (ss + (us + [Punct(RBRACE)])), Leaf(BlockShape(Node(m.shape, k))), t)
    ensures WholeStmt(env, [Punct(LBRACE)] + (us + [Punct(RBRACE)]), Leaf(BlockShape(k)), t)
  {
    hide Whole, WholeStmt, Legal, LegalStmt, PrintStmt, StmtStops, EraseStmt;
    var s := StmtTree(env, ss, m, us[0]);
    var u := StmtTree(env, us, k, Punct(RBRACE));
    var one := Item(u, Close);
    var two := Item(s, one);
    TwoItems(env, s, u);
    BlockWhole(env, one, t);
    BlockWhole(env, two, t);
  }

  lemma TwoItems(env: Env, s: CStmt, u: CStmt)
    requires LegalStmt(env, s) && LegalStmt(env, u) && !s.Void? && !u.Void? && PrintStmt(u) != []
    requires StmtStops(s, PrintStmt(u)[0]) && StmtStops(u, Punct(RBRACE))
    ensures LegalItems(env, Item(u, Close)) && LegalItems(env, Item(s, Item(u, Close)))
    ensures PrintItems(Item(u, Close)) == PrintStmt(u) + [Punct(RBRACE)]
    ensures PrintItems(Item(s, Item(u, Close))) == PrintStmt(s) + (PrintStmt(u) + [Punct(RBRACE)])
    ensures Chain(Item(u, Close)) == EraseStmt(u)
    ensures Chain(Item(s, Item(u, Close))) == Link(EraseStmt(s), EraseStmt(u))
  {
    hide LegalStmt, PrintStmt, StmtStops, EraseStmt;
    ChainOfOne(u);
    ChainOfTwo(s, u);
    StmtIsNoDecl(env, s);
    StmtIsNoDecl(env, u);
  }

  lemma StmtIsNoDecl(env: Env, s: CStmt)
    requires LegalStmt(env, s)
    ensures !s.Decl?
  {
  }

  lemma BlockWhole(env: Env, items: Items, t: Token)
    requires LegalItems(env, items)
    ensures WholeStmt(env, [Punct(LBRACE)] + PrintItems(items), Leaf(BlockShape(Chain(items))), t)
  {
    hide WholeStmt, LegalItems, PrintItems, Chain;
    TreeWholeStmt(env, Block(items), t);
  }

  // ---------- declarations ----------

  const SPECIFIERS: set<Keyword> := {
    TYPEDEF, EXTERN, STATIC, AUTO, REGISTER,
    VOID, CHAR, SHORT, INT, LONG, FLOAT, DOUBLE, SIGNED, UNSIGNED, STRUCT, UNION, ENUM}

  lemma SpecifierSet(kw: Keyword)
    ensures IsDeclSpec(Token.Keyword(kw)) <==> kw in SPECIFIERS
  {
  }

  /** A keyword and a semicolon are a declaration, in a block and in a `for`, for these keywords alone. */
  lemma DeclarationBuilds(env: Env, kw: Keyword, rest: seq<Token>)
    ensures var r := ParseItem(env, [Token.Keyword(kw), Punct(SEMICOLON)] + rest);
            kw in SPECIFIERS <==> r.Ok? && r.rest == rest && EraseStmt(r.node) == Leaf(DeclShape(Token.Keyword(kw)))
    ensures kw in SPECIFIERS ==>
              ParseInit(env, [Token.Keyword(kw), Punct(SEMICOLON), Punct(SEMICOLON)] + rest)
              == Ok(InitDecl(Token.Keyword(kw)), rest)
  {
    hide IsDeclSpec, ParseStmt;
    SpecifierSet(kw);
    var ts := [Token.Keyword(kw), Punct(SEMICOLON)] + rest;
    assert ts[2..] == rest;
    if kw in SPECIFIERS {
      var us := [Token.Keyword(kw), Punct(SEMICOLON), Punct(SEMICOLON)] + rest;
      assert us[2..] == [Punct(SEMICOLON)] + rest;
      assert us[2..][1..] == rest;
    } else if ParseStmt(env, ts).Ok? {
      NoDeclNode(env, ParseStmt(env, ts).node, ts);
    }
  }

  lemma NoDeclNode(env: Env, s: CStmt, ts: seq<Token>)
    requires ParseStmt(env, ts).Ok? && s == ParseStmt(env, ts).node
    ensures EraseStmt(s).Node? ==> !EraseStmt(s).shape.DeclShape?
  {
  }
}
