/** The statement parser accepts exactly the printed forms of legal statement trees. */
module StmtTheorems {
  import opened Tokens
  import opened ExprGrammar
  import opened ExprParsing
  import opened ExprTheorems
  import opened Ast
  import opened StmtGrammar
  import opened StmtParsing

  // ---------- expressions inside statements ----------

  lemma UntilIsPrint(env: Env, p: Punct, ts: seq<Token>, e: CExpr, rest: seq<Token>)
    requires IsCloser(Punct(p))
    ensures Until(env, p, ts) == Ok(e, rest) <==> Legal(env, EXPR, e) && ts == (Print(e) + [Punct(p)]) + rest
  {
    var after := [Punct(p)] + rest;
    CloserStops(EXPR, e, Punct(p));
    ParserIsGrammar(env, EXPR, ts, e, after);
    assert Print(e) + after == (Print(e) + [Punct(p)]) + rest;
    assert after[1..] == rest;
    var r := Parse(env, EXPR, ts);
    if Until(env, p, ts) == Ok(e, rest) {
      assert r.rest == [Punct(p)] + r.rest[1..];
    }
  }

  lemma GuardIsPrint(env: Env, ts: seq<Token>, c: CExpr, rest: seq<Token>)
    ensures Guard(env, ts) == Ok(c, rest) <==> Legal(env, EXPR, c) && ts == Print(Paren(c)) + rest
  {
    var inner := (Print(c) + [Punct(RPAREN)]) + rest;
    if Guard(env, ts) == Ok(c, rest) {
      UntilIsPrint(env, RPAREN, ts[1..], c, rest);
      assert ts == [Punct(LPAREN)] + ts[1..];
    }
    if Legal(env, EXPR, c) && ts == Print(Paren(c)) + rest {
      assert ts[1..] == inner;
      UntilIsPrint(env, RPAREN, ts[1..], c, rest);
    }
    Regroup3([Punct(LPAREN)], Print(c), [Punct(RPAREN)], rest);
  }

  /** An expression never starts with a keyword or a brace. */
  lemma ExprHead(env: Env, k: Layer, e: CExpr)
    requires Legal(env, k, e) && Print(e) != []
    ensures var t := Print(e)[0]; !t.Keyword? && t != Punct(LBRACE) && t != Punct(RBRACE)
    decreases e
  {
    match e
    case Postfix(b, op) => if Print(b) != [] { ExprHead(env, PRIMARY, b); }
    case Index(b, _) => if Print(b) != [] { ExprHead(env, PRIMARY, b); }
    case Binary(op, l, _) => if Print(l) != [] { ExprHead(env, OpLayer(op), l); }
    case Ternary(c, _, _) => if Print(c) != [] { ExprHead(env, 7, c); }
    case Assign(l, _, _, _) => if Print(l) != [] { ExprHead(env, COND, l); }
    case _ =>
  }

  lemma SolidPrints(c: CExpr)
    requires !Hollow(c)
    ensures Print(c) != []
  {
  }

  // ---------- one call of the statement parser ----------

  /** The print of `s` in front of `rest` is parsed as `s`, and `rest` is left over. */
  ghost predicate Trips(env: Env, s: CStmt, rest: seq<Token>) {
    ParseStmt(env, PrintStmt(s) + rest) == Ok(s, rest)
  }

  lemma GuardedTrip(env: Env, s: CStmt, rest: seq<Token>)
    requires s.Switch? || s.While?
    requires Legal(env, EXPR, s.cond) && Trips(env, s.body, rest)
    ensures Trips(env, s, rest)
  {
    hide Parse, Stops, Legal, Print, Hollow;
    var kw := if s.Switch? then SWITCH else WHILE;
    var ts := PrintStmt(s.body) + rest;
    var all := PrintStmt(s) + rest;
    Regroup3([Keyword(kw)], Print(Paren(s.cond)), PrintStmt(s.body), rest);
    assert all[1..] == Print(Paren(s.cond)) + ts;
    GuardIsPrint(env, all[1..], s.cond, ts);
    assert ParseStmt(env, all) == ParseGuarded(env, all);
  }

  lemma IfTrip(env: Env, c: CExpr, t: CStmt, rest: seq<Token>)
    requires Legal(env, EXPR, c) && !Hollow(c) && !t.Void? && Head(rest) != Keyword(ELSE)
    requires Trips(env, t, rest)
    ensures Trips(env, If(c, t), rest)
  {
    hide Parse, Stops, Legal, Print, Hollow;
    var ts := PrintStmt(t) + rest;
    var all := PrintStmt(If(c, t)) + rest;
    Regroup3([Keyword(IF)], Print(Paren(c)), PrintStmt(t), rest);
    assert all[1..] == Print(Paren(c)) + ts;
    GuardIsPrint(env, all[1..], c, ts);
    assert ParseStmt(env, all) == ParseIf(env, all);
  }

  lemma IfElseTrip(env: Env, c: CExpr, t: CStmt, e: CStmt, rest: seq<Token>)
    requires Legal(env, EXPR, c) && !Hollow(c) && !t.Void?
    requires Trips(env, t, [Keyword(ELSE)] + (PrintStmt(e) + rest)) && Trips(env, e, rest)
    ensures Trips(env, IfElse(c, t, e), rest)
  {
    hide Parse, Stops, Legal, Print, Hollow;
    var tail := [Keyword(ELSE)] + (PrintStmt(e) + rest);
    var all := PrintStmt(IfElse(c, t, e)) + rest;
    Regroup5([Keyword(IF)], Print(Paren(c)), PrintStmt(t), [Keyword(ELSE)], PrintStmt(e), rest);
    assert all[1..] == Print(Paren(c)) + (PrintStmt(t) + tail);
    GuardIsPrint(env, all[1..], c, PrintStmt(t) + tail);
    assert ParseStmt(env, all) == ParseIf(env, all);
    assert tail[1..] == PrintStmt(e) + rest;
  }

  lemma CaseTrip(env: Env, e: CExpr, b: CStmt, rest: seq<Token>)
    requires Legal(env, EXPR, e) && Trips(env, b, rest)
    ensures Trips(env, Case(e, b), rest)
  {
    hide Parse, Stops, Legal, Print, Hollow;
    var ts := PrintStmt(b) + rest;
    var all := PrintStmt(Case(e, b)) + rest;
    Regroup3([Keyword(CASE)], Print(e) + [Punct(COLON)], PrintStmt(b), rest);
    assert all[1..] == (Print(e) + [Punct(COLON)]) + ts;
    UntilIsPrint(env, COLON, all[1..], e, ts);
    assert ParseStmt(env, all) == ParseCase(env, all);
  }

  lemma DefaultTrip(env: Env, b: CStmt, rest: seq<Token>)
    requires Trips(env, b, rest)
    ensures Trips(env, Default(b), rest)
  {
    hide Parse, Stops, Legal, Print, Hollow;
    var all := PrintStmt(Default(b)) + rest;
    assert all[2..] == PrintStmt(b) + rest && Head(all[1..]) == Punct(COLON);
    assert ParseStmt(env, all) == ParseDefault(env, all);
  }

  lemma DoTrip(env: Env, b: CStmt, c: CExpr, rest: seq<Token>)
    requires Legal(env, EXPR, c)
    requires Trips(env, b, [Keyword(WHILE)] + (Print(Paren(c)) + ([Punct(SEMICOLON)] + rest)))
    ensures Trips(env, Do(b, c), rest)
  {
    hide Parse, Stops, Legal, Print, Hollow;
    var semi := [Punct(SEMICOLON)] + rest;
    var tail := [Keyword(WHILE)] + (Print(Paren(c)) + semi);
    var all := PrintStmt(Do(b, c)) + rest;
    Regroup5([Keyword(DO)], PrintStmt(b), [Keyword(WHILE)], Print(Paren(c)), [Punct(SEMICOLON)], rest);
    assert all[1..] == PrintStmt(b) + tail && semi[1..] == rest && tail[1..] == Print(Paren(c)) + semi;
    GuardIsPrint(env, tail[1..], c, semi);
    assert ParseStmt(env, all) == ParseDo(env, all);
  }

  lemma InitIsPrint(env: Env, ts: seq<Token>, i: ForInit, rest: seq<Token>)
    ensures ParseInit(env, ts) == Ok(i, rest) <==> LegalInit(env, i) && ts == PrintInit(i) + rest
  {
    if i.InitDecl? {
      if LegalInit(env, i) && ts == PrintInit(i) + rest {
        assert ts[2..] == [Punct(SEMICOLON)] + rest;
        assert ts[2..][1..] == rest;
      }
    } else {
      UntilIsPrint(env, SEMICOLON, ts, i.e, rest);
      if LegalInit(env, i) && ts == PrintInit(i) + rest {
        if Print(i.e) != [] { ExprHead(env, EXPR, i.e); }
      }
    }
  }

  lemma ForTrip(env: Env, i: ForInit, c: CExpr, st: CExpr, b: CStmt, rest: seq<Token>)
    requires LegalInit(env, i) && Legal(env, EXPR, c) && Legal(env, EXPR, st)
    requires Trips(env, b, rest)
    ensures Trips(env, For(i, c, st, b), rest)
  {
    hide Parse, Stops, Legal, Print, Hollow;
    var ts := PrintStmt(b) + rest;
    var ts3 := (Print(st) + [Punct(RPAREN)]) + ts;
    var ts2 := (Print(c) + [Punct(SEMICOLON)]) + ts3;
    var ts1 := PrintInit(i) + ts2;
    var all := PrintStmt(For(i, c, st, b)) + rest;
    ForPrint(i, c, st, b, rest);
    assert ParseInit(env, ts1) == Ok(i, ts2) by { InitIsPrint(env, ts1, i, ts2); }
    assert Until(env, SEMICOLON, ts2) == Ok(c, ts3) by { UntilIsPrint(env, SEMICOLON, ts2, c, ts3); }
    assert Until(env, RPAREN, ts3) == Ok(st, ts) by { UntilIsPrint(env, RPAREN, ts3, st, ts); }
    assert ParseStmt(env, all) == ParseFor(env, all);
  }

  lemma ForPrint(i: ForInit, c: CExpr, st: CExpr, b: CStmt, rest: seq<Token>)
    ensures var all := PrintStmt(For(i, c, st, b)) + rest;
            && |all| >= 2 && all[0] == Keyword(FOR) && Head(all[1..]) == Punct(LPAREN)
            && all[2..] == PrintInit(i) + ((Print(c) + [Punct(SEMICOLON)]) +
                           ((Print(st) + [Punct(RPAREN)]) + (PrintStmt(b) + rest)))
  {
    Regroup5([Keyword(FOR), Punct(LPAREN)], PrintInit(i), Print(c) + [Punct(SEMICOLON)],
             Print(st) + [Punct(RPAREN)], PrintStmt(b), rest);
  }

  lemma BlockTrip(env: Env, items: Items, rest: seq<Token>)
    requires ParseItems(env, PrintItems(items) + rest) == Ok(items, rest)
    ensures Trips(env, Block(items), rest)
  {
    hide Parse, Stops, Legal, Print, Hollow;
    assert (PrintStmt(Block(items)) + rest)[1..] == PrintItems(items) + rest;
  }

  lemma ReturnTrip(env: Env, e: CExpr, rest: seq<Token>)
    requires Legal(env, EXPR, e)
    ensures Trips(env, Return(e), rest)
  {
    hide Parse, Stops, Legal, Print;
    var ts := PrintStmt(Return(e)) + rest;
    assert ts[1..] == (Print(e) + [Punct(SEMICOLON)]) + rest;
    UntilIsPrint(env, SEMICOLON, ts[1..], e, rest);
    assert ParseStmt(env, ts) == ParseJump(env, ts);
  }

  lemma JumpTrip(env: Env, s: CStmt, rest: seq<Token>)
    requires s.Break? || s.Continue? || s.Goto?
    requires LegalStmt(env, s)
    ensures Trips(env, s, rest)
  {
    hide Parse, Stops, Legal, Print, Hollow;
    var ts := PrintStmt(s) + rest;
    assert ParseStmt(env, ts) == ParseJump(env, ts);
    if s.Goto? {
      assert ts == [Keyword(GOTO), Identifier(s.name), Punct(SEMICOLON)] + rest;
      assert ts[3..] == rest && Head(ts[1..]) == Identifier(s.name) && Head(ts[2..]) == Punct(SEMICOLON);
    } else {
      assert ts[2..] == rest;
    }
  }

  lemma ExprStmtTrip(env: Env, e: CExpr, rest: seq<Token>)
    requires Legal(env, EXPR, e) && !Hollow(e)
    ensures Trips(env, ExprStmt(e), rest)
  {
    hide Parse, Stops, Legal, Print;
    var semi := [Punct(SEMICOLON)] + rest;
    var ts := Print(e) + semi;
    SolidPrints(e);
    ExprHead(env, EXPR, e);
    CloserStops(EXPR, e, Punct(SEMICOLON));
    RoundTrip(env, EXPR, e, semi);
    assert PrintStmt(ExprStmt(e)) + rest == ts && semi[1..] == rest;
    assert ParseStmt(env, ts) == ParseExprStmt(env, ts);
  }

  lemma VoidTrip(env: Env, e: CExpr, rest: seq<Token>)
    requires Legal(env, EXPR, e) && Hollow(e) && StmtStops(Void(e), Head(rest))
    ensures Trips(env, Void(e), rest)
  {
    RoundTrip(env, EXPR, e, rest);
    if e.Paren? {
      assert Head(Print(e) + rest) == Punct(LPAREN);
    } else {
      assert Print(e) + rest == rest;
    }
  }

  // ---------- printing, then parsing ----------

  /** Printing a legal statement and parsing the result in front of a token that does not continue
      it gives the statement back and leaves exactly what followed. */
  lemma {:induction false} StmtRoundTrip(env: Env, s: CStmt, rest: seq<Token>)
    requires LegalStmt(env, s) && StmtStops(s, Head(rest))
    ensures Trips(env, s, rest)
    decreases s
  {
    hide Parse, Stops, Legal, Print, Hollow;
    match s
    case Void(e) => VoidTrip(env, e, rest);
    case ExprStmt(e) => ExprStmtTrip(env, e, rest);
    case Block(items) =>
      ItemsRoundTrip(env, items, rest);
      BlockTrip(env, items, rest);
    case If(_, _) => IfRoundTrip(env, s, rest);
    case IfElse(_, _, _) => IfRoundTrip(env, s, rest);
    case Case(_, _) => BodyRoundTrip(env, s, rest);
    case Default(_) => BodyRoundTrip(env, s, rest);
    case Switch(_, _) => BodyRoundTrip(env, s, rest);
    case While(_, _) => BodyRoundTrip(env, s, rest);
    case For(_, _, _, _) => BodyRoundTrip(env, s, rest);
    case Do(b, c) =>
      StmtRoundTrip(env, b, [Keyword(WHILE)] + (Print(Paren(c)) + ([Punct(SEMICOLON)] + rest)));
      DoTrip(env, b, c, rest);
    case Return(e) => ReturnTrip(env, e, rest);
    case _ => JumpTrip(env, s, rest);
  }

  lemma {:induction false} BodyRoundTrip(env: Env, s: CStmt, rest: seq<Token>)
    requires s.Case? || s.Default? || s.Switch? || s.While? || s.For?
    requires LegalStmt(env, s) && StmtStops(s, Head(rest))
    ensures Trips(env, s, rest)
    decreases s, 0
  {
    hide Parse, Stops, Legal, Print, Hollow;
    StmtRoundTrip(env, s.body, rest);
    if s.Case? {
      CaseTrip(env, s.e, s.body, rest);
    } else if s.Default? {
      DefaultTrip(env, s.body, rest);
    } else if s.For? {
      ForTrip(env, s.init, s.cond, s.step, s.body, rest);
    } else {
      GuardedTrip(env, s, rest);
    }
  }

  lemma {:induction false} IfRoundTrip(env: Env, s: CStmt, rest: seq<Token>)
    requires s.If? || s.IfElse?
    requires LegalStmt(env, s) && StmtStops(s, Head(rest))
    ensures Trips(env, s, rest)
    decreases s, 0
  {
    hide Parse, Stops, Legal, Print, Hollow;
    if s.If? {
      StmtRoundTrip(env, s.thn, rest);
      IfTrip(env, s.cond, s.thn, rest);
    } else {
      StmtRoundTrip(env, s.thn, [Keyword(ELSE)] + (PrintStmt(s.els) + rest));
      StmtRoundTrip(env, s.els, rest);
      IfElseTrip(env, s.cond, s.thn, s.els, rest);
    }
  }

  lemma {:induction false} ItemsRoundTrip(env: Env, items: Items, rest: seq<Token>)
    requires LegalItems(env, items)
    ensures ParseItems(env, PrintItems(items) + rest) == Ok(items, rest)
    decreases items
  {
    hide Parse, Stops, Legal, Print, Hollow;
    match items
    case Close => assert (PrintItems(items) + rest)[1..] == rest;
    case Item(h, t) =>
      var after := PrintItems(t) + rest;
      ItemsRoundTrip(env, t, rest);
      assert PrintItems(items) + rest == PrintStmt(h) + after;
      ItemHead(env, h);
      ItemsPrint(t);
      if h.Decl? {
        assert (PrintStmt(h) + after)[2..] == after;
      } else {
        StmtRoundTrip(env, h, after);
      }
  }

  lemma ItemsPrint(items: Items)
    ensures PrintItems(items) != []
  {
  }

  /** A block item starts with a token of its own, which does not close the block. */
  lemma ItemHead(env: Env, s: CStmt)
    requires if s.Decl? then IsDeclSpec(s.spec) else LegalStmt(env, s) && !s.Void?
    ensures PrintStmt(s) != [] && PrintStmt(s)[0] != Punct(RBRACE)
    ensures !s.Decl? ==> !IsDeclSpec(PrintStmt(s)[0])
  {
    if s.ExprStmt? {
      SolidPrints(s.e);
      ExprHead(env, EXPR, s.e);
    }
  }

  // ---------- parsing, then printing ----------

  /** `r` is a legal tree printing the tokens consumed, and the next token does not continue it. */
  ghost predicate ExplainsStmt(env: Env, ts: seq<Token>, r: Parsed<CStmt>) {
    r.Ok? && LegalStmt(env, r.node) && ts == PrintStmt(r.node) + r.rest && StmtStops(r.node, Head(r.rest))
  }

  /** A successful parse comes from a legal statement whose print is exactly the tokens consumed. */
  lemma {:induction false} StmtSound(env: Env, ts: seq<Token>)
    requires ParseStmt(env, ts).Ok?
    ensures ExplainsStmt(env, ts, ParseStmt(env, ts))
    decreases |ts|, 1
  {
    hide Parse, Stops, Legal, Print, Hollow;
    var t := Head(ts);
    if t == Punct(LBRACE) {
      ItemsSound(env, ts[1..]);
      BlockSound(env, ts);
    } else if !t.Keyword? {
      ExprStmtSound(env, ts);
    } else if t.kw == IF {
      IfSound(env, ts);
    } else if t.kw == FOR {
      ForSound(env, ts);
    } else if t.kw == DO {
      DoSound(env, ts);
    } else if t.kw == CASE || t.kw == DEFAULT || t.kw == SWITCH || t.kw == WHILE {
      BodySound(env, ts);
    } else if IsStmtKeyword(t) {
      JumpSound(env, ts);
    } else {
      NothingSound(env, ts);
    }
  }

  lemma BlockSound(env: Env, ts: seq<Token>)
    requires Head(ts) == Punct(LBRACE)
    requires var r := ParseItems(env, ts[1..]);
             r.Ok? && LegalItems(env, r.node) && ts[1..] == PrintItems(r.node) + r.rest
    ensures ExplainsStmt(env, ts, ParseStmt(env, ts))
  {
    hide Parse, Stops, Legal, Print, Hollow;
    assert ts == [ts[0]] + ts[1..];
  }

  lemma NothingSound(env: Env, ts: seq<Token>)
    requires Head(ts).Keyword? && !IsStmtKeyword(Head(ts))
    ensures ExplainsStmt(env, ts, ParseStmt(env, ts))
  {
    var s := Void(Missing);
    assert LegalStmt(env, s) && PrintStmt(s) == [];
    assert StmtStops(s, ts[0]);
    assert ts == [] + ts;
    assert ParseStmt(env, ts) == Ok(s, ts);
  }

  lemma ExprStmtSound(env: Env, ts: seq<Token>)
    requires ParseExprStmt(env, ts).Ok? && !Head(ts).Keyword? && Head(ts) != Punct(LBRACE)
    ensures ExplainsStmt(env, ts, ParseExprStmt(env, ts))
  {
    hide Parse, Legal;
    var e := Parse(env, EXPR, ts);
    Sound(env, EXPR, ts);
    if Hollow(e.node) {
      if e.node.Missing? { assert ts == e.rest; }
    } else {
      assert e.rest == [Punct(SEMICOLON)] + e.rest[1..];
    }
  }

  lemma JumpSound(env: Env, ts: seq<Token>)
    requires Head(ts).Keyword? && ParseJump(env, ts).Ok?
    requires var kw := Head(ts).kw; kw == BREAK || kw == CONTINUE || kw == GOTO || kw == RETURN
    ensures ExplainsStmt(env, ts, ParseJump(env, ts))
  {
    hide Parse, Stops, Legal, Print, Hollow;
    var r := ParseJump(env, ts);
    if ts[0].kw == RETURN {
      UntilIsPrint(env, SEMICOLON, ts[1..], r.node.e, r.rest);
      assert ts == [ts[0]] + ts[1..];
    } else if ts[0].kw == GOTO {
      GotoSound(env, ts);
    } else {
      assert ts == [ts[0], ts[1]] + ts[2..];
    }
  }

  lemma GotoSound(env: Env, ts: seq<Token>)
    requires Head(ts) == Keyword(GOTO) && ParseJump(env, ts).Ok?
    ensures ExplainsStmt(env, ts, ParseJump(env, ts))
  {
    hide Parse, Stops, Legal, Print, Hollow;
    assert ts == [ts[0], ts[1], ts[2]] + ts[3..];
  }

  lemma {:induction false} IfSound(env: Env, ts: seq<Token>)
    requires Head(ts) == Keyword(IF) && ParseIf(env, ts).Ok?
    ensures ExplainsStmt(env, ts, ParseIf(env, ts))
    decreases |ts|, 0
  {
    hide Parse, Stops, Legal, Print, Hollow;
    var c := Guard(env, ts[1..]);
    GuardIsPrint(env, ts[1..], c.node, c.rest);
    assert ts == [Keyword(IF)] + ts[1..];
    StmtSound(env, c.rest);
    var t := ParseStmt(env, c.rest);
    if Head(t.rest) == Keyword(ELSE) {
      StmtSound(env, t.rest[1..]);
      var e := ParseStmt(env, t.rest[1..]);
      assert t.rest == [Keyword(ELSE)] + t.rest[1..];
      Regroup5([Keyword(IF)], Print(Paren(c.node)), PrintStmt(t.node), [Keyword(ELSE)], PrintStmt(e.node), e.rest);
    } else {
      Regroup3([Keyword(IF)], Print(Paren(c.node)), PrintStmt(t.node), t.rest);
    }
  }

  lemma {:induction false} BodySound(env: Env, ts: seq<Token>)
    requires Head(ts).Keyword? && ParseStmt(env, ts).Ok?
    requires var kw := Head(ts).kw; kw == CASE || kw == DEFAULT || kw == SWITCH || kw == WHILE
    ensures ExplainsStmt(env, ts, ParseStmt(env, ts))
    decreases |ts|, 0
  {
    hide Parse, Stops, Legal, Print, Hollow, LegalStmt, PrintStmt, StmtStops;
    if ts[0].kw == CASE {
      StmtSound(env, Until(env, COLON, ts[1..]).rest);
      CaseSound(env, ts);
    } else if ts[0].kw == DEFAULT {
      StmtSound(env, ts[2..]);
      DefaultSound(env, ts);
    } else {
      StmtSound(env, Guard(env, ts[1..]).rest);
      GuardedSound(env, ts);
    }
  }

  lemma CaseSound(env: Env, ts: seq<Token>)
    requires Head(ts) == Keyword(CASE) && ParseCase(env, ts).Ok?
    requires var e := Until(env, COLON, ts[1..]); ExplainsStmt(env, e.rest, ParseStmt(env, e.rest))
    ensures ExplainsStmt(env, ts, ParseCase(env, ts))
  {
    hide Parse, Stops, Legal, Print, Hollow, ParseStmt;
    var (e, r) := (Until(env, COLON, ts[1..]), ParseCase(env, ts));
    assert ts == [ts[0]] + ts[1..];
    UntilIsPrint(env, COLON, ts[1..], e.node, e.rest);
    Regroup3([ts[0]], Print(e.node) + [Punct(COLON)], PrintStmt(r.node.body), r.rest);
  }

  lemma DefaultSound(env: Env, ts: seq<Token>)
    requires Head(ts) == Keyword(DEFAULT) && ParseDefault(env, ts).Ok?
    requires ExplainsStmt(env, ts[2..], ParseStmt(env, ts[2..]))
    ensures ExplainsStmt(env, ts, ParseDefault(env, ts))
  {
    hide Parse, Stops, Legal, Print, Hollow, ParseStmt;
    assert ts == [ts[0], ts[1]] + ts[2..];
  }

  lemma GuardedSound(env: Env, ts: seq<Token>)
    requires (Head(ts) == Keyword(SWITCH) || Head(ts) == Keyword(WHILE)) && ParseGuarded(env, ts).Ok?
    requires var c := Guard(env, ts[1..]); ExplainsStmt(env, c.rest, ParseStmt(env, c.rest))
    ensures ExplainsStmt(env, ts, ParseGuarded(env, ts))
  {
    hide Parse, Stops, Legal, Print, Hollow, ParseStmt;
    var (c, r) := (Guard(env, ts[1..]), ParseGuarded(env, ts));
    assert ts == [ts[0]] + ts[1..];
    GuardIsPrint(env, ts[1..], c.node, c.rest);
    Regroup3([ts[0]], Print(Paren(c.node)), PrintStmt(r.node.body), r.rest);
  }

  lemma {:induction false} DoSound(env: Env, ts: seq<Token>)
    requires Head(ts) == Keyword(DO) && ParseDo(env, ts).Ok?
    ensures ExplainsStmt(env, ts, ParseDo(env, ts))
    decreases |ts|, 0
  {
    hide Parse, Stops, Legal, Print, Hollow;
    var r := ParseDo(env, ts);
    var b := ParseStmt(env, ts[1..]);
    StmtSound(env, ts[1..]);
    var c := Guard(env, b.rest[1..]);
    GuardIsPrint(env, b.rest[1..], c.node, c.rest);
    Regroup5([Keyword(DO)], PrintStmt(b.node), [Keyword(WHILE)], Print(Paren(c.node)), [Punct(SEMICOLON)], r.rest);
    assert ts == [Keyword(DO)] + ts[1..];
    assert b.rest == [Keyword(WHILE)] + b.rest[1..];
    assert c.rest == [Punct(SEMICOLON)] + c.rest[1..];
  }

  lemma {:induction false} ForSound(env: Env, ts: seq<Token>)
    requires Head(ts) == Keyword(FOR) && ParseFor(env, ts).Ok?
    ensures ExplainsStmt(env, ts, ParseFor(env, ts))
    decreases |ts|, 0
  {
    hide Parse, Stops, Legal, Print, Hollow;
    var r := ParseFor(env, ts);
    var i := ParseInit(env, ts[2..]);
    InitIsPrint(env, ts[2..], i.node, i.rest);
    var c := Until(env, SEMICOLON, i.rest);
    UntilIsPrint(env, SEMICOLON, i.rest, c.node, c.rest);
    var st := Until(env, RPAREN, c.rest);
    UntilIsPrint(env, RPAREN, c.rest, st.node, st.rest);
    StmtSound(env, st.rest);
    ForPrint(i.node, c.node, st.node, r.node.body, r.rest);
    assert ts == [ts[0], ts[1]] + ts[2..];
  }

  lemma {:induction false} ItemsSound(env: Env, ts: seq<Token>)
    requires ParseItems(env, ts).Ok?
    ensures var r := ParseItems(env, ts); LegalItems(env, r.node) && ts == PrintItems(r.node) + r.rest
    decreases |ts|, 2
  {
    hide LegalStmt, PrintStmt, StmtStops, ParseStmt;
    if Head(ts) == Punct(RBRACE) {
      assert ts == [Punct(RBRACE)] + ts[1..];
    } else {
      var h := ParseItem(env, ts);
      ItemsSound(env, h.rest);
      if IsDeclSpec(Head(ts)) {
        DeclItemSound(env, ts);
      } else {
        StmtSound(env, ts);
      }
      ItemSound(env, h.node, ParseItems(env, h.rest));
    }
  }

  lemma DeclItemSound(env: Env, ts: seq<Token>)
    requires IsDeclSpec(Head(ts)) && ParseItem(env, ts).Ok?
    ensures var r := ParseItem(env, ts); r.node == Decl(ts[0]) && ts == PrintStmt(r.node) + r.rest
  {
    assert ts == [ts[0], ts[1]] + ts[2..];
  }

  /** A first item in front of the rest of a block. */
  lemma ItemSound(env: Env, h: CStmt, t: Parsed<Items>)
    requires t.Ok? && LegalItems(env, t.node)
    requires if h.Decl? then IsDeclSpec(h.spec)
             else LegalStmt(env, h) && !h.Void? && StmtStops(h, Head(PrintItems(t.node) + t.rest))
    ensures LegalItems(env, Item(h, t.node))
    ensures PrintItems(Item(h, t.node)) + t.rest == PrintStmt(h) + (PrintItems(t.node) + t.rest)
  {
    hide LegalStmt, PrintStmt, StmtStops;
    ItemsPrint(t.node);
  }

  /** The statement parser is the statement grammar, on every token stream. */
  lemma StmtParserIsGrammar(env: Env, ts: seq<Token>, s: CStmt, rest: seq<Token>)
    ensures ParseStmt(env, ts) == Ok(s, rest)
            <==> LegalStmt(env, s) && ts == PrintStmt(s) + rest && StmtStops(s, Head(rest))
  {
    if ParseStmt(env, ts) == Ok(s, rest) { StmtSound(env, ts); }
    if LegalStmt(env, s) && ts == PrintStmt(s) + rest && StmtStops(s, Head(rest)) { StmtRoundTrip(env, s, rest); }
  }

  /** Distinct legal statements never print the same tokens. */
  lemma StmtUnambiguous(env: Env, s: CStmt, rest: seq<Token>, s': CStmt, rest': seq<Token>)
    requires LegalStmt(env, s) && StmtStops(s, Head(rest))
    requires LegalStmt(env, s') && StmtStops(s', Head(rest'))
    requires PrintStmt(s) + rest == PrintStmt(s') + rest'
    ensures s == s' && rest == rest'
  {
    StmtRoundTrip(env, s, rest);
    StmtRoundTrip(env, s', rest');
  }
}
