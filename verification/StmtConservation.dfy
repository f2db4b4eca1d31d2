/** Which tokens of a statement survive in its node. */
module StmtConservation {
  import opened Tokens
  import opened ExprGrammar
  import opened ExprParsing
  import opened Ast
  import opened Conservation
  import opened StmtGrammar
  import opened StmtParsing
  import opened StmtTheorems
  import opened StmtAst

  /** The tokens of `s`, parentheses not counted, that its node does not hold: the operator of each
      assignment, each `else` without a statement, and the body of each `for` that a sibling in its
      block replaces. */
  function LostTokens(s: CStmt): nat {
    match s
    case Void(_) => 0
    case ExprStmt(e) => AssignNodes(e)
    case Block(items) => LostItems(items)
    case If(c, t) => AssignNodes(c) + LostTokens(t)
    case IfElse(c, t, e) => AssignNodes(c) + LostTokens(t) + LostTokens(e) + if e.Void? then 1 else 0
    case Case(e, b) => AssignNodes(e) + LostTokens(b)
    case Default(b) => LostTokens(b)
    case Switch(c, b) => AssignNodes(c) + LostTokens(b)
    case While(c, b) => AssignNodes(c) + LostTokens(b)
    case Do(b, c) => LostTokens(b) + AssignNodes(c)
    case For(_, _, _, b) => LostHeader(s) + LostTokens(b)
    case Return(e) => AssignNodes(e)
    case _ => 0
  }

  function LostHeader(s: CStmt): nat
    requires s.For?
  {
    (if s.init.InitExpr? then AssignNodes(s.init.e) else 0) + AssignNodes(s.cond) + AssignNodes(s.step)
  }

  function LostItems(items: Items): nat {
    match items
    case Close => 0
    case Item(h, t) =>
      LostItems(t) + if h.For? && t.Item? then LostHeader(h) + Weight(PrintStmt(h.body)) else LostTokens(h)
  }

  /** The node of `s` lost exactly `LostTokens(s)` tokens. */
  ghost predicate KeptStmt(s: CStmt) {
    Keeps(PrintStmt(s), YieldNode(EraseStmt(s)), LostTokens(s))
  }

  /** The items of a block, their closing brace included. */
  ghost predicate KeptItems(items: Items) {
    Keeps(PrintItems(items), YieldNode(Chain(items)) + [Punct(RBRACE)], LostItems(items))
  }

  lemma KeepsGuard(kw: Keyword, c: CExpr)
    requires Kept(c)
    ensures Keeps([Keyword(kw)] + Print(Paren(c)), [Keyword(kw)] + Yield(Erase(c)), AssignNodes(c))
  {
    KeepsParens(Print(c), Yield(Erase(c)), AssignNodes(c));
    KeepsToken(Keyword(kw));
    KeepsConcat([Keyword(kw)], [Keyword(kw)], 0, Print(Paren(c)), Yield(Erase(c)), AssignNodes(c));
  }

  lemma KeepsUntil(e: CExpr, p: Punct)
    requires Kept(e) && p != LPAREN && p != RPAREN
    ensures Keeps(Print(e) + [Punct(p)], Yield(Erase(e)) + [Punct(p)], AssignNodes(e))
  {
    KeepsToken(Punct(p));
    KeepsConcat(Print(e), Yield(Erase(e)), AssignNodes(e), [Punct(p)], [Punct(p)], 0);
  }

  lemma KeepsSame(ts: seq<Token>)
    requires forall t <- ts :: !IsParen(t)
    ensures Keeps(ts, ts, 0)
  {
    if ts != [] {
      KeepsSame(ts[1..]);
      KeepsToken(ts[0]);
      KeepsConcat([ts[0]], [ts[0]], 0, ts[1..], ts[1..], 0);
      assert ts == [ts[0]] + ts[1..];
    }
  }

  /** Four parts in a row. */
  lemma KeepsFour(a: seq<Token>, a': seq<Token>, i: nat, b: seq<Token>, b': seq<Token>, j: nat,
                  c: seq<Token>, c': seq<Token>, k: nat, d: seq<Token>, d': seq<Token>, l: nat)
    requires Keeps(a, a', i) && Keeps(b, b', j) && Keeps(c, c', k) && Keeps(d, d', l)
    ensures Keeps(a + b + c + d, a' + b' + c' + d', i + j + k + l)
  {
    hide Strip, Weight, Within;
    KeepsConcat(a, a', i, b, b', j);
    KeepsConcat(a + b, a' + b', i + j, c, c', k);
    KeepsConcat(a + b + c, a' + b' + c', i + j + k, d, d', l);
  }

  lemma LeafYield(s: Shape)
    ensures YieldNode(Leaf(s)) == YieldShape(s)
  {
    assert YieldNode(NullNode) == [];
  }

  lemma KeptGuarded(s: CStmt)
    requires s.Switch? || s.While?
    requires Kept(s.cond) && KeptStmt(s.body)
    ensures KeptStmt(s)
  {
    hide Strip, Weight, Within;
    var kw := if s.Switch? then SWITCH else WHILE;
    var b := YieldNode(EraseStmt(s.body));
    KeepsGuard(kw, s.cond);
    KeepsConcat([Keyword(kw)] + Print(Paren(s.cond)), [Keyword(kw)] + Yield(Erase(s.cond)), AssignNodes(s.cond),
                PrintStmt(s.body), b, LostTokens(s.body));
    LeafYield(EraseStmt(s).shape);
    assert YieldNode(EraseStmt(s)) == [Keyword(kw)] + Yield(Erase(s.cond)) + b;
  }

  lemma KeptIf(c: CExpr, t: CStmt)
    requires Kept(c) && KeptStmt(t)
    ensures KeptStmt(If(c, t))
  {
    hide Strip, Weight, Within;
    var y := YieldNode(EraseStmt(t));
    KeepsGuard(IF, c);
    KeepsConcat([Keyword(IF)] + Print(Paren(c)), [Keyword(IF)] + Yield(Erase(c)), AssignNodes(c),
                PrintStmt(t), y, LostTokens(t));
    LeafYield(EraseStmt(If(c, t)).shape);
    assert YieldNode(EraseStmt(If(c, t))) == [Keyword(IF)] + Yield(Erase(c)) + y;
  }

  lemma LosesElse(h: CExpr)
    requires Hollow(h)
    ensures Keeps([Keyword(ELSE)] + Print(h), [], 1)
  {
    HollowStrip(h);
    StripConcat([Keyword(ELSE)], Print(h));
    StripOne(Keyword(ELSE));
  }

  lemma KeptIfElse(c: CExpr, t: CStmt, e: CStmt)
    requires Kept(c) && KeptStmt(t) && KeptStmt(e) && !e.Void?
    ensures KeptStmt(IfElse(c, t, e))
  {
    hide Strip, Weight, Within, Print, Yield, Erase, PrintStmt, YieldNode, EraseStmt;
    var (p, y) := ([Keyword(IF)] + Print(Paren(c)), [Keyword(IF)] + Yield(Erase(c)));
    var (pt, yt) := (PrintStmt(t), YieldNode(EraseStmt(t)));
    var ye := YieldNode(EraseStmt(e));
    KeepsGuard(IF, c);
    KeepsToken(Keyword(ELSE));
    KeepsFour(p, y, AssignNodes(c), pt, yt, LostTokens(t), [Keyword(ELSE)], [Keyword(ELSE)], 0,
              PrintStmt(e), ye, LostTokens(e));
    IfElsePieces(c, t, e);
  }

  lemma IfElsePieces(c: CExpr, t: CStmt, e: CStmt)
    requires !e.Void?
    ensures PrintStmt(IfElse(c, t, e))
         == ([Keyword(IF)] + Print(Paren(c))) + PrintStmt(t) + [Keyword(ELSE)] + PrintStmt(e)
    ensures YieldNode(EraseStmt(IfElse(c, t, e)))
         == ([Keyword(IF)] + Yield(Erase(c))) + YieldNode(EraseStmt(t)) + [Keyword(ELSE)] + YieldNode(EraseStmt(e))
  {
    hide Print, Yield, Erase;
    NextOfStmt(e);
    LeafYield(EraseStmt(IfElse(c, t, e)).shape);
  }

  lemma KeptEmptyElse(c: CExpr, t: CStmt, h: CExpr)
    requires Kept(c) && KeptStmt(t) && Hollow(h)
    ensures KeptStmt(IfElse(c, t, Void(h)))
  {
    hide Strip, Weight, Within, Print, Yield, Erase, PrintStmt, YieldNode, EraseStmt;
    var (p, y) := ([Keyword(IF)] + Print(Paren(c)), [Keyword(IF)] + Yield(Erase(c)));
    var (pt, yt) := (PrintStmt(t), YieldNode(EraseStmt(t)));
    KeepsGuard(IF, c);
    LosesElse(h);
    KeepsConcat(p, y, AssignNodes(c), pt, yt, LostTokens(t));
    KeepsConcat(p + pt, y + yt, AssignNodes(c) + LostTokens(t), [Keyword(ELSE)] + Print(h), [], 1);
    EmptyElsePieces(c, t, h);
  }

  lemma EmptyElsePieces(c: CExpr, t: CStmt, h: CExpr)
    ensures var s := IfElse(c, t, Void(h));
            && PrintStmt(s) == ([Keyword(IF)] + Print(Paren(c))) + PrintStmt(t) + ([Keyword(ELSE)] + Print(h))
            && YieldNode(EraseStmt(s)) == ([Keyword(IF)] + Yield(Erase(c))) + YieldNode(EraseStmt(t)) + []
            && LostTokens(s) == AssignNodes(c) + LostTokens(t) + 1
  {
    hide Print, Yield, Erase;
    LeafYield(EraseStmt(IfElse(c, t, Void(h))).shape);
  }

  lemma KeptCase(e: CExpr, b: CStmt)
    requires Kept(e) && KeptStmt(b)
    ensures KeptStmt(Case(e, b))
  {
    hide Strip, Weight, Within;
    var p := Print(e) + [Punct(COLON)];
    var y := Yield(Erase(e)) + [Punct(COLON)];
    KeepsUntil(e, COLON);
    KeepsToken(Keyword(CASE));
    KeepsConcat([Keyword(CASE)], [Keyword(CASE)], 0, p, y, AssignNodes(e));
    KeepsConcat([Keyword(CASE)] + p, [Keyword(CASE)] + y, AssignNodes(e),
                PrintStmt(b), YieldNode(EraseStmt(b)), LostTokens(b));
    LeafYield(EraseStmt(Case(e, b)).shape);
  }

  lemma KeptDefault(b: CStmt)
    requires KeptStmt(b)
    ensures KeptStmt(Default(b))
  {
    hide Strip, Weight, Within;
    var d := [Keyword(DEFAULT), Punct(COLON)];
    KeepsSame(d);
    KeepsConcat(d, d, 0, PrintStmt(b), YieldNode(EraseStmt(b)), LostTokens(b));
    LeafYield(EraseStmt(Default(b)).shape);
  }

  lemma KeptDo(b: CStmt, c: CExpr)
    requires Kept(c) && KeptStmt(b)
    ensures KeptStmt(Do(b, c))
  {
    hide Strip, Weight, Within, Print, Yield, Erase, PrintStmt, YieldNode, EraseStmt;
    var (w, yw) := ([Keyword(WHILE)] + Print(Paren(c)), [Keyword(WHILE)] + Yield(Erase(c)));
    var (pb, yb) := (PrintStmt(b), YieldNode(EraseStmt(b)));
    KeepsToken(Keyword(DO));
    KeepsToken(Punct(SEMICOLON));
    KeepsGuard(WHILE, c);
    KeepsFour([Keyword(DO)], [Keyword(DO)], 0, pb, yb, LostTokens(b), w, yw, AssignNodes(c),
              [Punct(SEMICOLON)], [Punct(SEMICOLON)], 0);
    DoPieces(b, c);
  }

  lemma DoPieces(b: CStmt, c: CExpr)
    ensures PrintStmt(Do(b, c))
         == [Keyword(DO)] + PrintStmt(b) + ([Keyword(WHILE)] + Print(Paren(c))) + [Punct(SEMICOLON)]
    ensures YieldNode(EraseStmt(Do(b, c)))
         == [Keyword(DO)] + YieldNode(EraseStmt(b)) + ([Keyword(WHILE)] + Yield(Erase(c))) + [Punct(SEMICOLON)]
  {
    hide Print, Yield, Erase;
    assert EraseStmt(Do(b, c)) == Leaf(DoShape(EraseStmt(b), Erase(c)));
    DoYield(EraseStmt(b), Erase(c));
  }

  lemma DoYield(b: Node, c: Expr)
    ensures YieldNode(Leaf(DoShape(b, c)))
         == [Keyword(DO)] + YieldNode(b) + ([Keyword(WHILE)] + Yield(c)) + [Punct(SEMICOLON)]
  {
    hide Yield;
    LeafYield(DoShape(b, c));
  }

  /** The tokens of a `for` up to its body. */
  function PrintHeader(s: CStmt): seq<Token>
    requires s.For?
  {
    [Keyword(FOR), Punct(LPAREN)] + PrintInit(s.init) + (Print(s.cond) + [Punct(SEMICOLON)])
    + (Print(s.step) + [Punct(RPAREN)])
  }

  ghost predicate KeptInit(i: ForInit) {
    match i
    case InitDecl(t) => !IsParen(t)
    case InitExpr(e) => Kept(e)
  }

  lemma KeepsInit(i: ForInit)
    requires KeptInit(i)
    ensures var y := EraseInit(i);
            Keeps(PrintInit(i), YieldShape(y) + if y.DeclShape? then [Punct(SEMICOLON)] else [],
                  if i.InitExpr? then AssignNodes(i.e) else 0)
  {
    match i
    case InitDecl(t) =>
      KeepsSame(PrintInit(i));
      assert YieldShape(EraseInit(i)) + [Punct(SEMICOLON)] == PrintInit(i);
    case InitExpr(e) =>
      KeepsUntil(e, SEMICOLON);
      assert YieldShape(EraseInit(i)) + [] == Yield(Erase(e)) + [Punct(SEMICOLON)];
  }

  lemma KeepsHeader(s: CStmt)
    requires s.For? && KeptInit(s.init) && Kept(s.cond) && Kept(s.step)
    ensures Keeps(PrintHeader(s), YieldShape(EraseStmt(s).shape), LostHeader(s))
  {
    hide Strip, Weight, Within;
    var open := [Keyword(FOR), Punct(LPAREN)];
    var i := EraseInit(s.init);
    var yi := YieldShape(i) + if i.DeclShape? then [Punct(SEMICOLON)] else [];
    var ni := if s.init.InitExpr? then AssignNodes(s.init.e) else 0;
    var (pc, yc) := (Print(s.cond) + [Punct(SEMICOLON)], Yield(Erase(s.cond)) + [Punct(SEMICOLON)]);
    KeepsOpenFor();
    KeepsInit(s.init);
    KeepsUntil(s.cond, SEMICOLON);
    KeepsParen(Punct(RPAREN));
    KeepsConcat(Print(s.step), Yield(Erase(s.step)), AssignNodes(s.step), [Punct(RPAREN)], [], 0);
    assert Yield(Erase(s.step)) + [] == Yield(Erase(s.step));
    KeepsFour(open, [Keyword(FOR)], 0, PrintInit(s.init), yi, ni, pc, yc, AssignNodes(s.cond),
              Print(s.step) + [Punct(RPAREN)], Yield(Erase(s.step)), AssignNodes(s.step));
  }

  lemma KeepsOpenFor()
    ensures Keeps([Keyword(FOR), Punct(LPAREN)], [Keyword(FOR)], 0)
  {
    KeepsToken(Keyword(FOR));
    KeepsParen(Punct(LPAREN));
    KeepsConcat([Keyword(FOR)], [Keyword(FOR)], 0, [Punct(LPAREN)], [], 0);
    assert [Keyword(FOR)] + [Punct(LPAREN)] == [Keyword(FOR), Punct(LPAREN)];
    assert [Keyword(FOR)] + [] == [Keyword(FOR)];
  }

  lemma KeepsParen(t: Token)
    requires IsParen(t)
    ensures Keeps([t], [], 0)
  {
    StripOne(t);
  }

  lemma KeptFor(s: CStmt)
    requires s.For? && KeptInit(s.init) && Kept(s.cond) && Kept(s.step) && KeptStmt(s.body)
    ensures KeptStmt(s)
  {
    hide Strip, Weight, Within;
    KeepsHeader(s);
    KeepsConcat(PrintHeader(s), YieldShape(EraseStmt(s).shape), LostHeader(s),
                PrintStmt(s.body), YieldNode(EraseStmt(s.body)), LostTokens(s.body));
  }

  lemma KeptSimple(env: Env, s: CStmt)
    requires s.Break? || s.Continue? || s.Goto? || s.Decl?
    requires ExactEnv(env) && if s.Decl? then IsDeclSpec(s.spec) else LegalStmt(env, s)
    ensures KeptStmt(s)
  {
    hide Keeps;
    SimplePieces(env, s);
    KeepsSame(PrintStmt(s));
  }

  lemma SimplePieces(env: Env, s: CStmt)
    requires s.Break? || s.Continue? || s.Goto? || s.Decl?
    requires ExactEnv(env) && if s.Decl? then IsDeclSpec(s.spec) else LegalStmt(env, s)
    ensures YieldNode(EraseStmt(s)) == PrintStmt(s) && LostTokens(s) == 0
    ensures forall t <- PrintStmt(s) :: !IsParen(t)
  {
    LeafYield(EraseStmt(s).shape);
  }

  lemma KeptBlock(items: Items)
    requires KeptItems(items)
    ensures KeptStmt(Block(items))
  {
    hide Strip, Weight, Within;
    var y := YieldNode(Chain(items)) + [Punct(RBRACE)];
    KeepsToken(Punct(LBRACE));
    KeepsConcat([Punct(LBRACE)], [Punct(LBRACE)], 0, PrintItems(items), y, LostItems(items));
    LeafYield(EraseStmt(Block(items)).shape);
  }

  /** The last item of a block. */
  lemma KeptLast(h: CStmt)
    requires KeptStmt(h)
    ensures KeptItems(Item(h, Close))
  {
    KeepsToken(Punct(RBRACE));
    KeepsConcat(PrintStmt(h), YieldNode(EraseStmt(h)), LostTokens(h), [Punct(RBRACE)], [Punct(RBRACE)], 0);
  }

  /** An item before others: its own `next` gives way to them. */
  lemma KeptNext(h: CStmt, t: Items)
    requires t.Item? && EraseStmt(h).Node? && KeptItems(t)
    requires if h.For? then KeptInit(h.init) && Kept(h.cond) && Kept(h.step)
             else KeptStmt(h) && EraseStmt(h).next == NullNode
    ensures KeptItems(Item(h, t))
  {
    hide Strip, Weight, Within;
    var yt := YieldNode(Chain(t)) + [Punct(RBRACE)];
    var ys := YieldShape(EraseStmt(h).shape);
    assert YieldNode(Chain(Item(h, t))) == ys + YieldNode(Chain(t));
    assert ys + yt == YieldNode(Chain(Item(h, t))) + [Punct(RBRACE)];
    if h.For? {
      KeepsHeader(h);
      KeepsNothing(PrintStmt(h.body));
      KeepsConcat(PrintHeader(h), ys, LostHeader(h), PrintStmt(h.body), [], Weight(PrintStmt(h.body)));
      assert ys + [] == ys;
      KeepsConcat(PrintStmt(h), ys, LostHeader(h) + Weight(PrintStmt(h.body)), PrintItems(t), yt, LostItems(t));
    } else {
      LeafYield(EraseStmt(h).shape);
      KeepsConcat(PrintStmt(h), ys, LostTokens(h), PrintItems(t), yt, LostItems(t));
    }
  }

  lemma KeepsNothing(ts: seq<Token>)
    ensures Keeps(ts, [], Weight(ts))
  {
  }

  lemma NextOfStmt(s: CStmt)
    ensures s.Void? ==> EraseStmt(s) == NullNode
    ensures !s.Void? ==> EraseStmt(s).Node?
    ensures !s.Void? && !s.For? ==> EraseStmt(s).next == NullNode
  {
  }

  lemma HollowStrip(c: CExpr)
    requires Hollow(c)
    ensures Strip(Print(c)) == []
  {
    if c.Paren? {
      HollowStrip(c.inner);
      KeepsParens(Print(c.inner), [], 0);
    }
  }

  lemma KeptVoid(e: CExpr)
    requires Hollow(e)
    ensures KeptStmt(Void(e))
  {
    HollowStrip(e);
  }

  lemma KeptExprStmt(e: CExpr)
    requires Kept(e)
    ensures KeptStmt(ExprStmt(e))
  {
    KeepsUntil(e, SEMICOLON);
    LeafYield(EraseStmt(ExprStmt(e)).shape);
  }

  lemma KeptInitOf(env: Env, i: ForInit)
    requires ExactEnv(env) && LegalInit(env, i)
    ensures KeptInit(i)
  {
    if i.InitExpr? { NodeKeepsTokens(env, EXPR, i.e); }
  }

  lemma {:induction false} StmtKeepsTokens(env: Env, s: CStmt)
    requires ExactEnv(env) && LegalStmt(env, s)
    ensures KeptStmt(s)
    decreases s
  {
    hide Kept, KeptStmt, KeptItems;
    match s
    case Void(e) => KeptVoid(e);
    case ExprStmt(e) =>
      NodeKeepsTokens(env, EXPR, e);
      KeptExprStmt(e);
    case Return(e) =>
      NodeKeepsTokens(env, EXPR, e);
      KeptReturn(e);
    case Block(items) =>
      ItemsKeepTokens(env, items);
      KeptBlock(items);
    case If(c, t) =>
      NodeKeepsTokens(env, EXPR, c);
      StmtKeepsTokens(env, t);
      KeptIf(c, t);
    case IfElse(c, t, e) =>
      NodeKeepsTokens(env, EXPR, c);
      StmtKeepsTokens(env, t);
      StmtKeepsTokens(env, e);
      if e.Void? { KeptEmptyElse(c, t, e.e); } else { KeptIfElse(c, t, e); }
    case Case(e, b) =>
      NodeKeepsTokens(env, EXPR, e);
      StmtKeepsTokens(env, b);
      KeptCase(e, b);
    case Default(b) =>
      StmtKeepsTokens(env, b);
      KeptDefault(b);
    case Switch(c, b) =>
      NodeKeepsTokens(env, EXPR, c);
      StmtKeepsTokens(env, b);
      KeptGuarded(s);
    case While(c, b) =>
      NodeKeepsTokens(env, EXPR, c);
      StmtKeepsTokens(env, b);
      KeptGuarded(s);
    case Do(b, c) =>
      NodeKeepsTokens(env, EXPR, c);
      StmtKeepsTokens(env, b);
      KeptDo(b, c);
    case For(i, c, st, b) =>
      KeptInitOf(env, i);
      NodeKeepsTokens(env, EXPR, c);
      NodeKeepsTokens(env, EXPR, st);
      StmtKeepsTokens(env, b);
      KeptFor(s);
    case _ => KeptSimple(env, s);
  }

  lemma KeptReturn(e: CExpr)
    requires Kept(e)
    ensures KeptStmt(Return(e))
  {
    hide Strip, Weight, Within;
    KeepsUntil(e, SEMICOLON);
    KeepsToken(Keyword(RETURN));
    KeepsConcat([Keyword(RETURN)], [Keyword(RETURN)], 0,
                Print(e) + [Punct(SEMICOLON)], Yield(Erase(e)) + [Punct(SEMICOLON)], AssignNodes(e));
    LeafYield(EraseStmt(Return(e)).shape);
  }

  lemma {:induction false} ItemsKeepTokens(env: Env, items: Items)
    requires ExactEnv(env) && LegalItems(env, items)
    ensures KeptItems(items)
    decreases items
  {
    match items
    case Close =>
      KeepsToken(Punct(RBRACE));
      assert YieldNode(NullNode) + [Punct(RBRACE)] == [Punct(RBRACE)];
    case Item(h, t) =>
      if h.Decl? { KeptSimple(env, h); } else { StmtKeepsTokens(env, h); }
      if t.Item? {
        ItemsKeepTokens(env, t);
        NextOfStmt(h);
        if h.For? {
          KeptInitOf(env, h.init);
          NodeKeepsTokens(env, EXPR, h.cond);
          NodeKeepsTokens(env, EXPR, h.step);
        }
        KeptNext(h, t);
      } else {
        KeptLast(h);
      }
  }

  /** Token conservation for statements: the tokens of the node of a parsed statement are the consumed
      ones with exactly `LostTokens` struck out, parentheses aside; when that number is zero the node
      holds them all, and only then. */
  lemma StmtTokensConserved(env: Env, ts: seq<Token>)
    requires ExactEnv(env) && ParseStmt(env, ts).Ok?
    ensures var r := ParseStmt(env, ts);
            var consumed := ts[..|ts| - |r.rest|];
            && ts == consumed + r.rest
            && Within(Strip(YieldNode(EraseStmt(r.node))), Strip(consumed))
            && |Strip(YieldNode(EraseStmt(r.node)))| + LostTokens(r.node) == |Strip(consumed)|
            && (YieldNode(EraseStmt(r.node)) == Strip(consumed) <==> LostTokens(r.node) == 0)
  {
    var r := ParseStmt(env, ts);
    StmtSound(env, ts);
    assert ts[..|ts| - |r.rest|] == PrintStmt(r.node);
    StmtKeepsTokens(env, r.node);
    StripTwice(PrintStmt(r.node));
  }
}
