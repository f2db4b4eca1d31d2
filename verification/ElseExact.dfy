/** Exactly when every `else` binds to the nearest `if`, told from the tokens alone. */
module ElseExact {
  import opened Tokens
  import opened ExprGrammar
  import opened ExprParsing
  import opened ExprTheorems
  import opened Ast
  import opened StmtGrammar
  import opened StmtParsing
  import opened StmtTheorems
  import opened StmtAst
  import opened StmtConservation
  import opened DanglingElse
  import opened ElseTokens

  // ---------- the condition ----------

  /** `ts` ends in an `else`, `a` opening and then `b` closing parentheses. */
  ghost predicate EndsIn(ts: seq<Token>, a: nat, b: nat) {
    var n := |ts|;
    && n >= a + b + 1 && ts[n - a - b - 1] == Keyword(ELSE)
    && (forall k :: n - a - b <= k < n - b ==> ts[k] == Punct(LPAREN))
    && (forall k :: n - b <= k < n ==> ts[k] == Punct(RPAREN))
  }

  /** `m` pairs of parentheses around nothing. */
  function HollowTree(m: nat): CExpr {
    if m == 0 then Missing else Paren(HollowTree(m - 1))
  }

  /** No statement starts `ts`: an expression statement would have no operand. */
  ghost predicate VoidAt(ts: seq<Token>) {
    exists q: nat :: VoidAfter(ts, q)
  }

  ghost predicate VoidAfter(ts: seq<Token>, q: nat) {
    && 2 * q <= |ts|
    && (forall k :: 0 <= k < q ==> ts[k] == Punct(LPAREN))
    && (forall k :: q <= k < 2 * q ==> ts[k] == Punct(RPAREN))
    && StmtStops(Void(HollowTree(q)), Head(ts[2 * q..]))
  }

  /** At `p` there is an `else` right after an `else` with nothing but hollow parentheses to it. */
  ghost predicate SecondElse(ts: seq<Token>, p: nat, m: nat) {
    p < |ts| && ts[p] == Keyword(ELSE) && EndsIn(ts[..p], m, m)
  }

  /** And a statement follows it. */
  ghost predicate StepsAt(ts: seq<Token>, p: nat, m: nat) {
    SecondElse(ts, p, m) && !VoidAt(ts[p + 1..])
  }

  /** Among the first `n` tokens an `else` with a statement comes right after an `else` without one. */
  ghost predicate StepsOver(ts: seq<Token>, n: nat) {
    exists p: nat, m: nat :: p < n && StepsAt(ts, p, m)
  }

  /** No `for` is followed by a sibling in its block. */
  predicate BodiesKept(s: CStmt) {
    match s
    case Block(items) => BodiesKeptItems(items)
    case If(_, t) => BodiesKept(t)
    case IfElse(_, t, e) => BodiesKept(t) && BodiesKept(e)
    case Case(_, b) => BodiesKept(b)
    case Default(b) => BodiesKept(b)
    case Switch(_, b) => BodiesKept(b)
    case While(_, b) => BodiesKept(b)
    case Do(b, _) => BodiesKept(b)
    case For(_, _, _, b) => BodiesKept(b)
    case _ => true
  }

  predicate BodiesKeptItems(items: Items) {
    match items
    case Close => true
    case Item(h, t) => (h.For? ==> t.Close?) && BodiesKept(h) && BodiesKeptItems(t)
  }

  // ---------- what follows an `else` ----------

  lemma {:induction false} HollowPrint(m: nat)
    ensures Hollow(HollowTree(m)) && |Print(HollowTree(m))| == 2 * m
    ensures forall k :: 0 <= k < m ==> Print(HollowTree(m))[k] == Punct(LPAREN)
    ensures forall k :: m <= k < 2 * m ==> Print(HollowTree(m))[k] == Punct(RPAREN)
  {
    if m > 0 { HollowPrint(m - 1); }
  }

  lemma {:induction false} HollowIsTree(env: Env, c: CExpr) returns (m: nat)
    requires Hollow(c)
    ensures c == HollowTree(m) && Legal(env, EXPR, c)
  {
    if c.Missing? {
      m := 0;
    } else {
      m := HollowIsTree(env, c.inner);
      m := m + 1;
    }
  }

  lemma {:induction false} HollowLegal(env: Env, m: nat)
    ensures Legal(env, EXPR, HollowTree(m))
  {
    if m > 0 { HollowLegal(env, m - 1); }
  }

  /** The statement parsed in front of a token that stops it is void if and only if none starts there. */
  lemma VoidIsSeen(env: Env, e: CStmt, rest: seq<Token>)
    requires LegalStmt(env, e) && StmtStops(e, Head(rest))
    ensures VoidAt(PrintStmt(e) + rest) <==> e.Void?
  {
    hide LegalStmt, StmtStops, PrintStmt, VoidAfter;
    if e.Void? {
      var q := HollowSeen(env, e.e, rest);
    }
    if VoidAt(PrintStmt(e) + rest) {
      var q: nat :| VoidAfter(PrintStmt(e) + rest, q);
      SeenIsVoid(env, e, rest, q);
    }
  }

  lemma HollowSeen(env: Env, h: CExpr, rest: seq<Token>) returns (q: nat)
    requires LegalStmt(env, Void(h)) && StmtStops(Void(h), Head(rest))
    ensures VoidAfter(PrintStmt(Void(h)) + rest, q)
  {
    hide StmtStops, Legal, Print, HollowTree, Hollow;
    q := HollowIsTree(env, h);
    HollowPrint(q);
    assert (PrintStmt(Void(h)) + rest)[2 * q..] == rest;
  }

  lemma SeenIsVoid(env: Env, e: CStmt, rest: seq<Token>, q: nat)
    requires LegalStmt(env, e) && StmtStops(e, Head(rest)) && VoidAfter(PrintStmt(e) + rest, q)
    ensures e.Void?
  {
    hide StmtStops, Legal, Print, HollowTree, Hollow;
    var ts := PrintStmt(e) + rest;
    HollowPrint(q);
    HollowLegal(env, q);
    var v := Void(HollowTree(q));
    assert ts == PrintStmt(v) + ts[2 * q..];
    StmtUnambiguous(env, e, rest, v, ts[2 * q..]);
  }

  // ---------- `else` as the operator of an assignment ----------

  /** Every `else` comes right after an assignment operator. */
  ghost predicate ElsesAreOps(ts: seq<Token>) {
    forall p :: 0 <= p < |ts| && ts[p] == Keyword(ELSE) ==> p > 0 && IsAssign(ts[p - 1])
  }

  lemma OpsConcat(a: seq<Token>, b: seq<Token>)
    requires ElsesAreOps(a) && ElsesAreOps(b)
    ensures ElsesAreOps(a + b)
  {
    forall p | 0 <= p < |a + b| && (a + b)[p] == Keyword(ELSE)
      ensures p > 0 && IsAssign((a + b)[p - 1])
    {
      if p >= |a| { assert b[p - |a|] == Keyword(ELSE); }
    }
  }

  lemma OpsThree(a: seq<Token>, b: seq<Token>, c: seq<Token>)
    requires ElsesAreOps(a) && ElsesAreOps(b) && ElsesAreOps(c)
    ensures ElsesAreOps(a + b + c)
  {
    hide ElsesAreOps;
    OpsConcat(a, b);
    OpsConcat(a + b, c);
  }

  lemma {:induction false} ExprOps(env: Env, k: Layer, c: CExpr)
    requires Legal(env, k, c)
    ensures ElsesAreOps(Print(c))
    decreases c
  {
    match c
    case Missing | Const(_) | Ident(_, _) =>
    case Paren(e) =>
      ExprOps(env, EXPR, e);
      OpsThree([Punct(LPAREN)], Print(e), [Punct(RPAREN)]);
    case Postfix(b, op) =>
      ExprOps(env, PRIMARY, b);
      OpsConcat(Print(b), [op]);
    case Index(b, i) =>
      ExprOps(env, PRIMARY, b);
      ExprOps(env, EXPR, i);
      OpsThree(Print(b), [Punct(LBRACKET)], Print(i));
      OpsConcat(Print(b) + [Punct(LBRACKET)] + Print(i), [Punct(RBRACKET)]);
    case Prefix(op, a) =>
      ExprOps(env, UNARY, a);
      OpsConcat([op], Print(a));
    case Binary(op, l, r) =>
      ExprOps(env, OpLayer(op), l);
      ExprOps(env, OpLayer(op) - 1, r);
      OpsThree(Print(l), [op], Print(r));
    case Ternary(b, t, e) =>
      ExprOps(env, 7, b);
      ExprOps(env, EXPR, t);
      ExprOps(env, COND, e);
      OpsThree(Print(b), [Punct(QUESTION)], Print(t));
      OpsThree(Print(b) + [Punct(QUESTION)] + Print(t), [Punct(COLON)], Print(e));
    case Assign(l, asg, op, r) =>
      ExprOps(env, COND, l);
      ExprOps(env, ASSIGNMENT, r);
      OpsThree(Print(l), [asg, op], Print(r));
  }

  /** A second `else` is not an operator. */
  lemma NotAnOp(pre: seq<Token>, x: seq<Token>, post: seq<Token>, p: nat, m: nat)
    requires ElsesAreOps(x) && |pre| <= p < |pre| + |x|
    ensures !SecondElse(pre + x + post, p, m)
  {
    var ts := pre + x + post;
    assert ts[p] == x[p - |pre|];
    if p > |pre| { assert ts[..p][p - 1] == x[p - |pre| - 1]; }
    if SecondElse(ts, p, m) { EndsLast(ts[..p], m, m); }
  }

  // ---------- parentheses at the end of an expression ----------

  /** No expression consists of opening parentheses and fewer closing ones. */
  lemma {:induction false} NoUnclosedRun(env: Env, k: Layer, c: CExpr, a: nat, b: nat)
    requires Legal(env, k, c) && b < a && |Print(c)| == a + b
    requires forall i :: 0 <= i < a ==> Print(c)[i] == Punct(LPAREN)
    requires forall i :: a <= i < a + b ==> Print(c)[i] == Punct(RPAREN)
    ensures false
    decreases c
  {
    var ts := Print(c);
    assert ts[0] == Punct(LPAREN);
    if c.Paren? {
      assert ts[|ts| - 1] == Punct(RPAREN);
      assert forall i :: 0 <= i < |Print(c.inner)| ==> Print(c.inner)[i] == ts[i + 1];
      NoUnclosedRun(env, EXPR, c.inner, a - 1, b - 1);
    } else {
      NoParenAt(env, k, c);
    }
  }

  /** Every expression but a parenthesised one has a token that is no parenthesis. */
  lemma NoParenAt(env: Env, k: Layer, c: CExpr)
    requires Legal(env, k, c) && !c.Paren? && !c.Missing?
    ensures exists i :: 0 <= i < |Print(c)| && !IsParen(Print(c)[i])
  {
    var i := match c
             case Postfix(b, _) => |Print(b)|
             case Index(b, _) => |Print(b)|
             case Binary(_, l, _) => |Print(l)|
             case Ternary(b, _, _) => |Print(b)|
             case Assign(l, _, _, _) => |Print(l)|
             case _ => 0;
    assert !IsParen(Print(c)[i]);
  }

  /** A token that is neither `else` nor a parenthesis bounds the ending. */
  lemma EndsBehind(pre: seq<Token>, x: Token, ts: seq<Token>, a: nat, b: nat)
    requires !IsParen(x) && x != Keyword(ELSE) && EndsIn(pre + [x] + ts, a, b)
    ensures EndsIn(ts, a, b)
  {
    assert (pre + [x] + ts)[|pre|] == x;
    EndsNarrower(pre + [x], ts, a, b);
  }

  lemma EndsNarrower(pre: seq<Token>, ts: seq<Token>, a: nat, b: nat)
    requires EndsIn(pre + ts, a, b) && |ts| >= a + b + 1
    ensures EndsIn(ts, a, b)
  {
    var n := |pre|;
    assert (pre + ts)[n..] == ts;
    forall k | |ts| - a - b - 1 <= k < |ts|
      ensures ts[k] == (pre + ts)[n + k]
    {
    }
  }

  lemma EndsInside(ts: seq<Token>, a: nat, b: nat)
    requires b > 0 && EndsIn(ts + [Punct(RPAREN)], a, b)
    ensures EndsIn(ts, a, b - 1)
  {
    var all := ts + [Punct(RPAREN)];
    assert forall k :: 0 <= k < |ts| ==> ts[k] == all[k];
  }

  lemma EndsLast(ts: seq<Token>, a: nat, b: nat)
    requires EndsIn(ts, a, b)
    ensures |ts| >= a + b + 1
    ensures ts[|ts| - 1] == if b > 0 then Punct(RPAREN) else if a > 0 then Punct(LPAREN) else Keyword(ELSE)
  {
  }

  /** No expression ends in an `else` and unclosed parentheses. */
  lemma {:induction false} NoUnclosedEnd(env: Env, k: Layer, c: CExpr, a: nat, b: nat)
    requires Legal(env, k, c) && b < a && EndsIn(Print(c), a, b)
    ensures false
    decreases c
  {
    hide EndsIn;
    var ts := Print(c);
    EndsLast(ts, a, b);
    match c
    case Paren(e) =>
      UnclosedInside(Print(e), a, b);
      NoUnclosedEnd(env, EXPR, e, a, b - 1);
    case Prefix(op, e) =>
      assert ts == [] + [op] + Print(e);
      EndsBehind([], op, Print(e), a, b);
      NoUnclosedEnd(env, UNARY, e, a, b);
    case Binary(op, l, r) =>
      EndsBehind(Print(l), op, Print(r), a, b);
      NoUnclosedEnd(env, OpLayer(op) - 1, r, a, b);
    case Ternary(e, t, f) =>
      EndsBehind(Print(e) + [Punct(QUESTION)] + Print(t), Punct(COLON), Print(f), a, b);
      NoUnclosedEnd(env, COND, f, a, b);
    case Assign(l, asg, op, r) =>
      UnclosedOperand(Print(l), asg, op, Print(r), a, b);
      if |Print(r)| == a + b {
        NoUnclosedRun(env, ASSIGNMENT, r, a, b);
      } else {
        NoUnclosedEnd(env, ASSIGNMENT, r, a, b);
      }
    case _ =>
  }

  lemma UnclosedInside(ts: seq<Token>, a: nat, b: nat)
    requires EndsIn([Punct(LPAREN)] + ts + [Punct(RPAREN)], a, b) && b > 0
    ensures EndsIn(ts, a, b - 1)
  {
    hide EndsIn;
    EndsInside([Punct(LPAREN)] + ts, a, b);
    EndsAfterOne(Punct(LPAREN), ts, a, b - 1);
  }

  lemma UnclosedOperand(l: seq<Token>, asg: Token, op: Token, r: seq<Token>, a: nat, b: nat)
    requires EndsIn(l + [asg, op] + r, a, b) && IsAssign(asg)
    ensures |r| != a + b ==> EndsIn(r, a, b)
    ensures |r| == a + b ==> forall i :: 0 <= i < a ==> r[i] == Punct(LPAREN)
    ensures |r| == a + b ==> forall i :: a <= i < a + b ==> r[i] == Punct(RPAREN)
  {
    hide EndsIn;
    assert l + [asg, op] + r == l + [asg] + ([op] + r);
    EndsBehind(l, asg, [op] + r, a, b);
    if |r| == a + b { RunBehind(op, r, a, b); } else { EndsAfterOne(op, r, a, b); }
  }

  lemma RunBehind(x: Token, ts: seq<Token>, a: nat, b: nat)
    requires EndsIn([x] + ts, a, b) && |ts| == a + b
    ensures forall i :: 0 <= i < a ==> ts[i] == Punct(LPAREN)
    ensures forall i :: a <= i < a + b ==> ts[i] == Punct(RPAREN)
  {
    assert forall i :: 0 <= i < |ts| ==> ts[i] == ([x] + ts)[i + 1];
  }

  /** The ending does not start with the first token. */
  lemma EndsAfterOne(x: Token, ts: seq<Token>, a: nat, b: nat)
    requires EndsIn([x] + ts, a, b) && (x != Keyword(ELSE) || |ts| != a + b)
    ensures EndsIn(ts, a, b)
  {
    assert ([x] + ts)[0] == x;
    EndsNarrower([x], ts, a, b);
  }

  // ---------- the end of a statement ----------

  /** Closing parentheses, the first of which ends something else, are no ending. */
  lemma RunsMatch(ts: seq<Token>, q: nat, m: nat)
    requires 0 < q && 2 * q < |ts| && ts[|ts| - 2 * q - 1] == Punct(RPAREN)
    requires forall k :: |ts| - 2 * q <= k < |ts| - q ==> ts[k] == Punct(LPAREN)
    requires forall k :: |ts| - q <= k < |ts| ==> ts[k] == Punct(RPAREN)
    ensures !EndsIn(ts, m, m)
  {
    assert ts[|ts| - q - 1] == Punct(LPAREN) && ts[|ts| - q] == Punct(RPAREN);
  }

  /** A parenthesised expression, and hollow parentheses after it, end otherwise. */
  lemma NoGuardEnd(env: Env, c: CExpr, h: CExpr, m: nat)
    requires Legal(env, EXPR, c) && Hollow(h)
    ensures !EndsIn(Print(c) + [Punct(RPAREN)] + Print(h), m, m)
  {
    var ts := Print(c) + [Punct(RPAREN)] + Print(h);
    if EndsIn(ts, m, m) {
      var q := HollowIsTree(env, h);
      HollowPrint(q);
      var n := |ts|;
      assert ts[n - 2 * q - 1] == Punct(RPAREN);
      if q > 0 {
        RunsMatch(ts, q, m);
      } else {
        assert ts == Print(c) + [Punct(RPAREN)];
        EndsInside(Print(c), m, m);
        NoUnclosedEnd(env, EXPR, c, m, m - 1);
      }
    }
  }

  lemma NoHollowEnd(env: Env, h: CExpr, m: nat)
    requires Hollow(h)
    ensures !EndsIn(Print(h), m, m)
  {
    var q := HollowIsTree(env, h);
    HollowPrint(q);
  }

  lemma {:induction false} ItemsEnd(items: Items)
    ensures var ts := PrintItems(items); ts != [] && ts[|ts| - 1] == Punct(RBRACE)
  {
    hide PrintStmt;
    if items.Item? { ItemsEnd(items.tail); }
  }

  /** The last token of these statements is a semicolon or a brace. */
  lemma ClosedEnd(s: CStmt, pre: seq<Token>, m: nat)
    requires !HasBody(s) && !s.Void?
    ensures !EndsIn(pre + PrintStmt(s), m, m)
  {
    hide Print;
    var ts := pre + PrintStmt(s);
    if s.Block? {
      ItemsEnd(s.items);
      assert ts[|ts| - 1] == Punct(RBRACE);
    } else {
      assert ts[|ts| - 1] == Punct(SEMICOLON);
    }
  }

  /** A body that is void, behind its header, does not end so. */
  lemma NoVoidEnd(env: Env, s: CStmt, pre: seq<Token>, m: nat)
    requires LegalStmt(env, s) && HasBody(s) && !s.If? && !s.IfElse? && s.body.Void?
    ensures !EndsIn(pre + PrintStmt(s), m, m)
  {
    hide Print, Legal, EndsIn;
    var h := s.body.e;
    if EndsIn(pre + PrintStmt(s), m, m) {
      match s
      case Case(e, _) =>
        CasePrint(e, s.body);
        NoLabelledEnd(env, pre, [Keyword(CASE)] + Print(e), h, m);
      case Default(_) =>
        assert PrintStmt(s) == [Keyword(DEFAULT)] + [Punct(COLON)] + Print(h);
        NoLabelledEnd(env, pre, [Keyword(DEFAULT)], h, m);
      case Switch(c, _) =>
        assert PrintStmt(s) == [Keyword(SWITCH)] + Print(Paren(c)) + Print(h);
        NoGuardedEnd(env, pre, SWITCH, c, h, m);
      case While(c, _) =>
        assert PrintStmt(s) == [Keyword(WHILE)] + Print(Paren(c)) + Print(h);
        NoGuardedEnd(env, pre, WHILE, c, h, m);
      case For(i, c, st, _) => NoForEnd(env, s, pre, m);
    }
  }

  lemma CasePrint(e: CExpr, b: CStmt)
    ensures PrintStmt(Case(e, b)) == ([Keyword(CASE)] + Print(e)) + [Punct(COLON)] + PrintStmt(b)
  {
    hide Print;
  }

  lemma NoLabelledEnd(env: Env, pre: seq<Token>, front: seq<Token>, h: CExpr, m: nat)
    requires Hollow(h)
    ensures !EndsIn(pre + (front + [Punct(COLON)] + Print(h)), m, m)
  {
    hide Print, EndsIn;
    var ts := pre + (front + [Punct(COLON)] + Print(h));
    assert ts == (pre + front) + [Punct(COLON)] + Print(h);
    if EndsIn(ts, m, m) {
      EndsBehind(pre + front, Punct(COLON), Print(h), m, m);
      NoHollowEnd(env, h, m);
    }
  }

  lemma NoForEnd(env: Env, s: CStmt, pre: seq<Token>, m: nat)
    requires LegalStmt(env, s) && s.For? && s.body.Void?
    ensures !EndsIn(pre + PrintStmt(s), m, m)
  {
    hide Print, EndsIn;
    var front := [Keyword(FOR), Punct(LPAREN)] + PrintInit(s.init) + Print(s.cond);
    var tail := Print(s.step) + [Punct(RPAREN)] + Print(s.body.e);
    assert PrintStmt(s) == front + [Punct(SEMICOLON)] + tail;
    assert pre + PrintStmt(s) == (pre + front) + [Punct(SEMICOLON)] + tail;
    if EndsIn(pre + PrintStmt(s), m, m) {
      EndsBehind(pre + front, Punct(SEMICOLON), tail, m, m);
      NoGuardEnd(env, s.step, s.body.e, m);
    }
  }

  lemma NoGuardedEnd(env: Env, pre: seq<Token>, kw: Keyword, c: CExpr, h: CExpr, m: nat)
    requires Legal(env, EXPR, c) && Hollow(h) && kw != ELSE
    ensures !EndsIn(pre + ([Keyword(kw)] + Print(Paren(c)) + Print(h)), m, m)
  {
    var inner := Print(c) + [Punct(RPAREN)] + Print(h);
    var ts := pre + ([Keyword(kw)] + Print(Paren(c)) + Print(h));
    assert ts == pre + [Keyword(kw)] + ([Punct(LPAREN)] + inner);
    if EndsIn(ts, m, m) {
      hide Print, EndsIn;
      EndsBehind(pre, Keyword(kw), [Punct(LPAREN)] + inner, m, m);
      EndsAfterOne(Punct(LPAREN), inner, m, m);
      NoGuardEnd(env, c, h, m);
    }
  }

  /** Only a statement whose last `else` has nothing after it ends so. */
  lemma {:induction false} OnlyEmptyElseEnds(env: Env, s: CStmt, pre: seq<Token>, m: nat)
    requires LegalStmt(env, s) && !s.Void? && EndsIn(pre + PrintStmt(s), m, m)
    requires StmtStops(s, Keyword(ELSE))
    ensures EndsEmptyElse(s)
    decreases s
  {
    hide EndsIn, Print, Legal;
    if !HasBody(s) {
      ClosedEnd(s, pre, m);
    } else if Body(s).Void? {
      if !s.IfElse? { NoVoidEnd(env, s, pre, m); }
    } else {
      FrontAndBody(s);
      assert pre + PrintStmt(s) == (pre + Front(s)) + PrintStmt(Body(s));
      OnlyEmptyElseEnds(env, Body(s), pre + Front(s), m);
    }
  }

  // ---------- from tokens to trees ----------

  /** The header of a statement, up to its body or its `else`. */
  ghost function Header(s: CStmt): seq<Token>
    requires HasBody(s)
  {
    if s.IfElse? then [Keyword(IF)] + Print(Paren(s.cond)) else Front(s)
  }

  lemma InitOps(env: Env, i: ForInit)
    requires LegalInit(env, i)
    ensures ElsesAreOps(PrintInit(i))
  {
    if i.InitExpr? {
      ExprOps(env, EXPR, i.e);
      OpsConcat(Print(i.e), [Punct(SEMICOLON)]);
    }
  }

  lemma GuardOps(env: Env, kw: Keyword, c: CExpr)
    requires Legal(env, EXPR, c) && kw != ELSE
    ensures ElsesAreOps([Keyword(kw)] + Print(Paren(c)))
  {
    hide Print;
    ExprOps(env, EXPR, Paren(c));
    OpsConcat([Keyword(kw)], Print(Paren(c)));
  }

  lemma HeaderOps(env: Env, s: CStmt)
    requires LegalStmt(env, s) && HasBody(s)
    ensures ElsesAreOps(Header(s))
  {
    hide Print, Legal, PrintStmt, StmtStops, PrintInit, LegalInit;
    match s
    case If(c, _) => GuardOps(env, IF, c);
    case IfElse(c, _, _) => GuardOps(env, IF, c);
    case Switch(c, _) => GuardOps(env, SWITCH, c);
    case While(c, _) => GuardOps(env, WHILE, c);
    case Case(e, _) =>
      ExprOps(env, EXPR, e);
      OpsConcat(Print(e), [Punct(COLON)]);
      OpsConcat([Keyword(CASE)], Print(e) + [Punct(COLON)]);
    case Default(_) =>
    case For(i, c, st, _) =>
      InitOps(env, i);
      ExprOps(env, EXPR, c);
      ExprOps(env, EXPR, st);
      OpsConcat([Keyword(FOR), Punct(LPAREN)], PrintInit(i));
      OpsConcat(Print(c), [Punct(SEMICOLON)]);
      OpsConcat(Print(st), [Punct(RPAREN)]);
      OpsThree([Keyword(FOR), Punct(LPAREN)] + PrintInit(i), Print(c) + [Punct(SEMICOLON)],
               Print(st) + [Punct(RPAREN)]);
  }

  lemma SimpleOps(env: Env, s: CStmt)
    requires if s.Decl? then IsDeclSpec(s.spec) else LegalStmt(env, s)
    requires !HasBody(s) && !s.Do? && !s.Block?
    ensures ElsesAreOps(PrintStmt(s))
  {
    hide Print, Legal;
    if s.ExprStmt? {
      ExprOps(env, EXPR, s.e);
      OpsConcat(Print(s.e), [Punct(SEMICOLON)]);
    } else if s.Void? {
      ExprOps(env, EXPR, s.e);
    } else if s.Return? {
      ExprOps(env, EXPR, s.e);
      OpsConcat(Print(s.e), [Punct(SEMICOLON)]);
      OpsConcat([Keyword(RETURN)], Print(s.e) + [Punct(SEMICOLON)]);
    }
  }

  lemma DoTailOps(env: Env, c: CExpr)
    requires Legal(env, EXPR, c)
    ensures ElsesAreOps(DoTail(c))
  {
    hide Print;
    GuardOps(env, WHILE, c);
    OpsConcat([Keyword(WHILE)] + Print(Paren(c)), [Punct(SEMICOLON)]);
  }

  /** Position `p` of `pre + part + post` is in `part`, where every `else` is an operator. */
  lemma NoStep(pre: seq<Token>, part: seq<Token>, post: seq<Token>, p: nat, m: nat)
    requires ElsesAreOps(part) && |pre| <= p < |pre| + |part|
    ensures !StepsAt(pre + part + post, p, m)
  {
    NotAnOp(pre, part, post, p, m);
  }

  lemma IfSplits(pre: seq<Token>, h: seq<Token>, t: seq<Token>, x: Token, e: seq<Token>, rest: seq<Token>)
    ensures var ts := pre + (h + t + [x] + e) + rest;
            && ts == pre + h + (t + [x] + e + rest)
            && ts == (pre + h) + t + ([x] + e + rest)
            && ts == (pre + h + t) + [x] + (e + rest)
            && ts == (pre + h + t + [x]) + e + rest
  {
  }

  lemma BodySplits(pre: seq<Token>, h: seq<Token>, t: seq<Token>, tail: seq<Token>, rest: seq<Token>)
    ensures var ts := pre + (h + t + tail) + rest;
            && ts == pre + h + (t + tail + rest)
            && ts == (pre + h) + t + (tail + rest)
            && ts == (pre + h + t) + tail + rest
  {
  }

  lemma IfPrint(s: CStmt)
    requires s.IfElse?
    ensures PrintStmt(s) == Header(s) + PrintStmt(s.thn) + [Keyword(ELSE)] + PrintStmt(s.els)
  {
    hide Print;
  }

  lemma DoPrint(s: CStmt)
    requires s.Do?
    ensures PrintStmt(s) == [Keyword(DO)] + PrintStmt(s.body) + DoTail(s.cond)
  {
    hide Print;
  }

  lemma BlockPrint(items: Items)
    ensures PrintStmt(Block(items)) == [Punct(LBRACE)] + PrintItems(items)
  {
  }

  /** The tokens of a `do` behind its body. */
  function DoTail(c: CExpr): seq<Token> {
    [Keyword(WHILE)] + Print(Paren(c)) + [Punct(SEMICOLON)]
  }

  /** If one of the tokens of `s` is a second `else` with a statement, then so it is in the tree. */
  lemma {:induction false} StepIsInTree(env: Env, s: CStmt, pre: seq<Token>, rest: seq<Token>, p: nat, m: nat)
    requires if s.Decl? then IsDeclSpec(s.spec) else LegalStmt(env, s) && StmtStops(s, Head(rest))
    requires BodiesKept(s) && |pre| <= p < |pre| + |PrintStmt(s)| && StepsAt(pre + PrintStmt(s) + rest, p, m)
    ensures !ElsesFilled(s)
    decreases s
  {
    hide StepsAt, Print, Legal, ElsesAreOps;
    if s.Block? {
      assert pre + PrintStmt(s) + rest == (pre + [Punct(LBRACE)]) + PrintItems(s.items) + rest;
      BraceOps(Punct(LBRACE));
      if p == |pre| {
        assert pre + PrintStmt(s) + rest == pre + [Punct(LBRACE)] + (PrintItems(s.items) + rest);
        NoStep(pre, [Punct(LBRACE)], PrintItems(s.items) + rest, p, m);
      } else {
        StepIsInItems(env, s.items, pre + [Punct(LBRACE)], rest, p, m);
      }
    } else if s.Do? {
      StepIsInDo(env, s, pre, rest, p, m);
    } else if s.IfElse? {
      StepIsInIf(env, s, pre, rest, p, m);
    } else if HasBody(s) {
      FrontAndBody(s);
      HeaderOps(env, s);
      var f := Front(s);
      assert pre + PrintStmt(s) + rest == pre + f + (PrintStmt(Body(s)) + rest);
      if p < |pre| + |f| {
        NoStep(pre, f, PrintStmt(Body(s)) + rest, p, m);
      } else {
        assert pre + PrintStmt(s) + rest == (pre + f) + PrintStmt(Body(s)) + rest;
        BodyStops(s, Head(rest));
        StepIsInTree(env, Body(s), pre + f, rest, p, m);
      }
    } else {
      SimpleOps(env, s);
      NoStep(pre, PrintStmt(s), rest, p, m);
    }
  }

  lemma BraceOps(t: Token)
    requires !t.Keyword?
    ensures ElsesAreOps([t])
  {
  }

  lemma BodyStops(s: CStmt, t: Token)
    requires HasBody(s) && StmtStops(s, t)
    ensures StmtStops(Body(s), t)
  {
  }

  lemma {:induction false} StepIsInDo(env: Env, s: CStmt, pre: seq<Token>, rest: seq<Token>, p: nat, m: nat)
    requires s.Do? && LegalStmt(env, s)
    requires BodiesKept(s) && |pre| <= p < |pre| + |PrintStmt(s)| && StepsAt(pre + PrintStmt(s) + rest, p, m)
    ensures !ElsesFilled(s)
    decreases s, 0
  {
    hide StepsAt, Legal, ElsesAreOps, PrintStmt, DoTail;
    var (b, tail) := (PrintStmt(s.body), DoTail(s.cond));
    DoTailOps(env, s.cond);
    DoOps();
    DoPrint(s);
    BodySplits(pre, [Keyword(DO)], b, tail, rest);
    if p == |pre| {
      NoStep(pre, [Keyword(DO)], b + tail + rest, p, m);
    } else if p < |pre| + 1 + |b| {
      assert Head(tail + rest) == Keyword(WHILE) by { DoTailHead(s.cond, rest); }
      StepIsInTree(env, s.body, pre + [Keyword(DO)], tail + rest, p, m);
    } else {
      NoStep(pre + [Keyword(DO)] + b, tail, rest, p, m);
    }
  }

  lemma DoTailHead(c: CExpr, rest: seq<Token>)
    ensures Head(DoTail(c) + rest) == Keyword(WHILE)
  {
  }

  lemma DoOps()
    ensures ElsesAreOps([Keyword(DO)])
  {
  }

  lemma {:induction false} StepIsInIf(env: Env, s: CStmt, pre: seq<Token>, rest: seq<Token>, p: nat, m: nat)
    requires s.IfElse? && LegalStmt(env, s) && StmtStops(s, Head(rest))
    requires BodiesKept(s) && |pre| <= p < |pre| + |PrintStmt(s)| && StepsAt(pre + PrintStmt(s) + rest, p, m)
    ensures !ElsesFilled(s)
    decreases s, 0
  {
    hide StepsAt, Print, Legal, ElsesAreOps, PrintStmt, Header;
    var (h, t, e) := (Header(s), PrintStmt(s.thn), PrintStmt(s.els));
    HeaderOps(env, s);
    IfPrint(s);
    IfSplits(pre, h, t, Keyword(ELSE), e, rest);
    if p < |pre| + |h| {
      NoStep(pre, h, t + [Keyword(ELSE)] + e + rest, p, m);
    } else if p < |pre| + |h| + |t| {
      StepIsInTree(env, s.thn, pre + h, [Keyword(ELSE)] + e + rest, p, m);
    } else if p == |pre| + |h| + |t| {
      StepIsHere(env, s, pre + h, rest, m);
    } else {
      StepIsInTree(env, s.els, pre + h + t + [Keyword(ELSE)], rest, p, m);
    }
  }

  lemma StepIsHere(env: Env, s: CStmt, pre: seq<Token>, rest: seq<Token>, m: nat)
    requires s.IfElse? && LegalStmt(env, s) && StmtStops(s, Head(rest))
    requires var ts := (pre + PrintStmt(s.thn)) + [Keyword(ELSE)] + (PrintStmt(s.els) + rest);
             StepsAt(ts, |pre + PrintStmt(s.thn)|, m)
    ensures EndsEmptyElse(s.thn) && !s.els.Void?
  {
    hide Print, Legal, EndsIn, VoidAt, PrintStmt;
    var front := pre + PrintStmt(s.thn);
    var ts := front + [Keyword(ELSE)] + (PrintStmt(s.els) + rest);
    assert ts[..|front|] == front;
    assert ts[|front| + 1..] == PrintStmt(s.els) + rest;
    OnlyEmptyElseEnds(env, s.thn, pre, m);
    VoidIsSeen(env, s.els, rest);
  }

  lemma {:induction false} StepIsInItems(env: Env, items: Items, pre: seq<Token>, rest: seq<Token>, p: nat, m: nat)
    requires LegalItems(env, items) && BodiesKeptItems(items)
    requires |pre| <= p < |pre| + |PrintItems(items)| && StepsAt(pre + PrintItems(items) + rest, p, m)
    ensures !ElsesFilledItems(items)
    decreases items
  {
    hide StepsAt, Print, Legal, ElsesAreOps, PrintStmt, LegalStmt, StmtStops, BodiesKept, ElsesFilled;
    var ts := pre + PrintItems(items) + rest;
    match items
    case Close =>
      BraceOps(Punct(RBRACE));
      NoStep(pre, [Punct(RBRACE)], rest, p, m);
    case Item(h, t) =>
      if p < |pre| + |PrintStmt(h)| {
        assert ts == pre + PrintStmt(h) + (PrintItems(t) + rest);
        ItemsPrint(t);
        StepIsInTree(env, h, pre, PrintItems(t) + rest, p, m);
      } else {
        assert ts == (pre + PrintStmt(h)) + PrintItems(t) + rest;
        StepIsInItems(env, t, pre + PrintStmt(h), rest, p, m);
      }
  }

  // ---------- from trees to tokens ----------

  lemma EndsWider(pre: seq<Token>, ts: seq<Token>, m: nat)
    requires EndsIn(ts, m, m)
    ensures EndsIn(pre + ts, m, m)
  {
    assert forall k :: 0 <= k < |ts| ==> (pre + ts)[|pre| + k] == ts[k];
  }

  lemma {:induction false} EmptyElseEnds(env: Env, s: CStmt) returns (m: nat)
    requires LegalStmt(env, s) && EndsEmptyElse(s)
    ensures EndsIn(PrintStmt(s), m, m)
    decreases s
  {
    hide EndsIn, Print, Legal, StmtStops;
    FrontAndBody(s);
    if s.IfElse? && s.els.Void? {
      m := HollowIsTree(env, s.els.e);
      HollowEnds(m);
      var a := [Keyword(IF)] + Print(Paren(s.cond)) + PrintStmt(s.thn);
      assert Front(s) == a + [Keyword(ELSE)];
      assert PrintStmt(s) == a + ([Keyword(ELSE)] + Print(HollowTree(m)));
      EndsWider(a, [Keyword(ELSE)] + Print(HollowTree(m)), m);
    } else {
      m := EmptyElseEnds(env, Body(s));
      EndsWider(Front(s), PrintStmt(Body(s)), m);
    }
  }

  lemma HollowEnds(m: nat)
    ensures EndsIn([Keyword(ELSE)] + Print(HollowTree(m)), m, m)
  {
    hide Print;
    HollowPrint(m);
  }

  /** An `else` of the tree that steps over another does so among the tokens. */
  lemma {:induction false} StepIsInTokens(env: Env, s: CStmt, pre: seq<Token>, rest: seq<Token>)
    returns (p: nat, m: nat)
    requires if s.Decl? then IsDeclSpec(s.spec) else LegalStmt(env, s) && StmtStops(s, Head(rest))
    requires !ElsesFilled(s)
    ensures |pre| <= p < |pre| + |PrintStmt(s)| && StepsAt(pre + PrintStmt(s) + rest, p, m)
    decreases s
  {
    hide StepsAt, Print, Legal, PrintStmt, Front, DoTail;
    if s.Block? {
      BlockPrint(s.items);
      assert pre + PrintStmt(s) + rest == (pre + [Punct(LBRACE)]) + PrintItems(s.items) + rest;
      p, m := StepIsInItemTokens(env, s.items, pre + [Punct(LBRACE)], rest);
    } else if s.Do? {
      var tail := DoTail(s.cond);
      DoPrint(s);
      DoTailHead(s.cond, rest);
      BodySplits(pre, [Keyword(DO)], PrintStmt(s.body), tail, rest);
      p, m := StepIsInTokens(env, s.body, pre + [Keyword(DO)], tail + rest);
    } else if s.IfElse? {
      p, m := StepIsInIfTokens(env, s, pre, rest);
    } else {
      FrontAndBody(s);
      assert pre + PrintStmt(s) + rest == (pre + Front(s)) + PrintStmt(Body(s)) + rest;
      BodyStops(s, Head(rest));
      p, m := StepIsInTokens(env, Body(s), pre + Front(s), rest);
    }
  }

  lemma {:induction false} StepIsInIfTokens(env: Env, s: CStmt, pre: seq<Token>, rest: seq<Token>)
    returns (p: nat, m: nat)
    requires s.IfElse? && LegalStmt(env, s) && StmtStops(s, Head(rest)) && !ElsesFilled(s)
    ensures |pre| <= p < |pre| + |PrintStmt(s)| && StepsAt(pre + PrintStmt(s) + rest, p, m)
    decreases s, 0
  {
    hide StepsAt, Print, Legal, PrintStmt, Header;
    var (h, t, e) := (Header(s), PrintStmt(s.thn), PrintStmt(s.els));
    IfPrint(s);
    IfSplits(pre, h, t, Keyword(ELSE), e, rest);
    if !ElsesFilled(s.thn) {
      p, m := StepIsInTokens(env, s.thn, pre + h, [Keyword(ELSE)] + e + rest);
    } else if !ElsesFilled(s.els) {
      p, m := StepIsInTokens(env, s.els, pre + h + t + [Keyword(ELSE)], rest);
    } else {
      p := |pre + h + t|;
      m := StepsHere(env, s, pre + h, rest);
    }
  }

  lemma StepsHere(env: Env, s: CStmt, pre: seq<Token>, rest: seq<Token>) returns (m: nat)
    requires s.IfElse? && LegalStmt(env, s) && StmtStops(s, Head(rest))
    requires EndsEmptyElse(s.thn) && !s.els.Void?
    ensures var ts := (pre + PrintStmt(s.thn)) + [Keyword(ELSE)] + (PrintStmt(s.els) + rest);
            StepsAt(ts, |pre + PrintStmt(s.thn)|, m)
  {
    hide Print, Legal, EndsIn, VoidAt, PrintStmt;
    var front := pre + PrintStmt(s.thn);
    var ts := front + [Keyword(ELSE)] + (PrintStmt(s.els) + rest);
    assert ts[..|front|] == front;
    assert ts[|front| + 1..] == PrintStmt(s.els) + rest;
    m := EmptyElseEnds(env, s.thn);
    EndsWider(pre, PrintStmt(s.thn), m);
    VoidIsSeen(env, s.els, rest);
  }

  lemma {:induction false} StepIsInItemTokens(env: Env, items: Items, pre: seq<Token>, rest: seq<Token>)
    returns (p: nat, m: nat)
    requires LegalItems(env, items) && !ElsesFilledItems(items)
    ensures |pre| <= p < |pre| + |PrintItems(items)| && StepsAt(pre + PrintItems(items) + rest, p, m)
    decreases items
  {
    hide StepsAt, Print, Legal, PrintStmt, LegalStmt, StmtStops, ElsesFilled;
    var (h, t) := (items.head, items.tail);
    var ts := pre + PrintItems(items) + rest;
    if !ElsesFilledItems(t) {
      assert ts == (pre + PrintStmt(h)) + PrintItems(t) + rest;
      p, m := StepIsInItemTokens(env, t, pre + PrintStmt(h), rest);
    } else {
      assert ts == pre + PrintStmt(h) + (PrintItems(t) + rest);
      ItemsPrint(t);
      p, m := StepIsInTokens(env, h, pre, PrintItems(t) + rest);
    }
  }

  /** In a statement no `for` of which is followed by a sibling, every `else` of the result is attached
      to the nearest `if` that can take it, if and only if among the tokens consumed no `else` with a
      statement comes right after an `else` without one. */
  lemma ElsesOnTokens(env: Env, ts: seq<Token>)
    requires ParseStmt(env, ts).Ok? && BodiesKept(ParseStmt(env, ts).node)
    ensures var r := ParseStmt(env, ts);
            NearestIf(EraseStmt(r.node)) <==> !StepsOver(ts, |ts| - |r.rest|)
  {
    hide ParseStmt, LegalStmt, StmtStops, PrintStmt, NearestIf, EraseStmt, StepsAt, BodiesKept, ElsesFilled;
    var r := ParseStmt(env, ts);
    var s := r.node;
    StmtSound(env, ts);
    ErasedNearest(env, s);
    assert [] + PrintStmt(s) + r.rest == ts;
    if !ElsesFilled(s) {
      var p, m := StepIsInTokens(env, s, [], r.rest);
    }
    if StepsOver(ts, |ts| - |r.rest|) {
      var p: nat, m: nat :| p < |ts| - |r.rest| && StepsAt(ts, p, m);
      StepIsInTree(env, s, [], r.rest, p, m);
    }
  }
}
