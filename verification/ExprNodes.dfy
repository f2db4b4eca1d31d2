/** Which node each form of expression builds, told from tokens: kinds, fields and precedence. */
module ExprNodes {
  import opened Tokens
  import opened ExprGrammar
  import opened ExprParsing
  import opened ExprTheorems
  import opened Ast

  // ---------- operators, level by level ----------

  const MULTIPLICATIVE: set<Punct> := {MUL, DIV, MOD}
  const ADDITIVE: set<Punct> := {ADD, SUB}
  const COMPARING: set<Punct> := {EQ, NE, LT, GT, LTE, GTE}
  const BITWISE: set<Punct> := {BOR, BAND, BNOT, BLSHIFT, BRSHIFT}
  const LOGICAL: set<Punct> := {LOR, LAND, LNOT}
  const PREFIXES: set<Punct> := {INC, DEC, BAND, MUL, ADD, SUB, BNOT}
  const ASSIGNING: set<Punct> := {
    ASSIGN, ASGN_ADD, ASGN_SUB, ASGN_MUL, ASGN_DIV, ASGN_MOD,
    ASGN_BAND, ASGN_BOR, ASGN_BXOR, ASGN_BLSHIFT, ASGN_BRSHIFT}

  /** How loosely a binary operator binds, from 1 for the tightest to 6 for the comma; 0 for none. */
  function Looseness(p: Punct): (l: nat)
    ensures l <= 6
  {
    if p in MULTIPLICATIVE then 1
    else if p in ADDITIVE then 2
    else if p in COMPARING then 3
    else if p in BITWISE then 4
    else if p in LOGICAL then 5
    else if p == COMMA then 6
    else 0
  }

  // ---------- operands and whole expressions ----------

  /** `n` is the node of a constant or a declared name. */
  predicate LeafNode(env: Env, t: Token, n: Expr) {
    match t
    case Integer(_) => n == ConstNode(LongType, t)
    case Character(_) => n == ConstNode(CharType, t)
    case Floating(_) => n == ConstNode(DoubleType, t)
    case Identifier(name) => name in env && n == IdentNode(env[name])
    case _ => false
  }

  /** Up to a semicolon `ts` is read as one expression, with node `n`. */
  ghost predicate Whole(env: Env, ts: seq<Token>, n: Expr) {
    var r := Parse(env, EXPR, ts + [Punct(SEMICOLON)]);
    r.Ok? && r.rest == [Punct(SEMICOLON)] && Erase(r.node) == n
  }

  ghost predicate Grouped(env: Env, xs: seq<Token>, n: Expr) {
    && |xs| >= 2 && xs[0] == Punct(LPAREN) && xs[|xs| - 1] == Punct(RPAREN)
    && Whole(env, xs[1..|xs| - 1], n)
  }

  /** `xs` is a constant, a declared name or any expression in parentheses, with node `n`. */
  ghost predicate Operand(env: Env, xs: seq<Token>, n: Expr) {
    (|xs| == 1 && LeafNode(env, xs[0], n)) || Grouped(env, xs, n)
  }

  /** The tree behind an operand. */
  lemma OperandTree(env: Env, xs: seq<Token>, n: Expr) returns (c: CExpr)
    requires Operand(env, xs, n)
    ensures Legal(env, PRIMARY, c) && !c.Missing? && Print(c) == xs && Erase(c) == n && !EndsMissing(c)
  {
    if Grouped(env, xs, n) {
      var e := WholeTree(env, xs[1..|xs| - 1], n);
      c := Paren(e);
      assert xs == [xs[0]] + xs[1..|xs| - 1] + [xs[|xs| - 1]];
    } else {
      var t := xs[0];
      c := if t.Identifier? then Ident(t.name, env[t.name]) else Const(t);
    }
  }

  lemma WholeTree(env: Env, ts: seq<Token>, n: Expr) returns (c: CExpr)
    requires Whole(env, ts, n)
    ensures Legal(env, EXPR, c) && Print(c) == ts && Erase(c) == n
  {
    hide Parse, Legal, Print, Erase, Stops;
    var semi := [Punct(SEMICOLON)];
    c := Parse(env, EXPR, ts + semi).node;
    Sound(env, EXPR, ts + semi);
    assert (Print(c) + semi)[..|Print(c)|] == Print(c) && (ts + semi)[..|ts|] == ts;
  }

  lemma TreeWhole(env: Env, c: CExpr)
    requires Legal(env, EXPR, c)
    ensures Whole(env, Print(c), Erase(c))
  {
    hide Parse, Legal, Print, Erase;
    CloserStops(EXPR, c, Punct(SEMICOLON));
    RoundTrip(env, EXPR, c, [Punct(SEMICOLON)]);
  }

  /** What is read up to a semicolon is read up to any other end of an expression. */
  lemma WholeAnywhere(env: Env, ts: seq<Token>, n: Expr, rest: seq<Token>)
    requires Whole(env, ts, n)
    requires Head(rest) in {Eof, Punct(RPAREN), Punct(RBRACKET), Punct(COLON), Punct(SEMICOLON)}
    ensures var r := Parse(env, EXPR, ts + rest); r.Ok? && r.rest == rest && Erase(r.node) == n
  {
    hide Parse, Legal, Print, Erase;
    var c := WholeTree(env, ts, n);
    CloserStops(EXPR, c, Head(rest));
    RoundTrip(env, EXPR, c, rest);
  }

  /** These are the prefix and the assignment operators, and no others. */
  lemma LiteralSets(p: Punct)
    ensures IsPrefix(Punct(p)) <==> p in PREFIXES
    ensures IsAssign(Punct(p)) <==> p in ASSIGNING
  {
  }

  // ---------- one operator ----------

  lemma ConstantNode(env: Env, t: Token, n: Expr)
    requires LeafNode(env, t, n)
    ensures Whole(env, [t], n)
  {
    var c := OperandTree(env, [t], n);
    LegalUp(env, PRIMARY, EXPR, c);
    TreeWhole(env, c);
  }

  /** Parentheses leave no trace. */
  lemma GroupNode(env: Env, ts: seq<Token>, n: Expr)
    requires Whole(env, ts, n)
    ensures Whole(env, [Punct(LPAREN)] + ts + [Punct(RPAREN)], n)
  {
    var c := WholeTree(env, ts, n);
    TreeWhole(env, Paren(c));
  }

  lemma PrefixBuilds(env: Env, op: Punct, xs: seq<Token>, a: Expr)
    requires op in PREFIXES && Operand(env, xs, a)
    ensures Whole(env, [Punct(op)] + xs, UnaryNode(Punct(op), a))
  {
    hide Parse, Whole, Operand, IsPrefix, IsAssign, OpLayer;
    LiteralSets(op);
    var c := OperandTree(env, xs, a);
    LegalUp(env, PRIMARY, UNARY, c);
    TreeWhole(env, Prefix(Punct(op), c));
  }

  lemma StepBuilds(env: Env, xs: seq<Token>, a: Expr, op: Punct)
    requires op in {INC, DEC} && Operand(env, xs, a)
    ensures Whole(env, xs + [Punct(op)], PostfixNode(Punct(op), a, Null))
  {
    var c := OperandTree(env, xs, a);
    TreeWhole(env, Postfix(c, Punct(op)));
  }

  lemma IndexBuilds(env: Env, xs: seq<Token>, a: Expr, ts: seq<Token>, i: Expr)
    requires Operand(env, xs, a) && Whole(env, ts, i)
    ensures Whole(env, xs + [Punct(LBRACKET)] + ts + [Punct(RBRACKET)], PostfixNode(Punct(LBRACKET), a, i))
  {
    var c := OperandTree(env, xs, a);
    var e := WholeTree(env, ts, i);
    TreeWhole(env, Index(c, e));
  }

  lemma TernaryBuilds(env: Env, xs: seq<Token>, a: Expr, ts: seq<Token>, b: Expr, zs: seq<Token>, c: Expr)
    requires Operand(env, xs, a) && Whole(env, ts, b) && Operand(env, zs, c)
    ensures Whole(env, xs + [Punct(QUESTION)] + ts + [Punct(COLON)] + zs, TernaryNode(a, b, c))
  {
    var x := OperandTree(env, xs, a);
    var z := OperandTree(env, zs, c);
    var t := WholeTree(env, ts, b);
    LegalUp(env, PRIMARY, 7, x);
    LegalUp(env, PRIMARY, COND, z);
    TreeWhole(env, Ternary(x, t, z));
  }

  /** The layer whose loop takes the operator. */
  function LevelLayer(l: nat): (k: Layer)
    requires 1 <= l <= 6
    ensures IsLoop(k)
  {
    if l == 6 then EXPR else l + 2
  }

  lemma LayerOfLevel(p: Punct)
    ensures OpLayer(Punct(p)) == if Looseness(p) == 0 then 0 else LevelLayer(Looseness(p))
  {
  }

  lemma BinaryBuilds(env: Env, xs: seq<Token>, a: Expr, op: Punct, ys: seq<Token>, b: Expr)
    requires Operand(env, xs, a) && Looseness(op) > 0 && Operand(env, ys, b)
    ensures Whole(env, xs + [Punct(op)] + ys, BinaryNode(Punct(op), a, b))
  {
    hide OpLayer, Looseness, Parse, Whole, Operand, IsPrefix, IsAssign;
    var x := OperandTree(env, xs, a);
    var y := OperandTree(env, ys, b);
    LayerOfLevel(op);
    var k := LevelLayer(Looseness(op));
    LegalUp(env, PRIMARY, k, x);
    LegalUp(env, PRIMARY, k - 1, y);
    TreeWhole(env, Binary(Punct(op), x, y));
  }

  /** The operator is lost: the token after it takes its place. */
  lemma AssignBuilds(env: Env, xs: seq<Token>, a: Expr, asg: Punct, t: Token, zs: seq<Token>, c: Expr)
    requires Operand(env, xs, a) && asg in ASSIGNING && Operand(env, zs, c)
    ensures Whole(env, xs + [Punct(asg), t] + zs, AssignNode(t, a, c))
  {
    hide Parse, Whole, Operand, OpLayer, IsPrefix, IsAssign;
    LiteralSets(asg);
    var x := OperandTree(env, xs, a);
    var z := OperandTree(env, zs, c);
    LegalUp(env, PRIMARY, COND, x);
    LegalUp(env, PRIMARY, ASSIGNMENT, z);
    TreeWhole(env, Assign(x, Punct(asg), t, z));
  }

  // ---------- two operators ----------

  /** The operator that binds tighter takes the middle operand; of two equally tight ones the first does. */
  lemma Precedence(env: Env, xs: seq<Token>, a: Expr, op1: Punct, ys: seq<Token>, b: Expr, op2: Punct,
                   zs: seq<Token>, c: Expr)
    requires Operand(env, xs, a) && Operand(env, ys, b) && Operand(env, zs, c)
    requires Looseness(op1) > 0 && Looseness(op2) > 0
    ensures Whole(env, xs + [Punct(op1)] + ys + [Punct(op2)] + zs,
                  if Looseness(op2) < Looseness(op1)
                  then BinaryNode(Punct(op1), a, BinaryNode(Punct(op2), b, c))
                  else BinaryNode(Punct(op2), BinaryNode(Punct(op1), a, b), c))
  {
    hide OpLayer, Looseness, LevelLayer, Parse, Whole, Operand, IsPrefix, IsAssign;
    var x := OperandTree(env, xs, a);
    var y := OperandTree(env, ys, b);
    var z := OperandTree(env, zs, c);
    LayerOfLevel(op1);
    LayerOfLevel(op2);
    LevelsInOrder(Looseness(op1), Looseness(op2));
    LevelsInOrder(Looseness(op2), Looseness(op1));
    var (k1, k2) := (LevelLayer(Looseness(op1)), LevelLayer(Looseness(op2)));
    LegalUp(env, PRIMARY, k1, x);
    LegalUp(env, PRIMARY, k2 - 1, z);
    if Looseness(op2) < Looseness(op1) {
      LegalUp(env, PRIMARY, k2, y);
      LegalUp(env, k2, k1 - 1, Binary(Punct(op2), y, z));
      TreeWhole(env, Binary(Punct(op1), x, Binary(Punct(op2), y, z)));
      assert xs + [Punct(op1)] + ys + [Punct(op2)] + zs == xs + [Punct(op1)] + (ys + [Punct(op2)] + zs);
    } else {
      LegalUp(env, PRIMARY, k1 - 1, y);
      LegalUp(env, k1, k2, Binary(Punct(op1), x, y));
      TreeWhole(env, Binary(Punct(op2), Binary(Punct(op1), x, y), z));
    }
  }

  lemma LevelsInOrder(l: nat, l': nat)
    requires 1 <= l <= 6 && 1 <= l' <= 6
    ensures l < l' <==> LevelLayer(l) < LevelLayer(l')
    ensures LevelLayer(l) <= EXPR
  {
  }

  /** A prefix operator binds tighter than any binary one. */
  lemma PrefixBeforeBinary(env: Env, op: Punct, xs: seq<Token>, a: Expr, op2: Punct, ys: seq<Token>, b: Expr)
    requires op in PREFIXES && Operand(env, xs, a) && Looseness(op2) > 0 && Operand(env, ys, b)
    ensures Whole(env, [Punct(op)] + xs + [Punct(op2)] + ys, BinaryNode(Punct(op2), UnaryNode(Punct(op), a), b))
  {
    hide OpLayer, Looseness, LevelLayer, Parse, Whole, Operand, IsPrefix, IsAssign;
    LiteralSets(op);
    var x := OperandTree(env, xs, a);
    var y := OperandTree(env, ys, b);
    LayerOfLevel(op2);
    LevelsAbove(Looseness(op2));
    var k := LevelLayer(Looseness(op2));
    LegalUp(env, PRIMARY, UNARY, x);
    var u := Prefix(Punct(op), x);
    LegalUp(env, UNARY, k, u);
    LegalUp(env, PRIMARY, k - 1, y);
    TreeWhole(env, Binary(Punct(op2), u, y));
  }

  /** A step after the operand binds tighter than a prefix operator. */
  lemma StepBeforePrefix(env: Env, op: Punct, xs: seq<Token>, a: Expr, step: Punct)
    requires op in PREFIXES && Operand(env, xs, a) && step in {INC, DEC}
    ensures Whole(env, [Punct(op)] + xs + [Punct(step)], UnaryNode(Punct(op), PostfixNode(Punct(step), a, Null)))
  {
    hide Parse, Whole, Operand, Legal;
    var x := OperandTree(env, xs, a);
    PrefixedStep(env, op, x, step);
    TreeWhole(env, Prefix(Punct(op), Postfix(x, Punct(step))));
    assert [Punct(op)] + xs + [Punct(step)] == [Punct(op)] + (xs + [Punct(step)]);
  }

  lemma LevelsAbove(l: nat)
    requires 1 <= l <= 6
    ensures LevelLayer(l) > UNARY
  {
  }

  lemma PrefixedStep(env: Env, op: Punct, x: CExpr, step: Punct)
    requires op in PREFIXES && Legal(env, PRIMARY, x) && !x.Missing? && step in {INC, DEC}
    ensures Legal(env, EXPR, Prefix(Punct(op), Postfix(x, Punct(step))))
  {
    hide OpLayer, IsAssign;
  }

  /** Every binary operator but the comma binds tighter than `? :`, on both sides. */
  lemma TernaryAfterBinary(env: Env, ws: seq<Token>, w: Expr, op: Punct, xs: seq<Token>, x: Expr,
                           ts: seq<Token>, b: Expr, ys: seq<Token>, y: Expr, zs: seq<Token>, z: Expr)
    requires Operand(env, ws, w) && Operand(env, xs, x) && Operand(env, ys, y) && Operand(env, zs, z)
    requires Whole(env, ts, b) && 1 <= Looseness(op) <= 5
    ensures Whole(env, ws + [Punct(op)] + xs + [Punct(QUESTION)] + ts + [Punct(COLON)] + ys,
                  TernaryNode(BinaryNode(Punct(op), w, x), b, y))
    ensures Whole(env, xs + [Punct(QUESTION)] + ts + [Punct(COLON)] + (ys + [Punct(op)] + zs),
                  TernaryNode(x, b, BinaryNode(Punct(op), y, z)))
  {
    hide Looseness, Parse, Whole, Operand, OpLayer, IsPrefix, IsAssign;
    var cw := OperandTree(env, ws, w);
    var cx := OperandTree(env, xs, x);
    var cy := OperandTree(env, ys, y);
    var cz := OperandTree(env, zs, z);
    var t := WholeTree(env, ts, b);
    BinaryLegal(env, op, cw, cx);
    BinaryLegal(env, op, cy, cz);
    LegalUp(env, 7, COND, Binary(Punct(op), cy, cz));
    LegalUp(env, PRIMARY, 7, cx);
    LegalUp(env, PRIMARY, COND, cy);
    TreeWhole(env, Ternary(Binary(Punct(op), cw, cx), t, cy));
    TreeWhole(env, Ternary(cx, t, Binary(Punct(op), cy, cz)));
  }

  lemma BinaryLegal(env: Env, op: Punct, l: CExpr, r: CExpr)
    requires Legal(env, PRIMARY, l) && Legal(env, PRIMARY, r) && !EndsMissing(l) && 1 <= Looseness(op) <= 5
    requires !l.Missing? && !r.Missing?
    ensures Legal(env, 7, Binary(Punct(op), l, r))
  {
    hide Looseness, OpLayer, IsPrefix, IsAssign;
    LayerOfLevel(op);
    var k := LevelLayer(Looseness(op));
    LegalUp(env, PRIMARY, k, l);
    LegalUp(env, PRIMARY, k - 1, r);
  }

  /** `? :` groups to the right. */
  lemma TernaryGroupsRight(env: Env, xs: seq<Token>, x: Expr, ts: seq<Token>, b: Expr, ys: seq<Token>, y: Expr,
                           us: seq<Token>, d: Expr, zs: seq<Token>, z: Expr)
    requires Operand(env, xs, x) && Operand(env, ys, y) && Operand(env, zs, z)
    requires Whole(env, ts, b) && Whole(env, us, d)
    ensures Whole(env, xs + [Punct(QUESTION)] + ts + [Punct(COLON)]
                       + (ys + [Punct(QUESTION)] + us + [Punct(COLON)] + zs),
                  TernaryNode(x, b, TernaryNode(y, d, z)))
  {
    hide Parse, Whole, Operand, IsPrefix, IsAssign, OpLayer;
    var cx := OperandTree(env, xs, x);
    var cy := OperandTree(env, ys, y);
    var cz := OperandTree(env, zs, z);
    var t := WholeTree(env, ts, b);
    var u := WholeTree(env, us, d);
    LegalUp(env, PRIMARY, 7, cx);
    LegalUp(env, PRIMARY, 7, cy);
    LegalUp(env, PRIMARY, COND, cz);
    TreeWhole(env, Ternary(cx, t, Ternary(cy, u, cz)));
  }

  /** A comma binds looser than `? :`, on both sides. */
  lemma CommaAfterTernary(env: Env, xs: seq<Token>, x: Expr, ts: seq<Token>, b: Expr, ys: seq<Token>, y: Expr,
                          zs: seq<Token>, z: Expr)
    requires Operand(env, xs, x) && Operand(env, ys, y) && Operand(env, zs, z) && Whole(env, ts, b)
    ensures var q := xs + [Punct(QUESTION)] + ts + [Punct(COLON)] + ys;
            && Whole(env, q + [Punct(COMMA)] + zs, BinaryNode(Punct(COMMA), TernaryNode(x, b, y), z))
            && Whole(env, zs + [Punct(COMMA)] + q, BinaryNode(Punct(COMMA), z, TernaryNode(x, b, y)))
  {
    hide Parse, Whole, Operand, IsPrefix, IsAssign;
    var cx := OperandTree(env, xs, x);
    var cy := OperandTree(env, ys, y);
    var cz := OperandTree(env, zs, z);
    var t := WholeTree(env, ts, b);
    var q := Ternary(cx, t, cy);
    LegalUp(env, PRIMARY, 7, cx);
    LegalUp(env, PRIMARY, COND, cy);
    LegalUp(env, COND, ASSIGNMENT, q);
    LegalUp(env, ASSIGNMENT, EXPR, q);
    LegalUp(env, PRIMARY, ASSIGNMENT, cz);
    LegalUp(env, PRIMARY, EXPR, cz);
    CommaTree(env, q, cz);
    CommaTree(env, cz, q);
  }

  lemma CommaTree(env: Env, l: CExpr, r: CExpr)
    requires Legal(env, EXPR, l) && Legal(env, ASSIGNMENT, r)
    ensures Whole(env, Print(l) + [Punct(COMMA)] + Print(r), BinaryNode(Punct(COMMA), Erase(l), Erase(r)))
  {
    hide Parse, Whole, IsAssign;
    TreeWhole(env, Binary(Punct(COMMA), l, r));
  }

  /** No operator but those of the literal sets continues an expression: whatever was read whole, in
      front of `^` it is read just as far. */
  lemma CaretStops(env: Env, ts: seq<Token>, n: Expr, more: seq<Token>)
    requires Whole(env, ts, n)
    ensures var rest := [Punct(BXOR)] + more;
            var r := Parse(env, EXPR, ts + rest);
            r.Ok? && r.rest == rest && Erase(r.node) == n
  {
    hide Parse, Legal, Print, Erase;
    var c := WholeTree(env, ts, n);
    RoundTrip(env, EXPR, c, [Punct(BXOR)] + more);
  }

  // ---------- any number of operators ----------

  /** How loosely the outermost operator of a node binds, from 0 for none. */
  function NodeLooseness(n: Expr): nat {
    match n
    case PostfixNode(_, _, _) => 1
    case UnaryNode(_, _) => 2
    case BinaryNode(Punct(p), _, _) =>
      if p == COMMA then 10 else if Looseness(p) > 0 then Looseness(p) + 2 else 11
    case BinaryNode(_, _, _) => 11
    case TernaryNode(_, _, _) => 8
    case AssignNode(_, _, _) => 9
    case _ => 0
  }

  /** Everywhere in the node an operator binds at least as tight as the one it is an operand of, and
      tighter if it is on the right of a binary one. */
  predicate Nested(n: Expr) {
    match n
    case PostfixNode(op, l, r) =>
      NodeLooseness(l) == 0 && Nested(l) && Nested(r) && op in {Punct(INC), Punct(DEC), Punct(LBRACKET)}
    case UnaryNode(op, l) => NodeLooseness(l) <= 2 && Nested(l) && op.Punct? && op.p in PREFIXES
    case BinaryNode(_, l, r) =>
      NodeLooseness(n) <= 10 && NodeLooseness(l) <= NodeLooseness(n) && NodeLooseness(r) < NodeLooseness(n)
      && Nested(l) && Nested(r)
    case TernaryNode(c, t, e) =>
      NodeLooseness(c) <= 7 && NodeLooseness(e) <= 8 && Nested(c) && Nested(t) && Nested(e)
    case AssignNode(_, l, r) => NodeLooseness(l) <= 8 && NodeLooseness(r) <= 9 && Nested(l) && Nested(r)
    case _ => true
  }

  ghost predicate Bare(ts: seq<Token>) {
    forall t <- ts :: !IsParen(t)
  }

  lemma BareConcat(a: seq<Token>, b: seq<Token>)
    requires Bare(a + b)
    ensures Bare(a) && Bare(b)
  {
    assert forall t <- a :: t in a + b;
    assert forall t <- b :: t in a + b;
  }

  /** The operands of an expression printed without parentheses are printed without parentheses. */
  lemma BareParts(c: CExpr)
    requires Bare(Print(c))
    ensures match c
            case Paren(_) => false
            case Postfix(b, _) => Bare(Print(b))
            case Index(b, i) => Bare(Print(b)) && Bare(Print(i))
            case Prefix(_, a) => Bare(Print(a))
            case Binary(_, l, r) => Bare(Print(l)) && Bare(Print(r))
            case Ternary(b, t, e) => Bare(Print(b)) && Bare(Print(t)) && Bare(Print(e))
            case Assign(l, _, _, r) => Bare(Print(l)) && Bare(Print(r))
            case _ => true
  {
    hide Bare;
    match c
    case Paren(e) => ParenIsNotBare(e);
    case Postfix(b, op) => BareConcat(Print(b), [op]);
    case Index(b, i) =>
      BareConcat(Print(b) + [Punct(LBRACKET)] + Print(i), [Punct(RBRACKET)]);
      BareConcat(Print(b) + [Punct(LBRACKET)], Print(i));
      BareConcat(Print(b), [Punct(LBRACKET)]);
    case Prefix(op, a) => BareConcat([op], Print(a));
    case Binary(op, l, r) =>
      BareConcat(Print(l) + [op], Print(r));
      BareConcat(Print(l), [op]);
    case Ternary(b, t, e) =>
      var front := Print(b) + [Punct(QUESTION)];
      BareConcat(front + Print(t) + [Punct(COLON)], Print(e));
      BareConcat(front + Print(t), [Punct(COLON)]);
      BareConcat(front, Print(t));
      BareConcat(Print(b), [Punct(QUESTION)]);
    case Assign(l, asg, op, r) =>
      BareConcat(Print(l) + [asg, op], Print(r));
      BareConcat(Print(l), [asg, op]);
    case _ =>
  }

  lemma ParenIsNotBare(e: CExpr)
    ensures !Bare(Print(Paren(e)))
  {
    assert Print(Paren(e))[0] == Punct(LPAREN) && Print(Paren(e))[0] in Print(Paren(e));
  }

  lemma {:induction false} LegalNests(env: Env, k: Layer, c: CExpr)
    requires Legal(env, k, c) && Bare(Print(c))
    ensures Nested(Erase(c)) && NodeLooseness(Erase(c)) <= k
    decreases c
  {
    hide OpLayer, IsPrefix, IsAssign, Bare, Print, IsConstant, Nested, NodeLooseness;
    BareParts(c);
    match c
    case Missing | Const(_) | Ident(_, _) => LeafNests(Erase(c));
    case Paren(_) =>
    case Postfix(b, op) =>
      LegalNests(env, PRIMARY, b);
      LeafNests(Null);
      PostfixNests(op, Erase(b), Null);
    case Index(b, i) =>
      LegalNests(env, PRIMARY, b);
      LegalNests(env, EXPR, i);
      PostfixNests(Punct(LBRACKET), Erase(b), Erase(i));
    case Prefix(op, a) =>
      LegalNests(env, UNARY, a);
      UnaryNests(op, Erase(a));
    case Binary(op, l, r) =>
      LegalNests(env, OpLayer(op), l);
      LegalNests(env, OpLayer(op) - 1, r);
      BinaryNests(op, Erase(l), Erase(r));
    case Ternary(b, t, e) =>
      LegalNests(env, 7, b);
      LegalNests(env, EXPR, t);
      LegalNests(env, COND, e);
      TernaryNests(Erase(b), Erase(t), Erase(e));
    case Assign(l, _, op, r) =>
      LegalNests(env, COND, l);
      LegalNests(env, ASSIGNMENT, r);
      AssignNests(op, Erase(l), Erase(r));
  }

  lemma LeafNests(n: Expr)
    requires n.Null? || n.ConstNode? || n.IdentNode?
    ensures Nested(n) && NodeLooseness(n) == 0
  {
  }

  lemma PostfixNests(op: Token, l: Expr, r: Expr)
    requires op in {Punct(INC), Punct(DEC), Punct(LBRACKET)} && Nested(l) && Nested(r) && NodeLooseness(l) == 0
    ensures Nested(PostfixNode(op, l, r)) && NodeLooseness(PostfixNode(op, l, r)) == 1
  {
    hide Looseness;
  }

  lemma UnaryNests(op: Token, l: Expr)
    requires IsPrefix(op) && Nested(l) && NodeLooseness(l) <= 2
    ensures Nested(UnaryNode(op, l)) && NodeLooseness(UnaryNode(op, l)) == 2
  {
    hide Looseness;
    LiteralSets(op.p);
  }

  lemma TernaryNests(c: Expr, t: Expr, e: Expr)
    requires Nested(c) && Nested(t) && Nested(e) && NodeLooseness(c) <= 7 && NodeLooseness(e) <= 8
    ensures Nested(TernaryNode(c, t, e)) && NodeLooseness(TernaryNode(c, t, e)) == 8
  {
    hide Looseness;
  }

  lemma AssignNests(op: Token, l: Expr, r: Expr)
    requires Nested(l) && Nested(r) && NodeLooseness(l) <= 8 && NodeLooseness(r) <= 9
    ensures Nested(AssignNode(op, l, r)) && NodeLooseness(AssignNode(op, l, r)) == 9
  {
    hide Looseness;
  }

  lemma BinaryNests(op: Token, l: Expr, r: Expr)
    requires OpLayer(op) > 0 && Nested(l) && Nested(r)
    requires NodeLooseness(l) <= OpLayer(op) && NodeLooseness(r) < OpLayer(op)
    ensures Nested(BinaryNode(op, l, r)) && NodeLooseness(BinaryNode(op, l, r)) == OpLayer(op)
  {
    hide OpLayer, Looseness;
    LayerOfLevel(op.p);
    LevelOfComma(op.p);
  }

  lemma LevelOfComma(p: Punct)
    ensures Looseness(p) == 6 <==> p == COMMA
    ensures Looseness(p) <= 6
  {
  }

  /** On every stream, an expression parsed without parentheses nests by precedence, however many
      operators and missing operands it has. */
  lemma ParseNests(env: Env, ts: seq<Token>)
    requires Parse(env, EXPR, ts).Ok?
    requires Bare(ts[..|ts| - |Parse(env, EXPR, ts).rest|])
    ensures Nested(Erase(Parse(env, EXPR, ts).node))
  {
    hide Parse, Legal, Print, Stops, Nested, Bare;
    var r := Parse(env, EXPR, ts);
    Sound(env, EXPR, ts);
    assert ts[..|ts| - |r.rest|] == Print(r.node);
    LegalNests(env, EXPR, r.node);
  }

  // ---------- failures ----------

  lemma MemberIsUndefined(env: Env, xs: seq<Token>, a: Expr, op: Punct, ys: seq<Token>, b: Expr, rest: seq<Token>)
    requires Operand(env, xs, a) && op in {DOT, ARROW} && Operand(env, ys, b)
    ensures Parse(env, POSTFIX, xs + [Punct(op)] + ys + rest) == Err(Undefined)
  {
    hide Parse, Legal, Print, Erase;
    var x := OperandTree(env, xs, a);
    var y := OperandTree(env, ys, b);
    var ts := xs + [Punct(op)] + ys + rest;
    var tail := [Punct(op)] + (ys + rest);
    assert ts == xs + tail;
    RoundTrip(env, PRIMARY, x, tail);
    assert tail[1..] == ys + rest;
    BoundStops(y, Head(rest));
    RoundTrip(env, PRIMARY, y, rest);
    PostfixIsPostfix(env, ts);
  }

  lemma BoundStops(c: CExpr, t: Token)
    requires !EndsMissing(c)
    ensures Stops(PRIMARY, c, t)
  {
  }

  lemma PostfixIsPostfix(env: Env, ts: seq<Token>)
    ensures Parse(env, POSTFIX, ts) == ParsePostfix(env, ts)
  {
  }

  /** A string literal, an assignment operator at the end and an undeclared name fail as an operand. */
  lemma OperandFails(env: Env, text: string, name: string, rest: seq<Token>, xs: seq<Token>, a: Expr, asg: Punct)
    requires name !in env && Operand(env, xs, a) && asg in ASSIGNING
    ensures Parse(env, PRIMARY, [StringLit(text)] + rest) == Err(Undefined)
    ensures Parse(env, PRIMARY, [Identifier(name)] + rest) == Err(Fatal)
    ensures Parse(env, ASSIGNMENT, xs + [Punct(asg)]) == Err(Undefined)
  {
    LastAssignFails(env, xs, a, asg);
  }

  lemma LastAssignFails(env: Env, xs: seq<Token>, a: Expr, asg: Punct)
    requires Operand(env, xs, a) && asg in ASSIGNING
    ensures Parse(env, ASSIGNMENT, xs + [Punct(asg)]) == Err(Undefined)
  {
    hide Parse, Legal, Print, Erase, Operand, Stops;
    var x := OperandTree(env, xs, a);
    LegalUp(env, PRIMARY, COND, x);
    AssignStops(x, Punct(asg));
    RoundTrip(env, COND, x, [Punct(asg)]);
    AssignIsAssign(env, xs + [Punct(asg)]);
  }

  lemma AssignIsAssign(env: Env, ts: seq<Token>)
    ensures Parse(env, ASSIGNMENT, ts) == ParseAssign(env, ts)
  {
  }
}
