/** Which tokens of an expression survive in its node. */
module Conservation {
  import opened Tokens
  import opened ExprGrammar
  import opened ExprParsing
  import opened ExprTheorems
  import opened Ast

  /** `ts` without parentheses. */
  function Strip(ts: seq<Token>): seq<Token> {
    if ts == [] then []
    else (if IsParen(ts[0]) then [] else [ts[0]]) + Strip(ts[1..])
  }

  /** The number of tokens of `ts` that are not parentheses. */
  function Weight(ts: seq<Token>): nat {
    |Strip(ts)|
  }

  lemma {:induction false} StripConcat(a: seq<Token>, b: seq<Token>)
    ensures Strip(a + b) == Strip(a) + Strip(b)
  {
    if a == [] {
      assert a + b == b;
    } else {
      assert (a + b)[1..] == a[1..] + b;
      StripConcat(a[1..], b);
    }
  }

  lemma StripOne(t: Token)
    ensures Strip([t]) == if IsParen(t) then [] else [t]
  {
    assert [t][1..] == [];
  }

  lemma {:induction false} StripTwice(ts: seq<Token>)
    ensures Strip(Strip(ts)) == Strip(ts)
  {
    if ts != [] {
      StripTwice(ts[1..]);
      StripConcat(if IsParen(ts[0]) then [] else [ts[0]], Strip(ts[1..]));
      StripOne(ts[0]);
    }
  }

  /** `a` is what remains of `b` when some of its elements are struck out. */
  ghost predicate Within<T>(a: seq<T>, b: seq<T>) {
    a == [] || (b != [] && ((a[0] == b[0] && Within(a[1..], b[1..])) || Within(a, b[1..])))
  }

  lemma {:induction false} WithinSelf<T>(a: seq<T>)
    ensures Within(a, a)
  {
    if a != [] { WithinSelf(a[1..]); }
  }

  lemma {:induction false} WithinConcat<T>(a: seq<T>, b: seq<T>, c: seq<T>, d: seq<T>)
    requires Within(a, b) && Within(c, d)
    ensures Within(a + c, b + d)
    decreases |b|
  {
    if b == [] {
      assert a + c == c && b + d == d;
    } else {
      assert (b + d)[1..] == b[1..] + d;
      if a != [] && a[0] == b[0] && Within(a[1..], b[1..]) {
        assert (a + c)[1..] == a[1..] + c;
        WithinConcat(a[1..], b[1..], c, d);
      } else {
        WithinConcat(a, b[1..], c, d);
        WithinLonger(a + c, (b + d)[0], (b + d)[1..]);
      }
    }
  }

  lemma WithinLonger<T>(a: seq<T>, x: T, b: seq<T>)
    requires Within(a, b)
    ensures Within(a, [x] + b)
  {
    assert ([x] + b)[1..] == b;
  }

  /** `y` is `p` with `n` tokens struck out, parentheses not counted; when none is, it is `p` without
      its parentheses. */
  ghost predicate Keeps(p: seq<Token>, y: seq<Token>, n: nat) {
    Weight(p) == Weight(y) + n && Within(Strip(y), Strip(p)) && (n == 0 ==> y == Strip(p))
  }

  lemma KeepsConcat(p: seq<Token>, y: seq<Token>, n: nat, p': seq<Token>, y': seq<Token>, n': nat)
    requires Keeps(p, y, n) && Keeps(p', y', n')
    ensures Keeps(p + p', y + y', n + n')
  {
    hide Strip, Within;
    StripConcat(p, p');
    StripConcat(y, y');
    WithinConcat(Strip(y), Strip(p), Strip(y'), Strip(p'));
  }

  lemma KeepsToken(t: Token)
    requires !IsParen(t)
    ensures Keeps([t], [t], 0)
  {
    StripOne(t);
    WithinSelf([t]);
  }

  /** A token between two parts. */
  lemma KeepsBetween(p: seq<Token>, y: seq<Token>, n: nat, t: Token, p': seq<Token>, y': seq<Token>, n': nat)
    requires Keeps(p, y, n) && !IsParen(t) && Keeps(p', y', n')
    ensures Keeps(p + [t], y + [t], n)
    ensures Keeps(p + [t] + p', y + [t] + y', n + n')
  {
    KeepsToken(t);
    KeepsConcat(p, y, n, [t], [t], 0);
    KeepsConcat(p + [t], y + [t], n, p', y', n');
  }

  /** Three parts with a token after each of the first two. */
  lemma KeepsThree(p: seq<Token>, y: seq<Token>, n: nat, t: Token, p': seq<Token>, y': seq<Token>, n': nat,
                   u: Token, p'': seq<Token>, y'': seq<Token>, n'': nat)
    requires Keeps(p, y, n) && !IsParen(t) && Keeps(p', y', n') && !IsParen(u) && Keeps(p'', y'', n'')
    ensures Keeps(p + [t] + p' + [u] + p'', y + [t] + y' + [u] + y'', n + n' + n'')
    ensures Keeps(p + [t] + p' + [u], y + [t] + (y' + [u]), n + n')
  {
    KeepsBetween(p, y, n, t, p', y', n');
    KeepsBetween(p + [t] + p', y + [t] + y', n + n', u, p'', y'', n'');
    assert y + [t] + (y' + [u]) == y + [t] + y' + [u];
  }

  lemma KeepsParens(p: seq<Token>, y: seq<Token>, n: nat)
    requires Keeps(p, y, n)
    ensures Keeps([Punct(LPAREN)] + p + [Punct(RPAREN)], y, n)
  {
    StripOne(Punct(LPAREN));
    StripOne(Punct(RPAREN));
    StripConcat([Punct(LPAREN)] + p, [Punct(RPAREN)]);
    StripConcat([Punct(LPAREN)], p);
    assert Strip([Punct(LPAREN)] + p + [Punct(RPAREN)]) == Strip(p);
  }

  /** The assignments in `c`. */
  function AssignNodes(c: CExpr): nat {
    match c
    case Missing | Const(_) | Ident(_, _) => 0
    case Paren(e) => AssignNodes(e)
    case Postfix(b, _) => AssignNodes(b)
    case Index(b, i) => AssignNodes(b) + AssignNodes(i)
    case Prefix(_, a) => AssignNodes(a)
    case Binary(_, l, r) => AssignNodes(l) + AssignNodes(r)
    case Ternary(c, t, e) => AssignNodes(c) + AssignNodes(t) + AssignNodes(e)
    case Assign(l, _, _, r) => AssignNodes(l) + 1 + AssignNodes(r)
  }

  lemma {:induction false} AssignsAreTokens(env: Env, k: Layer, c: CExpr)
    requires Legal(env, k, c)
    ensures AssignNodes(c) == 0 <==> forall t <- Print(c) :: !IsAssign(t)
    decreases c
  {
    match c
    case Missing | Const(_) | Ident(_, _) =>
    case Paren(e) => AssignsAreTokens(env, EXPR, e);
    case Postfix(b, _) => AssignsAreTokens(env, PRIMARY, b);
    case Index(b, i) => AssignsAreTokens(env, PRIMARY, b); AssignsAreTokens(env, EXPR, i);
    case Prefix(_, a) => AssignsAreTokens(env, UNARY, a);
    case Binary(op, l, r) => AssignsAreTokens(env, OpLayer(op), l); AssignsAreTokens(env, OpLayer(op) - 1, r);
    case Ternary(b, t, e) =>
      AssignsAreTokens(env, 7, b);
      AssignsAreTokens(env, EXPR, t);
      AssignsAreTokens(env, COND, e);
    case Assign(_, asg, _, _) => assert asg in Print(c);
  }

  /** The tokens of the node of `c` are those of `c` with one struck out for every assignment. */
  ghost predicate Kept(c: CExpr) {
    Keeps(Print(c), Yield(Erase(c)), AssignNodes(c))
  }

  lemma KeptIndex(b: CExpr, i: CExpr)
    requires Kept(b) && Kept(i)
    ensures Kept(Index(b, i))
  {
    var c := Index(b, i);
    assert Print(c) == Print(b) + [Punct(LBRACKET)] + Print(i) + [Punct(RBRACKET)];
    assert Yield(Erase(c)) == Yield(Erase(b)) + [Punct(LBRACKET)] + (Yield(Erase(i)) + [Punct(RBRACKET)]);
    assert Keeps([], [], 0);
    hide Strip;
    KeepsThree(Print(b), Yield(Erase(b)), AssignNodes(b), Punct(LBRACKET), Print(i), Yield(Erase(i)), AssignNodes(i),
               Punct(RBRACKET), [], [], 0);
  }

  lemma KeptTernary(b: CExpr, t: CExpr, e: CExpr)
    requires Kept(b) && Kept(t) && Kept(e)
    ensures Kept(Ternary(b, t, e))
  {
    var c := Ternary(b, t, e);
    assert Print(c) == Print(b) + [Punct(QUESTION)] + Print(t) + [Punct(COLON)] + Print(e);
    assert Yield(Erase(c)) == Yield(Erase(b)) + [Punct(QUESTION)] + Yield(Erase(t)) + [Punct(COLON)] + Yield(Erase(e));
    hide Strip;
    KeepsThree(Print(b), Yield(Erase(b)), AssignNodes(b), Punct(QUESTION), Print(t), Yield(Erase(t)), AssignNodes(t),
               Punct(COLON), Print(e), Yield(Erase(e)), AssignNodes(e));
  }

  lemma KeepsSecond(asg: Token, op: Token)
    requires !IsParen(asg)
    ensures Keeps([asg, op], [op], 1)
  {
    StripOne(asg);
    StripConcat([asg], [op]);
    assert [asg, op] == [asg] + [op];
    WithinSelf(Strip([op]));
    WithinLonger(Strip([op]), asg, Strip([op]));
  }

  lemma AssignPieces(l: CExpr, asg: Token, op: Token, r: CExpr)
    ensures var c := Assign(l, asg, op, r);
            Print(c) == Print(l) + [asg, op] + Print(r) && Yield(Erase(c)) == Yield(Erase(l)) + [op] + Yield(Erase(r))
  {
  }

  lemma KeptAssign(l: CExpr, asg: Token, op: Token, r: CExpr)
    requires Kept(l) && Kept(r) && IsAssign(asg)
    ensures Kept(Assign(l, asg, op, r))
  {
    hide Strip, Weight, Within, Print, Yield, Erase;
    KeepsSecond(asg, op);
    AssignPieces(l, asg, op, r);
    KeepsConcat(Print(l), Yield(Erase(l)), AssignNodes(l), [asg, op], [op], 1);
    KeepsConcat(Print(l) + [asg, op], Yield(Erase(l)) + [op], AssignNodes(l) + 1,
                Print(r), Yield(Erase(r)), AssignNodes(r));
  }

  lemma KeptOperator(c: CExpr)
    requires c.Postfix? || c.Prefix? || c.Binary?
    requires !IsParen(c.op) && (c.Postfix? ==> c.op != Punct(LBRACKET))
    requires c.Postfix? ==> Kept(c.base)
    requires c.Prefix? ==> Kept(c.arg)
    requires c.Binary? ==> Kept(c.lhs) && Kept(c.rhs)
    ensures Kept(c)
  {
    match c
    case Postfix(b, op) =>
      KeepsBetween(Print(b), Yield(Erase(b)), AssignNodes(b), op, [], [], 0);
      assert Yield(Erase(b)) + [op] + [] == Yield(Erase(b)) + [op];
    case Prefix(op, a) =>
      KeepsToken(op);
      KeepsConcat([op], [op], 0, Print(a), Yield(Erase(a)), AssignNodes(a));
    case Binary(op, l, r) =>
      KeepsBetween(Print(l), Yield(Erase(l)), AssignNodes(l), op, Print(r), Yield(Erase(r)), AssignNodes(r));
  }

  lemma KeptLeaf(env: Env, c: CExpr)
    requires ExactEnv(env) && Legal(env, PRIMARY, c) && (c.Missing? || c.Const? || c.Ident?)
    ensures Kept(c)
  {
    match c
    case Missing => assert Strip([]) == [];
    case Const(t) => KeepsToken(t);
    case Ident(n, _) => KeepsToken(Identifier(n));
  }

  lemma KeptParen(e: CExpr)
    requires Kept(e)
    ensures Kept(Paren(e))
  {
    hide Keeps;
    KeepsParens(Print(e), Yield(Erase(e)), AssignNodes(e));
  }

  lemma {:induction false} NodeKeepsTokens(env: Env, k: Layer, c: CExpr)
    requires ExactEnv(env) && Legal(env, k, c)
    ensures Kept(c)
    decreases c
  {
    hide Kept;
    match c
    case Missing => KeptLeaf(env, c);
    case Const(_) => KeptLeaf(env, c);
    case Ident(_, _) => KeptLeaf(env, c);
    case Paren(e) =>
      NodeKeepsTokens(env, EXPR, e);
      KeptParen(e);
    case Postfix(b, op) =>
      NodeKeepsTokens(env, PRIMARY, b);
      KeptOperator(c);
    case Index(b, i) =>
      NodeKeepsTokens(env, PRIMARY, b);
      NodeKeepsTokens(env, EXPR, i);
      KeptIndex(b, i);
    case Prefix(op, a) =>
      NodeKeepsTokens(env, UNARY, a);
      KeptOperator(c);
    case Binary(op, l, r) =>
      NodeKeepsTokens(env, OpLayer(op), l);
      NodeKeepsTokens(env, OpLayer(op) - 1, r);
      KeptOperator(c);
    case Ternary(b, t, e) =>
      NodeKeepsTokens(env, 7, b);
      NodeKeepsTokens(env, EXPR, t);
      NodeKeepsTokens(env, COND, e);
      KeptTernary(b, t, e);
    case Assign(l, asg, op, r) =>
      NodeKeepsTokens(env, COND, l);
      NodeKeepsTokens(env, ASSIGNMENT, r);
      KeptAssign(l, asg, op, r);
  }

  /** Token conservation: the tokens of the node of a parsed expression, missing operands or not, are the
      consumed ones with one struck out for each assignment, parentheses aside; none is, exactly when no
      assignment operator was consumed. */
  lemma TokensConserved(env: Env, ts: seq<Token>)
    requires ExactEnv(env) && Parse(env, EXPR, ts).Ok?
    ensures var r := Parse(env, EXPR, ts);
            var consumed := ts[..|ts| - |r.rest|];
            && ts == consumed + r.rest
            && Within(Strip(Yield(Erase(r.node))), Strip(consumed))
            && |Strip(Yield(Erase(r.node)))| + AssignNodes(r.node) == |Strip(consumed)|
            && (Yield(Erase(r.node)) == Strip(consumed) <==> forall t <- consumed :: !IsAssign(t))
  {
    var r := Parse(env, EXPR, ts);
    Sound(env, EXPR, ts);
    assert ts[..|ts| - |r.rest|] == Print(r.node);
    AssignsAreTokens(env, EXPR, r.node);
    NodeKeepsTokens(env, EXPR, r.node);
    StripTwice(Print(r.node));
  }

  /** What the program makes of `a = b`: the operator is gone and `b` has taken its place. */
  lemma AssignmentLosesOperator(env: Env, a: string, b: string, asg: Token)
    requires a in env && b in env && IsAssign(asg)
    ensures var r := Parse(env, EXPR, [Identifier(a), asg, Identifier(b)]);
            r.Ok? && r.rest == [] && Erase(r.node) == AssignNode(Identifier(b), IdentNode(env[a]), Null)
  {
    var c := Assign(Ident(a, env[a]), asg, Identifier(b), Missing);
    CloserStops(EXPR, c, Eof);
    RoundTrip(env, EXPR, c, []);
    assert Print(c) + [] == [Identifier(a), asg, Identifier(b)];
  }
}
