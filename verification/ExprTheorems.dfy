/** The expression parser accepts exactly the printed forms of legal trees. */
module ExprTheorems {
  import opened Tokens
  import opened ExprGrammar
  import opened ExprParsing

  // ---------- which tokens stop an expression ----------

  predicate IsCloser(t: Token) {
    t == Eof || (t.Punct? && (t.p == RPAREN || t.p == RBRACKET || t.p == COLON || t.p == SEMICOLON))
  }

  lemma CloserStops(k: Layer, c: CExpr, t: Token)
    requires IsCloser(t)
    ensures Stops(k, c, t)
  {
  }

  lemma LowerStops(j: Layer, k: Layer, c: CExpr, t: Token)
    requires j <= k && Stops(k, c, t)
    ensures Stops(j, c, t)
  {
  }

  lemma BracketStops(c: CExpr)
    ensures Stops(PRIMARY, c, Punct(LBRACKET))
  {
  }

  lemma IncDecStops(c: CExpr, t: Token)
    requires IsIncDec(t)
    ensures Stops(PRIMARY, c, t)
  {
  }

  lemma QuestionStops(c: CExpr)
    ensures Stops(7, c, Punct(QUESTION))
  {
  }

  lemma AssignStops(c: CExpr, t: Token)
    requires IsAssign(t)
    ensures Stops(COND, c, t)
  {
  }

  lemma OperatorStops(k: Layer, c: CExpr, t: Token)
    requires IsLoop(k) && OpLayer(t) == k && (EndsMissing(c) ==> !IsPrefix(t))
    ensures Stops(k - 1, c, t)
  {
  }

  // ---------- regrouping printed pieces ----------

  lemma Regroup3<T>(a: seq<T>, b: seq<T>, c: seq<T>, rest: seq<T>)
    ensures (a + b + c) + rest == a + (b + (c + rest))
  {
  }

  lemma Regroup4<T>(a: seq<T>, b: seq<T>, c: seq<T>, d: seq<T>, rest: seq<T>)
    ensures (a + b + c + d) + rest == a + (b + (c + (d + rest)))
  {
  }

  lemma Regroup5<T>(a: seq<T>, b: seq<T>, c: seq<T>, d: seq<T>, e: seq<T>, rest: seq<T>)
    ensures (a + b + c + d + e) + rest == a + (b + (c + (d + (e + rest))))
  {
  }

  // ---------- one call of each parsing function ----------

  lemma LeafStep(env: Env, c: CExpr, rest: seq<Token>)
    requires c.Const? || c.Ident?
    requires Legal(env, PRIMARY, c)
    ensures Parse(env, PRIMARY, Print(c) + rest) == Ok(c, rest)
  {
    assert (Print(c) + rest)[1..] == rest;
  }

  lemma MissingStep(env: Env, rest: seq<Token>)
    requires Stops(PRIMARY, Missing, Head(rest))
    ensures Parse(env, PRIMARY, Print(Missing) + rest) == Ok(Missing, rest)
  {
    assert Print(Missing) + rest == rest;
  }

  lemma ParenStep(env: Env, ts: seq<Token>, e: CExpr, rest: seq<Token>)
    requires Parse(env, EXPR, ts) == Ok(e, [Punct(RPAREN)] + rest)
    ensures Parse(env, PRIMARY, [Punct(LPAREN)] + ts) == Ok(Paren(e), rest)
  {
    assert ([Punct(LPAREN)] + ts)[1..] == ts;
    assert ([Punct(RPAREN)] + rest)[1..] == rest;
  }

  lemma IncDecStep(env: Env, ts: seq<Token>, b: CExpr, op: Token, rest: seq<Token>)
    requires IsIncDec(op) && Parse(env, PRIMARY, ts) == Ok(b, [op] + rest)
    ensures Parse(env, POSTFIX, ts) == Ok(Postfix(b, op), rest)
  {
    assert ([op] + rest)[1..] == rest;
  }

  lemma IndexStep(env: Env, ts: seq<Token>, b: CExpr, ts': seq<Token>, i: CExpr, rest: seq<Token>)
    requires Parse(env, PRIMARY, ts) == Ok(b, [Punct(LBRACKET)] + ts')
    requires Parse(env, EXPR, ts') == Ok(i, [Punct(RBRACKET)] + rest)
    ensures Parse(env, POSTFIX, ts) == Ok(Index(b, i), rest)
  {
    assert ([Punct(LBRACKET)] + ts')[1..] == ts';
    assert ([Punct(RBRACKET)] + rest)[1..] == rest;
  }

  lemma PrefixStep(env: Env, op: Token, ts: seq<Token>, a: CExpr, rest: seq<Token>)
    requires IsPrefix(op) && Parse(env, UNARY, ts) == Ok(a, rest)
    ensures Parse(env, UNARY, [op] + ts) == Ok(Prefix(op, a), rest)
  {
    assert ([op] + ts)[1..] == ts;
  }

  lemma TernaryStep(env: Env, ts: seq<Token>, c: CExpr, ts1: seq<Token>, t: CExpr, ts2: seq<Token>,
                    e: CExpr, rest: seq<Token>)
    requires Parse(env, 7, ts) == Ok(c, [Punct(QUESTION)] + ts1)
    requires Parse(env, EXPR, ts1) == Ok(t, [Punct(COLON)] + ts2)
    requires Parse(env, COND, ts2) == Ok(e, rest)
    ensures Parse(env, COND, ts) == Ok(Ternary(c, t, e), rest)
  {
    assert ([Punct(QUESTION)] + ts1)[1..] == ts1;
    assert ([Punct(COLON)] + ts2)[1..] == ts2;
  }

  lemma CondPass(env: Env, ts: seq<Token>)
    requires var l := Parse(env, 7, ts); l.Ok? ==> Head(l.rest) != Punct(QUESTION)
    ensures Parse(env, COND, ts) == Parse(env, 7, ts)
  {
  }

  lemma AssignPass(env: Env, ts: seq<Token>)
    requires var l := Parse(env, COND, ts); l.Ok? ==> !IsAssign(Head(l.rest))
    ensures Parse(env, ASSIGNMENT, ts) == Parse(env, COND, ts)
  {
  }

  lemma AssignStep(env: Env, ts: seq<Token>, l: CExpr, asg: Token, op: Token, ts': seq<Token>,
                   e: CExpr, rest: seq<Token>)
    requires IsAssign(asg) && Parse(env, COND, ts) == Ok(l, [asg, op] + ts')
    requires Parse(env, ASSIGNMENT, ts') == Ok(e, rest)
    ensures Parse(env, ASSIGNMENT, ts) == Ok(Assign(l, asg, op, e), rest)
  {
    assert ([asg, op] + ts')[2..] == ts';
  }

  lemma LoopStep(env: Env, k: Layer, lhs: CExpr, op: Token, ts: seq<Token>, rhs: CExpr, rest: seq<Token>)
    requires IsLoop(k) && OpLayer(op) == k && Parse(env, k - 1, ts) == Ok(rhs, rest)
    ensures Loop(env, k, lhs, [op] + ts) == Loop(env, k, Binary(op, lhs, rhs), rest)
  {
    assert ([op] + ts)[1..] == ts;
  }

  // ---------- printing, then parsing ----------

  /** Printing a legal tree and parsing the result in front of a token that does not continue it
      gives the tree back and leaves exactly what followed. */
  lemma {:induction false} RoundTrip(env: Env, k: Layer, c: CExpr, rest: seq<Token>)
    requires Legal(env, k, c) && Stops(k, c, Head(rest))
    ensures Parse(env, k, Print(c) + rest) == Ok(c, rest)
    decreases c, k, 1
  {
    if k == PRIMARY { PrimaryTrip(env, c, rest); }
    else if k == POSTFIX { PostfixTrip(env, c, rest); }
    else if k == UNARY { UnaryTrip(env, c, rest); }
    else if k == COND { CondTrip(env, c, rest); }
    else if k == ASSIGNMENT { AssignTrip(env, c, rest); }
    else {
      LowerStops(k - 1, k, c, Head(rest));
      LoopTrip(env, k, c, rest);
    }
  }

  lemma {:induction false} PrimaryTrip(env: Env, c: CExpr, rest: seq<Token>)
    requires Legal(env, PRIMARY, c) && Stops(PRIMARY, c, Head(rest))
    ensures Parse(env, PRIMARY, Print(c) + rest) == Ok(c, rest)
    decreases c, PRIMARY, 0
  {
    if c.Missing? {
      MissingStep(env, rest);
    } else if c.Paren? {
      var tail := [Punct(RPAREN)] + rest;
      CloserStops(EXPR, c.inner, Head(tail));
      RoundTrip(env, EXPR, c.inner, tail);
      Regroup3([Punct(LPAREN)], Print(c.inner), [Punct(RPAREN)], rest);
      ParenStep(env, Print(c.inner) + tail, c.inner, rest);
    } else {
      LeafStep(env, c, rest);
    }
  }

  lemma {:induction false} PostfixTrip(env: Env, c: CExpr, rest: seq<Token>)
    requires Legal(env, POSTFIX, c) && Stops(POSTFIX, c, Head(rest))
    ensures Parse(env, POSTFIX, Print(c) + rest) == Ok(c, rest)
    decreases c, POSTFIX, 0
  {
    if c.Postfix? {
      IncDecStops(c.base, c.op);
      RoundTrip(env, PRIMARY, c.base, [c.op] + rest);
      assert Print(c) + rest == Print(c.base) + ([c.op] + rest);
      IncDecStep(env, Print(c) + rest, c.base, c.op, rest);
    } else if c.Index? {
      var close := [Punct(RBRACKET)] + rest;
      var open := [Punct(LBRACKET)] + (Print(c.index) + close);
      BracketStops(c.base);
      CloserStops(EXPR, c.index, Head(close));
      RoundTrip(env, PRIMARY, c.base, open);
      RoundTrip(env, EXPR, c.index, close);
      Regroup4(Print(c.base), [Punct(LBRACKET)], Print(c.index), [Punct(RBRACKET)], rest);
      IndexStep(env, Print(c) + rest, c.base, Print(c.index) + close, c.index, rest);
    } else {
      LowerStops(PRIMARY, POSTFIX, c, Head(rest));
      RoundTrip(env, PRIMARY, c, rest);
    }
  }

  lemma {:induction false} UnaryTrip(env: Env, c: CExpr, rest: seq<Token>)
    requires Legal(env, UNARY, c) && Stops(UNARY, c, Head(rest))
    ensures Parse(env, UNARY, Print(c) + rest) == Ok(c, rest)
    decreases c, UNARY, 0
  {
    if c.Prefix? {
      RoundTrip(env, UNARY, c.arg, rest);
      assert Print(c) + rest == [c.op] + (Print(c.arg) + rest);
      PrefixStep(env, c.op, Print(c.arg) + rest, c.arg, rest);
    } else {
      PostfixHead(env, c, rest);
      LowerStops(POSTFIX, UNARY, c, Head(rest));
      RoundTrip(env, POSTFIX, c, rest);
    }
  }

  lemma PostfixHead(env: Env, c: CExpr, rest: seq<Token>)
    requires Legal(env, UNARY, c) && Stops(UNARY, c, Head(rest)) && !c.Prefix?
    ensures Legal(env, POSTFIX, c)
    ensures !IsPrefix(Head(Print(c) + rest))
  {
    if c.Missing? {
      assert Print(c) + rest == rest;
    } else if c.Postfix? {
      PrimaryHead(env, c.base);
    } else if c.Index? && !c.base.Missing? {
      PrimaryHead(env, c.base);
    }
  }

  lemma PrimaryHead(env: Env, c: CExpr)
    requires Legal(env, PRIMARY, c) && !c.Missing?
    ensures |Print(c)| > 0 && !IsPrefix(Print(c)[0])
  {
  }

  lemma {:induction false} CondTrip(env: Env, c: CExpr, rest: seq<Token>)
    requires Legal(env, COND, c) && Stops(COND, c, Head(rest))
    ensures Parse(env, COND, Print(c) + rest) == Ok(c, rest)
    decreases c, COND, 0
  {
    if c.Ternary? {
      var colon := [Punct(COLON)] + (Print(c.els) + rest);
      var quest := [Punct(QUESTION)] + (Print(c.thn) + colon);
      QuestionStops(c.cond);
      CloserStops(EXPR, c.thn, Head(colon));
      RoundTrip(env, 7, c.cond, quest);
      RoundTrip(env, EXPR, c.thn, colon);
      RoundTrip(env, COND, c.els, rest);
      Regroup5(Print(c.cond), [Punct(QUESTION)], Print(c.thn), [Punct(COLON)], Print(c.els), rest);
      TernaryStep(env, Print(c) + rest, c.cond, Print(c.thn) + colon, c.thn, Print(c.els) + rest, c.els, rest);
    } else {
      LowerStops(7, COND, c, Head(rest));
      RoundTrip(env, 7, c, rest);
      CondPass(env, Print(c) + rest);
    }
  }

  lemma {:induction false} AssignTrip(env: Env, c: CExpr, rest: seq<Token>)
    requires Legal(env, ASSIGNMENT, c) && Stops(ASSIGNMENT, c, Head(rest))
    ensures Parse(env, ASSIGNMENT, Print(c) + rest) == Ok(c, rest)
    decreases c, ASSIGNMENT, 0
  {
    if c.Assign? {
      var tail := [c.asg, c.op] + (Print(c.rhs) + rest);
      AssignStops(c.lhs, c.asg);
      RoundTrip(env, COND, c.lhs, tail);
      RoundTrip(env, ASSIGNMENT, c.rhs, rest);
      Regroup3(Print(c.lhs), [c.asg, c.op], Print(c.rhs), rest);
      AssignStep(env, Print(c) + rest, c.lhs, c.asg, c.op, Print(c.rhs) + rest, c.rhs, rest);
    } else {
      LowerStops(COND, ASSIGNMENT, c, Head(rest));
      RoundTrip(env, COND, c, rest);
      AssignPass(env, Print(c) + rest);
    }
  }

  lemma {:induction false} LoopTrip(env: Env, k: Layer, c: CExpr, rest: seq<Token>)
    requires IsLoop(k) && Legal(env, k, c) && Stops(k - 1, c, Head(rest))
    ensures Parse(env, k, Print(c) + rest) == Loop(env, k, c, rest)
    decreases c, k, 0
  {
    if c.Binary? && OpLayer(c.op) == k {
      var tail := [c.op] + (Print(c.rhs) + rest);
      OperatorStops(k, c.lhs, c.op);
      LoopTrip(env, k, c.lhs, tail);
      RoundTrip(env, k - 1, c.rhs, rest);
      Regroup3(Print(c.lhs), [c.op], Print(c.rhs), rest);
      LoopStep(env, k, c.lhs, c.op, Print(c.rhs) + rest, c.rhs, rest);
    } else {
      RoundTrip(env, k - 1, c, rest);
    }
  }

  // ---------- parsing, then printing ----------

  /** `r` is a legal tree printing the tokens consumed, and the next token does not continue it. */
  ghost predicate Explains(env: Env, k: Layer, ts: seq<Token>, r: Parsed<CExpr>) {
    r.Ok? && Legal(env, k, r.node) && Print(r.node) + r.rest == ts && Stops(k, r.node, Head(r.rest))
  }

  /** A successful parse comes from a legal tree whose print is exactly the tokens consumed, and it
      stopped because the next token does not continue that tree. */
  lemma {:induction false} Sound(env: Env, k: Layer, ts: seq<Token>)
    requires Parse(env, k, ts).Ok?
    ensures Explains(env, k, ts, Parse(env, k, ts))
    decreases |ts|, k, 1
  {
    if k == PRIMARY { PrimarySound(env, ts); }
    else if k == POSTFIX { PostfixSound(env, ts); }
    else if k == UNARY { UnarySound(env, ts); }
    else if k == COND { CondSound(env, ts); }
    else if k == ASSIGNMENT { AssignSound(env, ts); }
    else {
      var l := Parse(env, k - 1, ts);
      Sound(env, k - 1, ts);
      LegalUp(env, k - 1, k, l.node);
      LoopSound(env, k, l.node, l.rest);
    }
  }

  /** What a layer accepts, every layer above it accepts, save a postfix operator without operand. */
  lemma LegalUp(env: Env, j: Layer, k: Layer, c: CExpr)
    requires j <= k && Legal(env, j, c)
    requires c.Postfix? && c.base.Missing? ==> j == k || j >= UNARY
    ensures Legal(env, k, c)
  {
  }

  lemma {:induction false} PrimarySound(env: Env, ts: seq<Token>)
    requires Parse(env, PRIMARY, ts).Ok?
    ensures Explains(env, PRIMARY, ts, Parse(env, PRIMARY, ts))
    decreases |ts|, PRIMARY, 0
  {
    hide OpLayer, IsAssign;
    if Head(ts) == Punct(LPAREN) {
      Sound(env, EXPR, ts[1..]);
    }
  }

  lemma {:induction false} PostfixSound(env: Env, ts: seq<Token>)
    requires Parse(env, POSTFIX, ts).Ok?
    ensures Explains(env, POSTFIX, ts, Parse(env, POSTFIX, ts))
    decreases |ts|, POSTFIX, 0
  {
    var b := Parse(env, PRIMARY, ts);
    Sound(env, PRIMARY, ts);
    if Head(b.rest) == Punct(LBRACKET) {
      Sound(env, EXPR, b.rest[1..]);
      IndexSound(env, ts);
    } else {
      PostfixOpSound(env, ts);
    }
  }

  lemma IndexSound(env: Env, ts: seq<Token>)
    requires ParsePostfix(env, ts).Ok? && Explains(env, PRIMARY, ts, Parse(env, PRIMARY, ts))
    requires var b := Parse(env, PRIMARY, ts);
             Head(b.rest) == Punct(LBRACKET) && Explains(env, EXPR, b.rest[1..], Parse(env, EXPR, b.rest[1..]))
    ensures Explains(env, POSTFIX, ts, ParsePostfix(env, ts))
  {
    hide Parse, OpLayer, IsAssign, IsPrefix;
    var b := Parse(env, PRIMARY, ts);
    var i := Parse(env, EXPR, b.rest[1..]);
    Regroup4(Print(b.node), [Punct(LBRACKET)], Print(i.node), [Punct(RBRACKET)], i.rest[1..]);
    assert i.rest == [Punct(RBRACKET)] + i.rest[1..];
    assert b.rest == [Punct(LBRACKET)] + b.rest[1..];
  }

  lemma PostfixOpSound(env: Env, ts: seq<Token>)
    requires ParsePostfix(env, ts).Ok? && Explains(env, PRIMARY, ts, Parse(env, PRIMARY, ts))
    requires Head(Parse(env, PRIMARY, ts).rest) != Punct(LBRACKET)
    ensures Explains(env, POSTFIX, ts, ParsePostfix(env, ts))
  {
    hide Parse, OpLayer, IsAssign, IsPrefix;
    var b := Parse(env, PRIMARY, ts);
    if IsIncDec(Head(b.rest)) {
      assert b.rest == [b.rest[0]] + b.rest[1..];
    } else {
      LegalUp(env, PRIMARY, POSTFIX, b.node);
    }
  }

  lemma {:induction false} UnarySound(env: Env, ts: seq<Token>)
    requires Parse(env, UNARY, ts).Ok?
    ensures Explains(env, UNARY, ts, Parse(env, UNARY, ts))
    decreases |ts|, UNARY, 0
  {
    hide OpLayer, IsAssign;
    if IsPrefix(Head(ts)) {
      Sound(env, UNARY, ts[1..]);
    } else {
      var r := Parse(env, POSTFIX, ts);
      Sound(env, POSTFIX, ts);
      if r.node.Postfix? && r.node.base.Missing? { assert false; }
      LegalUp(env, POSTFIX, UNARY, r.node);
    }
  }

  lemma {:induction false} CondSound(env: Env, ts: seq<Token>)
    requires Parse(env, COND, ts).Ok?
    ensures Explains(env, COND, ts, Parse(env, COND, ts))
    decreases |ts|, COND, 0
  {
    hide OpLayer, IsAssign, IsPrefix;
    var c := Parse(env, 7, ts);
    Sound(env, 7, ts);
    if Head(c.rest) == Punct(QUESTION) {
      var t := Parse(env, EXPR, c.rest[1..]);
      Sound(env, EXPR, c.rest[1..]);
      Sound(env, COND, t.rest[1..]);
      var e := Parse(env, COND, t.rest[1..]);
      Regroup5(Print(c.node), [Punct(QUESTION)], Print(t.node), [Punct(COLON)], Print(e.node), e.rest);
      assert c.rest == [Punct(QUESTION)] + c.rest[1..];
      assert t.rest == [Punct(COLON)] + t.rest[1..];
    } else {
      LegalUp(env, 7, COND, c.node);
    }
  }

  lemma {:induction false} AssignSound(env: Env, ts: seq<Token>)
    requires Parse(env, ASSIGNMENT, ts).Ok?
    ensures Explains(env, ASSIGNMENT, ts, Parse(env, ASSIGNMENT, ts))
    decreases |ts|, ASSIGNMENT, 0
  {
    hide OpLayer, IsPrefix;
    var l := Parse(env, COND, ts);
    Sound(env, COND, ts);
    if IsAssign(Head(l.rest)) {
      Sound(env, ASSIGNMENT, l.rest[2..]);
      var e := Parse(env, ASSIGNMENT, l.rest[2..]);
      Regroup3(Print(l.node), [l.rest[0], l.rest[1]], Print(e.node), e.rest);
      assert l.rest == [l.rest[0], l.rest[1]] + l.rest[2..];
    } else {
      LegalUp(env, COND, ASSIGNMENT, l.node);
    }
  }

  lemma {:induction false} LoopSound(env: Env, k: Layer, lhs: CExpr, ts: seq<Token>)
    requires IsLoop(k) && Loop(env, k, lhs, ts).Ok?
    requires Legal(env, k, lhs) && Stops(k - 1, lhs, Head(ts))
    ensures Explains(env, k, Print(lhs) + ts, Loop(env, k, lhs, ts))
    decreases |ts|, k, 0
  {
    hide IsAssign, IsPrefix;
    if OpLayer(Head(ts)) == k {
      var rhs := Parse(env, k - 1, ts[1..]);
      Sound(env, k - 1, ts[1..]);
      Regroup3(Print(lhs), [ts[0]], Print(rhs.node), rhs.rest);
      assert ts == [ts[0]] + ts[1..];
      LoopSound(env, k, Binary(ts[0], lhs, rhs.node), rhs.rest);
    }
  }

  /** The parser is the grammar: on every token stream, a call of layer `k` answers `c` and leaves
      `rest` if and only if `c` is a legal tree for that layer, the stream is its print followed by
      `rest`, and the first token of `rest` does not continue it. */
  lemma ParserIsGrammar(env: Env, k: Layer, ts: seq<Token>, c: CExpr, rest: seq<Token>)
    ensures Parse(env, k, ts) == Ok(c, rest)
            <==> Legal(env, k, c) && ts == Print(c) + rest && Stops(k, c, Head(rest))
  {
    if Parse(env, k, ts) == Ok(c, rest) { Sound(env, k, ts); }
    if Legal(env, k, c) && ts == Print(c) + rest && Stops(k, c, Head(rest)) { RoundTrip(env, k, c, rest); }
  }

  /** The grammar is unambiguous, redundant parentheses and missing operands included: a token
      stream is read as at most one legal tree, ending at most at one place. */
  lemma Unambiguous(env: Env, k: Layer, c: CExpr, rest: seq<Token>, c': CExpr, rest': seq<Token>)
    requires Legal(env, k, c) && Stops(k, c, Head(rest))
    requires Legal(env, k, c') && Stops(k, c', Head(rest'))
    requires Print(c) + rest == Print(c') + rest'
    ensures c == c' && rest == rest'
  {
    RoundTrip(env, k, c, rest);
    RoundTrip(env, k, c', rest');
  }

  /** Two distinct legal trees never print the same tokens. */
  lemma PrintInjective(env: Env, c: CExpr, c': CExpr)
    requires Legal(env, EXPR, c) && Legal(env, EXPR, c') && Print(c) == Print(c')
    ensures c == c'
  {
    CloserStops(EXPR, c, Eof);
    CloserStops(EXPR, c', Eof);
    Unambiguous(env, EXPR, c, [], c', []);
  }
}
