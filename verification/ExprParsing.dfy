/** The expression parser as a function from tokens to a concrete tree and the tokens left over. */
module ExprParsing {
  import opened Tokens
  import opened ExprGrammar

  /** Fatal: the program reports an error and exits. Undefined: it reads an uninitialised or
      wrongly typed node, after which the C standard promises nothing. */
  datatype Error = Fatal | Undefined

  datatype Parsed<T> = Ok(node: T, rest: seq<Token>) | Err(error: Error)

  /** One call of the parsing function of layer `k`. */
  function Parse(env: Env, k: Layer, ts: seq<Token>): (r: Parsed<CExpr>)
    ensures r.Ok? ==> |r.rest| <= |ts|
    decreases |ts|, k, 1
  {
    if k == PRIMARY then ParsePrimary(env, ts)
    else if k == POSTFIX then ParsePostfix(env, ts)
    else if k == UNARY then
      if IsPrefix(Head(ts)) then
        var a := Parse(env, UNARY, ts[1..]);
        if a.Err? then a else Ok(Prefix(ts[0], a.node), a.rest)
      else Parse(env, POSTFIX, ts)
    else if k == COND then ParseCond(env, ts)
    else if k == ASSIGNMENT then ParseAssign(env, ts)
    else
      var l := Parse(env, k - 1, ts);
      if l.Err? then l else Loop(env, k, l.node, l.rest)
  }

  function ParsePrimary(env: Env, ts: seq<Token>): (r: Parsed<CExpr>)
    ensures r.Ok? ==> |r.rest| <= |ts|
    decreases |ts|, PRIMARY, 0
  {
    var t := Head(ts);
    if t.Identifier? then
      if t.name in env then Ok(Ident(t.name, env[t.name]), ts[1..]) else Err(Fatal)
    else if IsConstant(t) then Ok(Const(t), ts[1..])
    else if t == Punct(LPAREN) then
      var e := Parse(env, EXPR, ts[1..]);
      if e.Err? then e
      else if Head(e.rest) != Punct(RPAREN) then Err(Fatal)
      else Ok(Paren(e.node), e.rest[1..])
    else if t.StringLit? then Err(Undefined)
    else Ok(Missing, ts)
  }

  function ParsePostfix(env: Env, ts: seq<Token>): (r: Parsed<CExpr>)
    ensures r.Ok? ==> |r.rest| <= |ts|
    decreases |ts|, POSTFIX, 0
  {
    var b := Parse(env, PRIMARY, ts);
    if b.Err? then b
    else
      var t := Head(b.rest);
      if t == Punct(LBRACKET) then
        var i := Parse(env, EXPR, b.rest[1..]);
        if i.Err? then i
        else if Head(i.rest) != Punct(RBRACKET) then Err(Fatal)
        else Ok(Index(b.node, i.node), i.rest[1..])
      else if IsMember(t) then
        var m := Parse(env, PRIMARY, b.rest[1..]);
        if m.Err? then m else Err(Undefined)
      else if IsIncDec(t) then Ok(Postfix(b.node, t), b.rest[1..])
      else b
  }

  function ParseCond(env: Env, ts: seq<Token>): (r: Parsed<CExpr>)
    ensures r.Ok? ==> |r.rest| <= |ts|
    decreases |ts|, COND, 0
  {
    var c := Parse(env, 7, ts);
    if c.Err? || Head(c.rest) != Punct(QUESTION) then c
    else
      var t := Parse(env, EXPR, c.rest[1..]);
      if t.Err? then t
      else if Head(t.rest) != Punct(COLON) then Err(Fatal)
      else
        var e := Parse(env, COND, t.rest[1..]);
        if e.Err? then e else Ok(Ternary(c.node, t.node, e.node), e.rest)
  }

  function ParseAssign(env: Env, ts: seq<Token>): (r: Parsed<CExpr>)
    ensures r.Ok? ==> |r.rest| <= |ts|
    decreases |ts|, ASSIGNMENT, 0
  {
    var l := Parse(env, COND, ts);
    if l.Err? || !IsAssign(Head(l.rest)) then l
    else if |l.rest| < 2 then Err(Undefined)
    else
      var e := Parse(env, ASSIGNMENT, l.rest[2..]);
      if e.Err? then e else Ok(Assign(l.node, l.rest[0], l.rest[1], e.node), e.rest)
  }

  /** The `while` loop of layer `k`, entered with `lhs` already parsed. */
  function Loop(env: Env, k: Layer, lhs: CExpr, ts: seq<Token>): (r: Parsed<CExpr>)
    requires IsLoop(k)
    ensures r.Ok? ==> |r.rest| <= |ts|
    decreases |ts|, k, 0
  {
    if OpLayer(Head(ts)) != k then Ok(lhs, ts)
    else
      var rhs := Parse(env, k - 1, ts[1..]);
      if rhs.Err? then rhs
      else Loop(env, k, Binary(ts[0], lhs, rhs.node), rhs.rest)
  }
}
