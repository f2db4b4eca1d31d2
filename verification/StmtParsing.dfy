/** The statement parser as a function from tokens to a concrete tree and the tokens left over. */
module StmtParsing {
  import opened Tokens
  import opened ExprGrammar
  import opened ExprParsing
  import opened Ast
  import opened StmtGrammar

  /** An expression and the punctuator that must follow it. */
  function Until(env: Env, p: Punct, ts: seq<Token>): (r: Parsed<CExpr>)
    ensures r.Ok? ==> |r.rest| < |ts|
  {
    var e := Parse(env, EXPR, ts);
    if e.Err? then e
    else if Head(e.rest) != Punct(p) then Err(Fatal)
    else Ok(e.node, e.rest[1..])
  }

  /** A parenthesised expression after a keyword. */
  function Guard(env: Env, ts: seq<Token>): (r: Parsed<CExpr>)
    ensures r.Ok? ==> |r.rest| < |ts|
  {
    if Head(ts) != Punct(LPAREN) then Err(Fatal) else Until(env, RPAREN, ts[1..])
  }

  /** A declaration: one specifier keyword and a semicolon. */
  function ParseDecl(ts: seq<Token>): (r: Parsed<Token>)
    requires IsDeclSpec(Head(ts))
    ensures r.Ok? ==> |r.rest| < |ts|
  {
    if Head(ts[1..]) != Punct(SEMICOLON) then Err(Fatal) else Ok(ts[0], ts[2..])
  }

  function ParseStmt(env: Env, ts: seq<Token>): (r: Parsed<CStmt>)
    ensures r.Ok? ==> |r.rest| <= |ts| && !r.node.Decl? && (!r.node.Void? ==> |r.rest| < |ts|)
    decreases |ts|, 1
  {
    var t := Head(ts);
    if t == Punct(LBRACE) then
      var b := ParseItems(env, ts[1..]);
      if b.Err? then Err(b.error) else Ok(Block(b.node), b.rest)
    else if !t.Keyword? then ParseExprStmt(env, ts)
    else
      match t.kw
      case IF => ParseIf(env, ts)
      case CASE => ParseCase(env, ts)
      case DEFAULT => ParseDefault(env, ts)
      case SWITCH | WHILE => ParseGuarded(env, ts)
      case DO => ParseDo(env, ts)
      case FOR => ParseFor(env, ts)
      case BREAK | CONTINUE | GOTO | RETURN => ParseJump(env, ts)
      case _ => Ok(Void(Missing), ts)
  }

  function ParseExprStmt(env: Env, ts: seq<Token>): (r: Parsed<CStmt>)
    ensures r.Ok? ==> |r.rest| <= |ts| && !r.node.Decl? && (!r.node.Void? ==> |r.rest| < |ts|)
  {
    var e := Parse(env, EXPR, ts);
    if e.Err? then Err(e.error)
    else if Hollow(e.node) then Ok(Void(e.node), e.rest)
    else if Head(e.rest) != Punct(SEMICOLON) then Err(Fatal)
    else Ok(ExprStmt(e.node), e.rest[1..])
  }

  function ParseIf(env: Env, ts: seq<Token>): (r: Parsed<CStmt>)
    requires ts != []
    ensures r.Ok? ==> |r.rest| < |ts| && !r.node.Decl? && !r.node.Void?
    decreases |ts|, 0
  {
    var c := Guard(env, ts[1..]);
    if c.Err? then Err(c.error)
    else if Hollow(c.node) then Err(Fatal)
    else
      var t := ParseStmt(env, c.rest);
      if t.Err? then t
      else if t.node.Void? then Err(Fatal)
      else if Head(t.rest) != Keyword(ELSE) then Ok(If(c.node, t.node), t.rest)
      else
        var e := ParseStmt(env, t.rest[1..]);
        if e.Err? then e else Ok(IfElse(c.node, t.node, e.node), e.rest)
  }

  function ParseCase(env: Env, ts: seq<Token>): (r: Parsed<CStmt>)
    requires ts != []
    ensures r.Ok? ==> |r.rest| < |ts| && !r.node.Decl? && !r.node.Void?
    decreases |ts|, 0
  {
    var e := Until(env, COLON, ts[1..]);
    if e.Err? then Err(e.error)
    else
      var b := ParseStmt(env, e.rest);
      if b.Err? then b else Ok(Case(e.node, b.node), b.rest)
  }

  function ParseDefault(env: Env, ts: seq<Token>): (r: Parsed<CStmt>)
    requires ts != []
    ensures r.Ok? ==> |r.rest| < |ts| && !r.node.Decl? && !r.node.Void?
    decreases |ts|, 0
  {
    if Head(ts[1..]) != Punct(COLON) then Err(Fatal)
    else
      var b := ParseStmt(env, ts[2..]);
      if b.Err? then b else Ok(Default(b.node), b.rest)
  }

  function ParseGuarded(env: Env, ts: seq<Token>): (r: Parsed<CStmt>)
    requires Head(ts) == Keyword(SWITCH) || Head(ts) == Keyword(WHILE)
    ensures r.Ok? ==> |r.rest| < |ts| && !r.node.Decl? && !r.node.Void?
    decreases |ts|, 0
  {
    var c := Guard(env, ts[1..]);
    if c.Err? then Err(c.error)
    else
      var b := ParseStmt(env, c.rest);
      if b.Err? then b
      else Ok(if ts[0].kw == SWITCH then Switch(c.node, b.node) else While(c.node, b.node), b.rest)
  }

  function ParseDo(env: Env, ts: seq<Token>): (r: Parsed<CStmt>)
    requires ts != []
    ensures r.Ok? ==> |r.rest| < |ts| && !r.node.Decl? && !r.node.Void?
    decreases |ts|, 0
  {
    var b := ParseStmt(env, ts[1..]);
    if b.Err? then b
    else if Head(b.rest) != Keyword(WHILE) then Err(Fatal)
    else
      var c := Guard(env, b.rest[1..]);
      if c.Err? then Err(c.error)
      else if Head(c.rest) != Punct(SEMICOLON) then Err(Fatal)
      else Ok(Do(b.node, c.node), c.rest[1..])
  }

  /** The first clause of a `for`, up to and including the semicolon that must follow it. */
  function ParseInit(env: Env, ts: seq<Token>): (r: Parsed<ForInit>)
    ensures r.Ok? ==> |r.rest| < |ts|
  {
    if IsDeclSpec(Head(ts)) then
      var d := ParseDecl(ts);
      if d.Err? then Err(d.error)
      else if Head(d.rest) != Punct(SEMICOLON) then Err(Fatal)
      else Ok(InitDecl(d.node), d.rest[1..])
    else
      var e := Until(env, SEMICOLON, ts);
      if e.Err? then Err(e.error) else Ok(InitExpr(e.node), e.rest)
  }

  function ParseFor(env: Env, ts: seq<Token>): (r: Parsed<CStmt>)
    requires ts != []
    ensures r.Ok? ==> |r.rest| < |ts| && !r.node.Decl? && !r.node.Void?
    decreases |ts|, 0
  {
    if Head(ts[1..]) != Punct(LPAREN) then Err(Fatal)
    else
      var i := ParseInit(env, ts[2..]);
      if i.Err? then Err(i.error)
      else
        var c := Until(env, SEMICOLON, i.rest);
        if c.Err? then Err(c.error)
        else
          var st := Until(env, RPAREN, c.rest);
          if st.Err? then Err(st.error)
          else
            var b := ParseStmt(env, st.rest);
            if b.Err? then b else Ok(For(i.node, c.node, st.node, b.node), b.rest)
  }

  function ParseJump(env: Env, ts: seq<Token>): (r: Parsed<CStmt>)
    requires Head(ts).Keyword?
    ensures r.Ok? ==> |r.rest| < |ts| && !r.node.Decl? && !r.node.Void?
  {
    if ts[0].kw == RETURN then
      var e := Until(env, SEMICOLON, ts[1..]);
      if e.Err? then Err(e.error) else Ok(Return(e.node), e.rest)
    else if ts[0].kw == GOTO then
      var t := Head(ts[1..]);
      if !t.Identifier? || t.name !in env then Err(Fatal)
      else if Head(ts[2..]) != Punct(SEMICOLON) then Err(Fatal)
      else Ok(Goto(t.name, env[t.name]), ts[3..])
    else
      if Head(ts[1..]) != Punct(SEMICOLON) then Err(Fatal)
      else Ok(if ts[0].kw == BREAK then Break else Continue, ts[2..])
  }

  /** The loop over the items of a block, up to and including its closing brace. */
  function ParseItems(env: Env, ts: seq<Token>): (r: Parsed<Items>)
    ensures r.Ok? ==> |r.rest| < |ts|
    decreases |ts|, 3
  {
    if Head(ts) == Punct(RBRACE) then Ok(Close, ts[1..])
    else
      var h := ParseItem(env, ts);
      if h.Err? then Err(h.error)
      else if h.node.Void? then Err(Fatal)
      else
        var t := ParseItems(env, h.rest);
        if t.Err? then t else Ok(Item(h.node, t.node), t.rest)
  }

  /** One pass of that loop: a declaration if one starts here, else a statement. */
  function ParseItem(env: Env, ts: seq<Token>): (r: Parsed<CStmt>)
    ensures r.Ok? ==> |r.rest| <= |ts| && (!r.node.Void? ==> |r.rest| < |ts|)
    decreases |ts|, 2
  {
    if IsDeclSpec(Head(ts)) then
      var d := ParseDecl(ts);
      if d.Err? then Err(d.error) else Ok(Decl(d.node), d.rest)
    else ParseStmt(env, ts)
  }
}
