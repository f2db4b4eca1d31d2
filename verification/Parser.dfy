/** The recursive-descent parser over a lexer object, against the functions on token lists. */
module Parsers {
  import opened Tokens
  import opened ExprGrammar
  import opened ExprParsing
  import opened Ast
  import opened StmtGrammar
  import opened StmtParsing
  import opened StmtAst
  import opened Lexers
  import opened HashTable
  import opened SymbolTables
  import ScopeStack

  /** What a parsing function returns, or how the program ends in it. */
  datatype Outcome<+T> = Done(node: T) | Failed(error: Error)

  class Parser {
    const lexer: Lexer
    const tabref: Symtab
    /** The names in the text, and the symbols that the current scope answers for them. */
    ghost const names: set<string>
    ghost const env: Env

    constructor (lexer: Lexer, tabref: Symtab, ghost names: set<string>, ghost env: Env)
      ensures this.lexer == lexer && this.tabref == tabref && this.names == names && this.env == env
    {
      this.lexer := lexer;
      this.tabref := tabref;
      this.names := names;
      this.env := env;
    }

    /** The symbol table, which no parsing function changes, answers as `env` says. */
    ghost predicate Scoped()
      reads tabref, tabref.scopes, set s | s in tabref.scopes :: s.lookup,
            set s | s in tabref.scopes :: s.lookup.entries
    {
      tabref.Valid() && ScopeStack.Answers(tabref.hash, tabref.Visible(), names, env)
    }

    /** The lexer can still be peeked at, and its identifiers can be looked up. */
    ghost predicate Ready()
      reads lexer, lexer.Repr, lexer.keywords, lexer.keywords.entries
      reads tabref, tabref.scopes, set s | s in tabref.scopes :: s.lookup,
            set s | s in tabref.scopes :: s.lookup.entries
    {
      && lexer.Valid() && !lexer.Drained()
      && Scoped() && tabref.Footprint() !! lexer.Repr
      && forall t <- lexer.pending :: t.Identifier? ==> t.name in names
    }

    /** `r` is the node of what `p` says, and the lexer is left where `p` says; after a failure the
        program has exited or is undefined, and nothing is said of the lexer. */
    ghost predicate Builds(r: Outcome<Expr>, p: Parsed<CExpr>)
      reads lexer, lexer.Repr, lexer.keywords, lexer.keywords.entries
      reads tabref, tabref.scopes, set s | s in tabref.scopes :: s.lookup,
            set s | s in tabref.scopes :: s.lookup.entries
    {
      match p
      case Err(e) => r == Failed(e)
      case Ok(c, rest) => r == Done(Erase(c)) && Ready() && lexer.pending == rest
    }

    method Peek() returns (t: Token)
      requires Ready()
      modifies lexer.Repr
      ensures Ready() && lexer.Repr == old(lexer.Repr) && lexer.pending == old(lexer.pending)
      ensures t == Head(lexer.pending)
    {
      hide Scoped, Lexers.Lexer.Valid, Lexers.Lexer.Drained;
      var x := lexer.Peek();
      t := x.value.tok;
    }

    method Eat()
      requires Ready()
      modifies lexer.Repr
      ensures lexer.Repr == old(lexer.Repr)
      ensures old(lexer.pending) != [] ==> Ready() && lexer.pending == old(lexer.pending)[1..]
    {
      hide Scoped, Lexers.Lexer.Valid, Lexers.Lexer.Drained;
      lexer.Eat();
    }

    method Advance() returns (kind: Option<Kind>)
      requires Ready()
      modifies lexer.Repr
      ensures lexer.Repr == old(lexer.Repr)
      ensures kind.Some? ==> kind.value == KindOf(Head(old(lexer.pending)))
      ensures old(lexer.pending) != [] ==>
                Ready() && lexer.pending == old(lexer.pending)[1..] && kind.Some?
    {
      hide Scoped, Lexers.Lexer.Valid, Lexers.Lexer.Drained;
      kind := lexer.Advance();
    }

    lemma IdentifierIsNamed()
      requires Ready()
      ensures Head(lexer.pending).Identifier? ==> Head(lexer.pending).name in names
    {
    }

    /** The symbol the current scope answers for a name. */
    method LookUp(name: string) returns (symbol: Option<Symbol>)
      requires Ready() && name in names
      ensures symbol == if name in env then Some(env[name]) else None
    {
      hide Lexers.Lexer.Valid, Lexers.Lexer.Drained;
      var r := tabref.LookupFrom(tabref.current, name);
      symbol := if r.Live? then Some(r.value) else None;
    }

    /** Consumes a token; `None` past the last end of file. */
    method Get() returns (t: Option<Token>)
      requires Ready()
      modifies lexer.Repr
      ensures lexer.Repr == old(lexer.Repr)
      ensures old(lexer.pending) == [] ==> t == None
      ensures old(lexer.pending) != [] ==>
                Ready() && t == Some(old(lexer.pending)[0]) && lexer.pending == old(lexer.pending)[1..]
    {
      hide Scoped, Lexers.Lexer.Valid;
      var x := lexer.Get();
      t := if lexer.sources == [] then None else Some(x.value.tok);
    }

    /** Takes the token after an assignment operator for the operator; `None` past the last end of file. */
    method TakeOperator() returns (t: Option<Token>)
      requires Ready() && lexer.pending != []
      modifies lexer.Repr
      ensures lexer.Repr == old(lexer.Repr)
      ensures |old(lexer.pending)| < 2 ==> t == None
      ensures |old(lexer.pending)| >= 2 ==>
                Ready() && t == Some(old(lexer.pending)[1]) && lexer.pending == old(lexer.pending)[2..]
    {
      hide Ready;
      ghost var ts := lexer.pending;
      Eat();
      assert |ts| >= 2 ==> ts[1..][1..] == ts[2..];
      t := Get();
    }

    method ParsePrimaryExpr() returns (r: Outcome<Expr>)
      requires Ready()
      modifies lexer.Repr
      ensures lexer.Repr == old(lexer.Repr) && Builds(r, Parse(env, PRIMARY, old(lexer.pending)))
      decreases |lexer.pending|, PRIMARY, 0
    {
      hide Ready;
      ghost var ts := lexer.pending;
      var t := Peek();
      if t.Identifier? {
        IdentifierIsNamed();
        var tok := Get();
        var symref := LookUp(tok.value.name);
        if symref.None? { return Failed(Fatal); }
        return Done(IdentNode(symref.value));
      } else if IsConstant(t) {
        var tok := Get();
        return Done(ConstNode(ConstTypeOf(t), tok.value));
      } else if t == Punct(LPAREN) {
        Eat();
        r := ParseExpr();
        if r.Failed? { return; }
        var closing := Get();
        if closing != Some(Punct(RPAREN)) { return Failed(Fatal); }
        return;
      } else if t.StringLit? {
        return Failed(Undefined);
      }
      return Done(Null);
    }

    method ParsePostfixExpr() returns (r: Outcome<Expr>)
      requires Ready()
      modifies lexer.Repr
      ensures lexer.Repr == old(lexer.Repr) && Builds(r, Parse(env, POSTFIX, old(lexer.pending)))
      decreases |lexer.pending|, POSTFIX, 0
    {
      hide Ready;
      r := ParsePrimaryExpr();
      if r.Failed? { return; }
      var node := r.node;
      var t := Peek();
      if t == Punct(LBRACKET) {
        var op := Get();
        r := ParseExpr();
        if r.Failed? { return; }
        var rhs := r.node;
        var closing := Get();
        if closing != Some(Punct(RBRACKET)) { return Failed(Fatal); }
        return Done(PostfixNode(op.value, node, rhs));
      } else if IsMember(t) {
        var op := Get();
        r := ParsePrimaryExpr();
        if r.Failed? { return; }
        return Failed(Undefined);
      } else if IsIncDec(t) {
        var op := Get();
        return Done(PostfixNode(op.value, node, Null));
      }
    }

    method ParseUnaryExpr() returns (r: Outcome<Expr>)
      requires Ready()
      modifies lexer.Repr
      ensures lexer.Repr == old(lexer.Repr) && Builds(r, Parse(env, UNARY, old(lexer.pending)))
      decreases |lexer.pending|, UNARY, 0
    {
      hide Ready;
      var t := Peek();
      if IsPrefix(t) {
        var op := Get();
        r := ParseUnaryExpr();
        if r.Failed? { return; }
        return Done(UnaryNode(op.value, r.node));
      }
      r := ParsePostfixExpr();
    }

    /** The five loops over binary operators, one for each layer from `* / %` to `&& ||`. */
    method ParseBinaryExpr(k: Layer) returns (r: Outcome<Expr>)
      requires Ready() && 3 <= k <= 7
      modifies lexer.Repr
      ensures lexer.Repr == old(lexer.Repr) && Builds(r, Parse(env, k, old(lexer.pending)))
      decreases |lexer.pending|, k, 0
    {
      hide Ready, Parse, Loop, Erase, IsAssign;
      ghost var ts := lexer.pending;
      if k == 3 { r := ParseUnaryExpr(); } else { r := ParseBinaryExpr(k - 1); }
      LoopStarts(env, k, ts);
      if r.Failed? { return; }
      var node := r.node;
      ghost var c := Parse(env, k - 1, ts).node;
      var t := Peek();
      while OpLayer(t) == k
        invariant Ready() && lexer.Repr == old(lexer.Repr) && t == Head(lexer.pending)
        invariant |lexer.pending| <= |ts|
        invariant node == Erase(c) && Parse(env, k, ts) == Loop(env, k, c, lexer.pending)
        decreases |lexer.pending|
      {
        ghost var before := lexer.pending;
        LoopGoesOn(env, k, c, before);
        var op := Get();
        if k == 3 { r := ParseUnaryExpr(); } else { r := ParseBinaryExpr(k - 1); }
        if r.Failed? { return; }
        node := BinaryNode(op.value, node, r.node);
        c := Binary(op.value, c, Parse(env, k - 1, before[1..]).node);
        t := Peek();
      }
      LoopEnds(env, k, c, lexer.pending);
      return Done(node);
    }

    method ParseCondExpr() returns (r: Outcome<Expr>)
      requires Ready()
      modifies lexer.Repr
      ensures lexer.Repr == old(lexer.Repr) && Builds(r, Parse(env, COND, old(lexer.pending)))
      decreases |lexer.pending|, COND, 0
    {
      hide Ready, Parse;
      CondIsCond(env, lexer.pending);
      r := ParseBinaryExpr(7);
      if r.Failed? { return; }
      var node := r.node;
      var t := Peek();
      if t == Punct(QUESTION) {
        Eat();
        r := ParseExpr();
        if r.Failed? { return; }
        var lhs := r.node;
        var colon := Get();
        if colon != Some(Punct(COLON)) { return Failed(Fatal); }
        r := ParseCondExpr();
        if r.Failed? { return; }
        return Done(TernaryNode(node, lhs, r.node));
      }
    }

    /** The operator is eaten, and the token after it becomes the operator of the node. */
    method ParseAssignExpr() returns (r: Outcome<Expr>)
      requires Ready()
      modifies lexer.Repr
      ensures lexer.Repr == old(lexer.Repr) && Builds(r, Parse(env, ASSIGNMENT, old(lexer.pending)))
      decreases |lexer.pending|, ASSIGNMENT, 0
    {
      hide Ready;
      r := ParseCondExpr();
      if r.Failed? { return; }
      var node := r.node;
      var t := Peek();
      if IsAssign(t) {
        var op := TakeOperator();
        if op.None? { return Failed(Undefined); }
        r := ParseAssignExpr();
        if r.Failed? { return; }
        return Done(AssignNode(op.value, node, r.node));
      }
    }

    method ParseExpr() returns (r: Outcome<Expr>)
      requires Ready()
      modifies lexer.Repr
      ensures lexer.Repr == old(lexer.Repr) && Builds(r, Parse(env, EXPR, old(lexer.pending)))
      decreases |lexer.pending|, EXPR, 0
    {
      hide Ready, Parse, Loop, Erase, IsAssign;
      ghost var ts := lexer.pending;
      r := ParseAssignExpr();
      LoopStarts(env, EXPR, ts);
      if r.Failed? { return; }
      var node := r.node;
      ghost var c := Parse(env, ASSIGNMENT, ts).node;
      var t := Peek();
      while t == Punct(COMMA)
        invariant Ready() && lexer.Repr == old(lexer.Repr) && t == Head(lexer.pending)
        invariant |lexer.pending| <= |ts|
        invariant node == Erase(c) && Parse(env, EXPR, ts) == Loop(env, EXPR, c, lexer.pending)
        decreases |lexer.pending|
      {
        ghost var before := lexer.pending;
        LoopGoesOn(env, EXPR, c, before);
        var op := Get();
        r := ParseAssignExpr();
        if r.Failed? { return; }
        node := BinaryNode(op.value, node, r.node);
        c := Binary(op.value, c, Parse(env, ASSIGNMENT, before[1..]).node);
        t := Peek();
      }
      LoopEnds(env, EXPR, c, lexer.pending);
      return Done(node);
    }

    ghost predicate BuildsStmt(r: Outcome<Node>, p: Parsed<CStmt>)
      reads lexer, lexer.Repr, lexer.keywords, lexer.keywords.entries
      reads tabref, tabref.scopes, set s | s in tabref.scopes :: s.lookup,
            set s | s in tabref.scopes :: s.lookup.entries
    {
      match p
      case Err(e) => r == Failed(e)
      case Ok(s, rest) => r == Done(EraseStmt(s)) && Ready() && lexer.pending == rest
    }

    /** The null node when no declaration starts here. */
    method ParseDeclaration() returns (r: Outcome<Node>)
      requires Ready()
      modifies lexer.Repr
      ensures lexer.Repr == old(lexer.Repr)
      ensures if !IsDeclSpec(Head(old(lexer.pending)))
              then r == Done(NullNode) && Ready() && lexer.pending == old(lexer.pending)
              else
                match ParseDecl(old(lexer.pending))
                case Err(e) => r == Failed(e)
                case Ok(t, rest) => r == Done(Leaf(DeclShape(t))) && Ready() && lexer.pending == rest
    {
      hide Ready;
      ghost var ts := lexer.pending;
      var t := Peek();
      if !IsDeclSpec(t) { return Done(NullNode); }
      Eat();
      assert ts[1..] == [] || ts[1..][1..] == ts[2..];
      var semi := Advance();
      if semi != Some(PunctKind(SEMICOLON)) { return Failed(Fatal); }
      return Done(Leaf(DeclShape(t)));
    }

    /** An expression and the punctuator that must follow it. */
    method ParseUntil(p: Punct) returns (r: Outcome<Expr>)
      requires Ready()
      modifies lexer.Repr
      ensures lexer.Repr == old(lexer.Repr) && Builds(r, Until(env, p, old(lexer.pending)))
    {
      hide Ready, Parse;
      r := ParseExpr();
      if r.Failed? { return; }
      var kind := Advance();
      if kind != Some(PunctKind(p)) { return Failed(Fatal); }
    }

    /** A parenthesised expression after a keyword. */
    method ParseGuard() returns (r: Outcome<Expr>)
      requires Ready()
      modifies lexer.Repr
      ensures lexer.Repr == old(lexer.Repr) && Builds(r, Guard(env, old(lexer.pending)))
    {
      hide Ready, Parse, Until;
      var kind := Advance();
      if kind != Some(PunctKind(LPAREN)) { return Failed(Fatal); }
      r := ParseUntil(RPAREN);
    }

    method ParseStatement() returns (r: Outcome<Node>)
      requires Ready()
      modifies lexer.Repr
      ensures lexer.Repr == old(lexer.Repr) && BuildsStmt(r, ParseStmt(env, old(lexer.pending)))
      decreases |lexer.pending|, 2
    {
      hide Ready, ParseIf, ParseCase, ParseDefault, ParseGuarded, ParseDo, ParseFor, ParseJump, ParseExprStmt;
      hide EraseStmt;
      var t := Peek();
      if t == Punct(LBRACE) {
        r := ParseBlock();
      } else if !t.Keyword? {
        r := ParseExpressionStatement();
      } else {
        match t.kw
        case IF => r := ParseIfStatement();
        case CASE => r := ParseCaseStatement();
        case DEFAULT => r := ParseDefaultStatement();
        case SWITCH => r := ParseSwitchStatement();
        case WHILE => r := ParseWhileStatement();
        case DO => r := ParseDoStatement();
        case FOR => r := ParseForStatement();
        case BREAK => r := ParseJumpStatement();
        case CONTINUE => r := ParseJumpStatement();
        case GOTO => r := ParseGotoStatement();
        case RETURN => r := ParseReturnStatement();
        case _ => NoStatement(); return Done(NullNode);
      }
    }

    lemma NoStatement()
      ensures EraseStmt(Void(Missing)) == NullNode
    {
    }

    method ParseExpressionStatement() returns (r: Outcome<Node>)
      requires Ready()
      modifies lexer.Repr
      ensures lexer.Repr == old(lexer.Repr) && BuildsStmt(r, ParseExprStmt(env, old(lexer.pending)))
    {
      hide Ready, Parse;
      ghost var e := Parse(env, EXPR, lexer.pending);
      var x := ParseExpr();
      if x.Failed? { return Failed(x.error); }
      HollowIsNull(e.node);
      if x.node == Null { return Done(NullNode); }
      var kind := Advance();
      if kind != Some(PunctKind(SEMICOLON)) { return Failed(Fatal); }
      return Done(Leaf(ExprShape(x.node)));
    }

    method ParseIfStatement() returns (r: Outcome<Node>)
      requires Ready() && Head(lexer.pending) == Keyword(IF)
      modifies lexer.Repr
      ensures lexer.Repr == old(lexer.Repr) && BuildsStmt(r, ParseIf(env, old(lexer.pending)))
      decreases |lexer.pending|, 1
    {
      hide Ready, Guard, ParseStmt;
      ghost var g := Guard(env, lexer.pending[1..]);
      Eat();
      var c := ParseGuard();
      if c.Failed? { return Failed(c.error); }
      HollowIsNull(g.node);
      if c.node == Null { return Failed(Fatal); }
      ghost var s := ParseStmt(env, lexer.pending);
      var ifnode := ParseStatement();
      if ifnode.Failed? { return ifnode; }
      VoidIsNull(env, g.rest);
      if ifnode.node == NullNode { return Failed(Fatal); }
      var t := Peek();
      if t != Keyword(ELSE) { return Done(Leaf(IfShape(c.node, ifnode.node, NullNode))); }
      Eat();
      var elnode := ParseStatement();
      if elnode.Failed? { return elnode; }
      return Done(Leaf(IfShape(c.node, ifnode.node, elnode.node)));
    }

    method ParseCaseStatement() returns (r: Outcome<Node>)
      requires Ready() && Head(lexer.pending) == Keyword(CASE)
      modifies lexer.Repr
      ensures lexer.Repr == old(lexer.Repr) && BuildsStmt(r, ParseCase(env, old(lexer.pending)))
      decreases |lexer.pending|, 1
    {
      hide Ready, Until, ParseStmt;
      Eat();
      var e := ParseUntil(COLON);
      if e.Failed? { return Failed(e.error); }
      r := ParseStatement();
      if r.Failed? { return; }
      return Done(Leaf(CaseShape(e.node, r.node)));
    }

    method ParseDefaultStatement() returns (r: Outcome<Node>)
      requires Ready() && Head(lexer.pending) == Keyword(DEFAULT)
      modifies lexer.Repr
      ensures lexer.Repr == old(lexer.Repr) && BuildsStmt(r, ParseDefault(env, old(lexer.pending)))
      decreases |lexer.pending|, 1
    {
      hide Ready, ParseStmt;
      ghost var ts := lexer.pending;
      Eat();
      assert ts[1..] == [] || ts[1..][1..] == ts[2..];
      var kind := Advance();
      if kind != Some(PunctKind(COLON)) { return Failed(Fatal); }
      r := ParseStatement();
      if r.Failed? { return; }
      return Done(Leaf(DefaultShape(r.node)));
    }

    method ParseSwitchStatement() returns (r: Outcome<Node>)
      requires Ready() && Head(lexer.pending) == Keyword(SWITCH)
      modifies lexer.Repr
      ensures lexer.Repr == old(lexer.Repr) && BuildsStmt(r, ParseGuarded(env, old(lexer.pending)))
      decreases |lexer.pending|, 1
    {
      hide Ready, Guard, ParseStmt;
      Eat();
      var c := ParseGuard();
      if c.Failed? { return Failed(c.error); }
      r := ParseStatement();
      if r.Failed? { return; }
      return Done(Leaf(SwitchShape(c.node, r.node)));
    }

    method ParseWhileStatement() returns (r: Outcome<Node>)
      requires Ready() && Head(lexer.pending) == Keyword(WHILE)
      modifies lexer.Repr
      ensures lexer.Repr == old(lexer.Repr) && BuildsStmt(r, ParseGuarded(env, old(lexer.pending)))
      decreases |lexer.pending|, 1
    {
      hide Ready, Guard, ParseStmt;
      Eat();
      var c := ParseGuard();
      if c.Failed? { return Failed(c.error); }
      r := ParseStatement();
      if r.Failed? { return; }
      return Done(Leaf(WhileShape(c.node, r.node)));
    }

    method ParseDoStatement() returns (r: Outcome<Node>)
      requires Ready() && Head(lexer.pending) == Keyword(DO)
      modifies lexer.Repr
      ensures lexer.Repr == old(lexer.Repr) && BuildsStmt(r, ParseDo(env, old(lexer.pending)))
      decreases |lexer.pending|, 1
    {
      hide Ready, Guard, ParseStmt;
      Eat();
      var b := ParseStatement();
      if b.Failed? { return b; }
      var tok := Get();
      if tok != Some(Keyword(WHILE)) { return Failed(Fatal); }
      var c := ParseGuard();
      if c.Failed? { return Failed(c.error); }
      var kind := Advance();
      if kind != Some(PunctKind(SEMICOLON)) { return Failed(Fatal); }
      return Done(Leaf(DoShape(b.node, c.node)));
    }

    /** The first clause of a `for`: a declaration is tried before an expression. */
    method ParseForInit() returns (r: Outcome<Shape>)
      requires Ready()
      modifies lexer.Repr
      ensures lexer.Repr == old(lexer.Repr)
      ensures match ParseInit(env, old(lexer.pending))
              case Err(e) => r == Failed(e)
              case Ok(i, rest) => r == Done(EraseInit(i)) && Ready() && lexer.pending == rest
    {
      hide Ready, Until;
      var d := ParseDeclaration();
      if d.Failed? { return Failed(d.error); }
      if d.node == NullNode {
        var e := ParseUntil(SEMICOLON);
        if e.Failed? { return Failed(e.error); }
        return Done(ExprShape(e.node));
      }
      var kind := Advance();
      if kind != Some(PunctKind(SEMICOLON)) { return Failed(Fatal); }
      return Done(d.node.shape);
    }

    /** The body goes into the `next` pointer of the node. */
    method ParseForStatement() returns (r: Outcome<Node>)
      requires Ready() && Head(lexer.pending) == Keyword(FOR)
      modifies lexer.Repr
      ensures lexer.Repr == old(lexer.Repr) && BuildsStmt(r, ParseFor(env, old(lexer.pending)))
      decreases |lexer.pending|, 1
    {
      hide Ready, Until, ParseInit, ParseStmt;
      ghost var ts := lexer.pending;
      Eat();
      assert ts[1..] == [] || ts[1..][1..] == ts[2..];
      var kind := Advance();
      if kind != Some(PunctKind(LPAREN)) { return Failed(Fatal); }
      var i := ParseForInit();
      if i.Failed? { return Failed(i.error); }
      var c := ParseUntil(SEMICOLON);
      if c.Failed? { return Failed(c.error); }
      var st := ParseUntil(RPAREN);
      if st.Failed? { return Failed(st.error); }
      r := ParseStatement();
      if r.Failed? { return; }
      return Done(Node(ForShape(i.node, c.node, st.node), r.node));
    }

    /** `break` and `continue`. */
    method ParseJumpStatement() returns (r: Outcome<Node>)
      requires Ready() && (Head(lexer.pending) == Keyword(BREAK) || Head(lexer.pending) == Keyword(CONTINUE))
      modifies lexer.Repr
      ensures lexer.Repr == old(lexer.Repr) && BuildsStmt(r, ParseJump(env, old(lexer.pending)))
    {
      hide Ready, Until;
      ghost var ts := lexer.pending;
      var kw := Peek();
      Eat();
      assert ts[1..] == [] || ts[1..][1..] == ts[2..];
      var semi := Advance();
      if semi != Some(PunctKind(SEMICOLON)) { return Failed(Fatal); }
      return Done(Leaf(if kw == Keyword(BREAK) then BreakShape else ContinueShape));
    }

    method ParseGotoStatement() returns (r: Outcome<Node>)
      requires Ready() && Head(lexer.pending) == Keyword(GOTO)
      modifies lexer.Repr
      ensures lexer.Repr == old(lexer.Repr) && BuildsStmt(r, ParseJump(env, old(lexer.pending)))
    {
      hide Ready, Until;
      ghost var ts := lexer.pending;
      Eat();
      assert ts[1..] == [] || ts[1..][1..] == ts[2..];
      IdentifierIsNamed();
      var tok := Get();
      if tok.None? || !tok.value.Identifier? { return Failed(Fatal); }
      var symbol := LookUp(tok.value.name);
      if symbol.None? { return Failed(Fatal); }
      assert ts[2..] == [] || ts[2..][1..] == ts[3..];
      var semi := Advance();
      if semi != Some(PunctKind(SEMICOLON)) { return Failed(Fatal); }
      return Done(Leaf(GotoShape(symbol.value)));
    }

    method ParseReturnStatement() returns (r: Outcome<Node>)
      requires Ready() && Head(lexer.pending) == Keyword(RETURN)
      modifies lexer.Repr
      ensures lexer.Repr == old(lexer.Repr) && BuildsStmt(r, ParseJump(env, old(lexer.pending)))
    {
      hide Ready, Until;
      Eat();
      var e := ParseUntil(SEMICOLON);
      if e.Failed? { return Failed(e.error); }
      return Done(Leaf(ReturnShape(e.node)));
    }

    /** The items are linked in the order they are parsed. */
    method ParseBlock() returns (r: Outcome<Node>)
      requires Ready() && Head(lexer.pending) == Punct(LBRACE)
      modifies lexer.Repr
      ensures lexer.Repr == old(lexer.Repr) && BuildsStmt(r, ParseStmt(env, old(lexer.pending)))
      decreases |lexer.pending|, 1
    {
      hide Ready, ParseStmt, EraseStmt, Chain, LinkAll;
      ghost var ts := lexer.pending;
      BlockParse(env, ts);
      Eat();
      var nodes: seq<Node> := [];
      ghost var done: seq<CStmt> := [];
      var t := Peek();
      while t != Punct(RBRACE)
        invariant Ready() && lexer.Repr == old(lexer.Repr) && t == Head(lexer.pending)
        invariant |lexer.pending| < |ts|
        invariant Erased(nodes, done)
        invariant ParseItems(env, ts[1..]) == Prepend(done, ParseItems(env, lexer.pending))
        decreases |lexer.pending|
      {
        ghost var before := lexer.pending;
        var stmt := ParseDeclaration();
        if stmt.Failed? { return stmt; }
        if stmt.node == NullNode {
          stmt := ParseStatement();
          if stmt.Failed? { return stmt; }
          VoidIsNull(env, before);
          if stmt.node == NullNode { return Failed(Fatal); }
        }
        ghost var item := ParseItem(env, before);
        DeclErased(item.node);
        assert stmt.node == EraseStmt(item.node);
        PrependStep(done, item.node, ParseItems(env, lexer.pending));
        done := done + [item.node];
        nodes := nodes + [stmt.node];
        t := Peek();
      }
      Eat();
      ErasedChain(nodes, done);
      return Done(Leaf(BlockShape(LinkAll(nodes))));
    }
  }

  lemma CondIsCond(env: Env, ts: seq<Token>)
    ensures Parse(env, COND, ts) == ParseCond(env, ts)
  {
  }

  /** A loop layer starts with the layer below. */
  lemma LoopStarts(env: Env, k: Layer, ts: seq<Token>)
    requires IsLoop(k)
    ensures var l := Parse(env, k - 1, ts);
            Parse(env, k, ts) == if l.Err? then l else Loop(env, k, l.node, l.rest)
  {
  }

  /** One more operator and operand. */
  lemma LoopGoesOn(env: Env, k: Layer, c: CExpr, ts: seq<Token>)
    requires IsLoop(k) && OpLayer(Head(ts)) == k
    ensures var r := Parse(env, k - 1, ts[1..]);
            && Loop(env, k, c, ts) == (if r.Err? then r else Loop(env, k, Binary(ts[0], c, r.node), r.rest))
            && (r.Ok? ==> Erase(Binary(ts[0], c, r.node)) == BinaryNode(ts[0], Erase(c), Erase(r.node)))
  {
  }

  lemma LoopEnds(env: Env, k: Layer, c: CExpr, ts: seq<Token>)
    requires IsLoop(k) && OpLayer(Head(ts)) != k
    ensures Loop(env, k, c, ts) == Ok(c, ts)
  {
  }

  /** The nodes of a block, each linked to the next. */
  function LinkAll(nodes: seq<Node>): Node {
    if nodes == [] then NullNode
    else if |nodes| == 1 then nodes[0]
    else Link(nodes[0], LinkAll(nodes[1..]))
  }

  ghost predicate Erased(nodes: seq<Node>, done: seq<CStmt>) {
    |nodes| == |done| && forall i :: 0 <= i < |nodes| ==> nodes[i] == EraseStmt(done[i])
  }

  function ItemsOf(done: seq<CStmt>, tail: Items): Items {
    if done == [] then tail else Item(done[0], ItemsOf(done[1..], tail))
  }

  /** The rest of a block parsed after the items `done`. */
  function Prepend(done: seq<CStmt>, r: Parsed<Items>): Parsed<Items> {
    if r.Err? then r else Ok(ItemsOf(done, r.node), r.rest)
  }

  lemma {:induction false} ItemsOfStep(done: seq<CStmt>, s: CStmt, tail: Items)
    ensures ItemsOf(done + [s], tail) == ItemsOf(done, Item(s, tail))
  {
    if done != [] {
      assert (done + [s])[1..] == done[1..] + [s];
      ItemsOfStep(done[1..], s, tail);
    } else {
      assert ([] + [s])[1..] == [];
    }
  }

  lemma PrependStep(done: seq<CStmt>, s: CStmt, r: Parsed<Items>)
    ensures Prepend(done + [s], r) == Prepend(done, if r.Err? then r else Ok(Item(s, r.node), r.rest))
  {
    if r.Ok? { ItemsOfStep(done, s, r.node); }
  }

  lemma {:induction false} ErasedChain(nodes: seq<Node>, done: seq<CStmt>)
    requires Erased(nodes, done)
    ensures LinkAll(nodes) == Chain(ItemsOf(done, Close))
  {
    if |nodes| > 1 {
      ErasedChain(nodes[1..], done[1..]);
      assert ItemsOf(done[1..], Close).Item?;
    } else if |nodes| == 1 {
      assert ItemsOf(done[1..], Close) == Close;
    }
  }

  lemma BlockParse(env: Env, ts: seq<Token>)
    requires Head(ts) == Punct(LBRACE)
    ensures var b := ParseItems(env, ts[1..]);
            ParseStmt(env, ts) == if b.Err? then Err(b.error) else Ok(Block(b.node), b.rest)
    ensures forall items :: EraseStmt(Block(items)) == Leaf(BlockShape(Chain(items)))
  {
  }

  lemma VoidIsNull(env: Env, ts: seq<Token>)
    requires ParseStmt(env, ts).Ok?
    ensures EraseStmt(ParseStmt(env, ts).node) == NullNode <==> ParseStmt(env, ts).node.Void?
  {
  }

  lemma DeclErased(s: CStmt)
    ensures s.Decl? ==> EraseStmt(s) == Leaf(DeclShape(s.spec))
  {
  }
}
