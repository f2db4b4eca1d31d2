/** Where an `else` ends up: section 6.8.4.1 of ISO/IEC 9899:1999 ties it to the nearest `if`. */
module DanglingElse {
  import opened Tokens
  import opened ExprGrammar
  import opened ExprParsing
  import opened Ast
  import opened StmtGrammar
  import opened StmtParsing
  import opened StmtTheorems
  import opened StmtAst

  /** The right edge of `s` is a missing body. */
  predicate EndsVoid(s: CStmt) {
    match s
    case Void(_) => true
    case If(_, b) => EndsVoid(b)
    case IfElse(_, _, e) => EndsVoid(e)
    case Case(_, b) => EndsVoid(b)
    case Default(b) => EndsVoid(b)
    case Switch(_, b) => EndsVoid(b)
    case While(_, b) => EndsVoid(b)
    case For(_, _, _, b) => EndsVoid(b)
    case _ => false
  }

  /** A statement that does not end in a missing body is continued by `else` alone, and only when an
      `if` on its right edge still lacks one. */
  lemma {:induction s} OnlyElseContinues(s: CStmt, t: Token)
    requires !EndsVoid(s)
    ensures StmtStops(s, t) <==> !(OpenIf(s) && t == Keyword(ELSE))
  {
  }

  /** The statement round trip in its classical form: printing a legal statement with a body
      wherever the C grammar demands one and parsing it back is the identity, whatever follows,
      unless an `else` follows an `if` that can still take it. */
  lemma CompleteRoundTrip(env: Env, s: CStmt, rest: seq<Token>)
    requires LegalStmt(env, s) && !EndsVoid(s)
    requires OpenIf(s) ==> Head(rest) != Keyword(ELSE)
    ensures ParseStmt(env, PrintStmt(s) + rest) == Ok(s, rest)
  {
    OnlyElseContinues(s, Head(rest));
    StmtRoundTrip(env, s, rest);
  }

  /** The node ends in an `if` without `else`, through any nesting of loops and labels. */
  predicate OpenNode(n: Node) {
    n.Node? &&
    match n.shape
    case IfShape(_, _, e) => e.NullNode? || OpenNode(e)
    case CaseShape(_, b) => OpenNode(b)
    case DefaultShape(b) => OpenNode(b)
    case SwitchShape(_, b) => OpenNode(b)
    case WhileShape(_, b) => OpenNode(b)
    case ForShape(_, _, _) => OpenNode(n.next)
    case _ => false
  }

  /** Nowhere in `n` is an `else` attached to an `if` whose then-branch ends in an open `if`. */
  predicate NearestIf(n: Node) {
    n.Node? ==> NearestIfShape(n.shape) && NearestIf(n.next)
  }

  predicate NearestIfShape(s: Shape) {
    match s
    case BlockShape(f) => NearestIf(f)
    case IfShape(_, t, e) => NearestIf(t) && NearestIf(e) && (e.Node? ==> !OpenNode(t))
    case CaseShape(_, b) => NearestIf(b)
    case DefaultShape(b) => NearestIf(b)
    case SwitchShape(_, b) => NearestIf(b)
    case WhileShape(_, b) => NearestIf(b)
    case DoShape(b, _) => NearestIf(b)
    case _ => true
  }

  /** The right edge of `s` is an `else` with nothing after it. */
  predicate EndsEmptyElse(s: CStmt) {
    match s
    case IfElse(_, _, e) => e.Void? || EndsEmptyElse(e)
    case Case(_, b) => EndsEmptyElse(b)
    case Default(b) => EndsEmptyElse(b)
    case Switch(_, b) => EndsEmptyElse(b)
    case While(_, b) => EndsEmptyElse(b)
    case For(_, _, _, b) => EndsEmptyElse(b)
    case _ => false
  }

  /** No `else` with a statement after it follows an `else` with none. A `for` body that a sibling
      replaces is not looked at. */
  predicate ElsesFilled(s: CStmt) {
    match s
    case Block(items) => ElsesFilledItems(items)
    case If(_, t) => ElsesFilled(t)
    case IfElse(_, t, e) => ElsesFilled(t) && ElsesFilled(e) && (EndsEmptyElse(t) ==> e.Void?)
    case Case(_, b) => ElsesFilled(b)
    case Default(b) => ElsesFilled(b)
    case Switch(_, b) => ElsesFilled(b)
    case While(_, b) => ElsesFilled(b)
    case Do(b, _) => ElsesFilled(b)
    case For(_, _, _, b) => ElsesFilled(b)
    case _ => true
  }

  predicate ElsesFilledItems(items: Items) {
    match items
    case Close => true
    case Item(h, t) => ((h.For? && t.Item?) || ElsesFilled(h)) && ElsesFilledItems(t)
  }

  lemma {:induction s} ErasedOpen(env: Env, s: CStmt)
    requires s.Decl? || LegalStmt(env, s)
    ensures EraseStmt(s) == NullNode <==> s.Void?
    ensures OpenNode(EraseStmt(s)) <==> OpenIf(s) || EndsEmptyElse(s)
  {
  }

  lemma {:induction s} StopsElse(s: CStmt)
    requires StmtStops(s, Keyword(ELSE))
    ensures !OpenIf(s)
  {
  }

  lemma LeafNearest(n: Node)
    ensures n.Node? && n.next.NullNode? ==> (NearestIf(n) <==> NearestIfShape(n.shape))
    ensures NearestIf(NullNode)
  {
  }

  lemma {:induction false} ErasedNearest(env: Env, s: CStmt)
    requires s.Decl? || LegalStmt(env, s)
    ensures NearestIf(EraseStmt(s)) <==> ElsesFilled(s)
    decreases s
  {
    LeafNearest(EraseStmt(s));
    match s
    case Block(items) => ErasedNearestItems(env, items);
    case If(_, t) => ErasedNearest(env, t);
    case IfElse(_, t, e) =>
      ErasedNearest(env, t);
      ErasedNearest(env, e);
      ErasedOpen(env, t);
      ErasedOpen(env, e);
      StopsElse(t);
    case Case(_, b) => ErasedNearest(env, b);
    case Default(b) => ErasedNearest(env, b);
    case Switch(_, b) => ErasedNearest(env, b);
    case While(_, b) => ErasedNearest(env, b);
    case Do(b, _) => ErasedNearest(env, b);
    case For(_, _, _, b) => ErasedNearest(env, b);
    case _ =>
  }

  lemma {:induction false} ErasedNearestItems(env: Env, items: Items)
    requires LegalItems(env, items)
    ensures NearestIf(Chain(items)) <==> ElsesFilledItems(items)
    decreases items
  {
    if items.Item? {
      ErasedNearest(env, items.head);
      ErasedNearestItems(env, items.tail);
      ErasedOpen(env, items.head);
    }
  }

  /** In the tree of any successful parse no `else` has been taken from a nearer `if`, precisely
      when no `else` with a statement comes right after one without. */
  lemma ElseBindsNearest(env: Env, ts: seq<Token>)
    requires ParseStmt(env, ts).Ok?
    ensures var s := ParseStmt(env, ts).node; NearestIf(EraseStmt(s)) <==> ElsesFilled(s)
  {
    StmtSound(env, ts);
    ErasedNearest(env, ParseStmt(env, ts).node);
  }

  /** The condition is needed: of `if (a) if (b) c; else else d;` the program builds an `else`
      attached to the outer `if`, around an inner `if` whose own `else` has vanished. */
  lemma EmptyElseIsStepped(env: Env, a: string, b: string, c: string, d: string)
    requires a in env && b in env && c in env && d in env
    ensures var r := ParseStmt(env, EmptyElseStream(a, b, c, d));
            r.Ok? && r.rest == [] && !NearestIf(EraseStmt(r.node))
  {
    var s := EmptyElseTree(env, a, b, c, d);
    EmptyElsePrint(env, a, b, c, d);
    assert StmtStops(s, Eof);
    StmtRoundTrip(env, s, []);
    assert PrintStmt(s) + [] == EmptyElseStream(a, b, c, d);
    assert EndsEmptyElse(s.thn);
    ErasedNearest(env, s);
  }

  /** `if (a) if (b) c; else else d;` */
  function EmptyElseStream(a: string, b: string, c: string, d: string): seq<Token> {
    [Keyword(IF), Punct(LPAREN), Identifier(a), Punct(RPAREN),
     Keyword(IF), Punct(LPAREN), Identifier(b), Punct(RPAREN),
     Identifier(c), Punct(SEMICOLON), Keyword(ELSE), Keyword(ELSE),
     Identifier(d), Punct(SEMICOLON)]
  }

  function EmptyElseTree(env: Env, a: string, b: string, c: string, d: string): CStmt
    requires a in env && b in env && c in env && d in env
  {
    IfElse(Ident(a, env[a]), IfElse(Ident(b, env[b]), ExprStmt(Ident(c, env[c])), Void(Missing)),
           ExprStmt(Ident(d, env[d])))
  }

  lemma EmptyElsePrint(env: Env, a: string, b: string, c: string, d: string)
    requires a in env && b in env && c in env && d in env
    ensures var s := EmptyElseTree(env, a, b, c, d);
            LegalStmt(env, s) && PrintStmt(s) == EmptyElseStream(a, b, c, d)
  {
    var (ea, eb) := (Ident(a, env[a]), Ident(b, env[b]));
    var (sc, sd) := (ExprStmt(Ident(c, env[c])), ExprStmt(Ident(d, env[d])));
    assert PrintStmt(sc) == [Identifier(c), Punct(SEMICOLON)] && PrintStmt(sd) == [Identifier(d), Punct(SEMICOLON)];
    assert Print(Paren(ea)) == [Punct(LPAREN), Identifier(a), Punct(RPAREN)];
    assert Print(Paren(eb)) == [Punct(LPAREN), Identifier(b), Punct(RPAREN)];
    assert PrintStmt(Void(Missing)) == [];
    assert LegalStmt(env, sc) && LegalStmt(env, sd);
  }
}
