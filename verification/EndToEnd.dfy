/** From characters to nodes. */
module EndToEnd {
  import opened Tokens
  import opened HashTable
  import opened ExprParsing
  import opened ExprGrammar
  import opened StmtGrammar
  import opened StmtParsing
  import opened StmtTheorems
  import opened StmtAst
  import opened Lexing
  import opened LexTheorems
  import opened Keywords
  import TokenQueue
  import ScopeStack
  import opened SymbolTables
  import opened Lexers
  import opened Parsers

  /** The tokens of a text, without its end of file. */
  function TextTokens(d: Dictionary, text: string): seq<Token> {
    var ts := TokensOf(LexAll(d, text, 0, 1));
    ts[..|ts| - 1]
  }

  /** The text never leaves the part of the lexer that is modelled, and every identifier read from it
      is among `names`. */
  ghost predicate Covered(d: Dictionary, text: string, names: set<string>) {
    Supported(d, text, 0, 1) && forall tok <- TextTokens(d, text) :: tok.Identifier? ==> tok.name in names
  }

  ghost predicate Gives(r: Outcome<Node>, p: Parsed<CStmt>) {
    match p
    case Err(e) => r == Failed(e)
    case Ok(s, _) => r == Done(EraseStmt(s))
  }

  /** A lexer over one text. */
  method OpenText(hash: Hash, text: string) returns (lexer: Lexer)
    requires Supported(ProgramDict(hash), text, 0, 1)
    ensures fresh(lexer) && fresh(lexer.Repr) && lexer.Valid() && !lexer.Drained()
    ensures lexer.pending == TextTokens(ProgramDict(hash), text)
  {
    hide LexAll, Supported, IsKeywordTable, TokensOf, Inv, ProgramTable;
    lexer := new Lexer(hash);
    var source := new Source(text);
    assert lexer.Dict() == ProgramDict(hash);
    ghost var xs := LexAll(lexer.Dict(), text, 0, 1);
    lexer.Register(source);
    assert lexer.View() == TokenQueue.State(None, [xs]);
    OneSource(xs);
  }

  lemma OneSource(xs: seq<Lexeme>)
    requires xs != []
    ensures var st := TokenQueue.State(None, [xs]);
            TokenQueue.Valid(st) && TokensOf(TokenQueue.Pending(st)) == TokensOf(xs)[..|xs| - 1]
  {
    hide TokensOf;
    OneSourcePending(xs);
    TokensOfPrefix(xs, |xs| - 1);
  }

  lemma {:induction false} TokensOfPrefix(xs: seq<Lexeme>, n: nat)
    requires n <= |xs|
    ensures TokensOf(xs[..n]) == TokensOf(xs)[..n]
    decreases n
  {
    if n > 0 {
      TokensOfPrefix(xs[1..], n - 1);
      assert xs[..n][1..] == xs[1..][..n - 1];
    }
  }

  lemma OneSourcePending(xs: seq<Lexeme>)
    requires xs != []
    ensures var st := TokenQueue.State(None, [xs]);
            TokenQueue.Valid(st) && TokenQueue.Pending(st) == xs[..|xs| - 1]
  {
    assert [xs][1..] == [] && TokenQueue.Flatten<Lexeme>([]) == [];
    assert TokenQueue.Flatten([xs]) == xs + [];
  }

  /** The whole front end: a lexer with its keyword table, a source, a symbol table that answers for
      the names in the text, and a parser run over them. */
  method ParseText(hash: Hash, tabref: Symtab, text: string, ghost names: set<string>, ghost env: Env)
    returns (r: Outcome<Node>)
    requires Covered(ProgramDict(hash), text, names)
    requires tabref.Valid() && ScopeStack.Answers(tabref.hash, tabref.Visible(), names, env)
    ensures Gives(r, ParseStmt(env, TextTokens(ProgramDict(hash), text)))
  {
    hide TextTokens, ProgramTable, ScopeStack.Answers, Inv, ParseStmt, EraseStmt;
    hide SymbolTables.Symtab.Valid, SymbolTables.Symtab.Visible, Lexers.Lexer.Valid, Lexers.Lexer.Drained;
    var lexer := OpenText(hash, text);
    var parser := new Parser(lexer, tabref, names, env);
    r := parser.ParseStatement();
  }

  /** The tokens of `s`, spelled as the lexer reads them, in some layout. */
  ghost predicate Spells(d: Dictionary, s: CStmt, ps: seq<Piece>, tail: string) {
    PieceTokens(ps) == PrintStmt(s) && Spaced(d, ps, tail)
  }

  /** Plain tokens can be written down for every hash. */
  lemma PlainSpaced(h: Hash, ps: seq<Piece>, tail: string)
    requires Blank(tail) && (forall p <- ps :: Blank(p.gap) && Plain(p.tok))
    requires forall k :: 0 < k < |ps| ==> ps[k].gap != ""
    ensures Spaced(ProgramDict(h), ps, tail)
  {
    hide Plain, Writable, ProgramTable, Inv, IsKeywordTable;
    ProgramTableHolds(h);
    forall p | p in ps
      ensures Writable(ProgramDict(h), p.tok)
    {
      PlainIsWritable(h, ProgramTable(h), p.tok);
    }
  }

  /** Writing a legal statement down in any layout, lexing the text and parsing the tokens gives the
      statement back, with every keyword table that reads its tokens rightly. */
  lemma TextRoundTrip(d: Dictionary, env: Env, s: CStmt, ps: seq<Piece>, tail: string)
    requires Spells(d, s, ps, tail) && LegalStmt(env, s) && StmtStops(s, Eof)
    ensures var text := Layout(ps, tail);
            && Supported(d, text, 0, 1) && TextTokens(d, text) == PrintStmt(s)
            && ParseStmt(env, TextTokens(d, text)) == Ok(s, [])
  {
    hide LegalStmt, StmtStops, Spaced, Layout, Supported, LexAll, TokensOf;
    LexRoundTrip(d, ps, tail);
    StmtRoundTrip(env, s, []);
    assert PrintStmt(s) + [] == PrintStmt(s);
  }

  /** End to end: the objects of the front end, run on a statement written down in any layout, build
      the node of that statement. */
  method ParseWrittenStatement(hash: Hash, tabref: Symtab, text: string, ghost names: set<string>, ghost env: Env,
                               ghost s: CStmt, ghost ps: seq<Piece>, ghost tail: string)
    returns (r: Outcome<Node>)
    requires tabref.Valid() && ScopeStack.Answers(tabref.hash, tabref.Visible(), names, env)
    requires forall tok <- PrintStmt(s) :: tok.Identifier? ==> tok.name in names
    requires text == Layout(ps, tail) && Spells(ProgramDict(hash), s, ps, tail)
    requires LegalStmt(env, s) && StmtStops(s, Eof)
    ensures r == Done(EraseStmt(s))
  {
    hide Spells, LegalStmt, StmtStops, ProgramTable;
    TextRoundTrip(ProgramDict(hash), env, s, ps, tail);
    r := ParseText(hash, tabref, text, names, env);
  }
}
