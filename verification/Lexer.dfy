/** The lexer object: a keyword table, a stack of sources with moving cursors, and a one-token cache. */
module Lexers {
  import opened Tokens
  import opened HashTable
  import opened HashRuns
  import opened HashMaps
  import opened Lexing
  import opened Spelling
  import opened LexTheorems
  import opened Keywords
  import TokenQueue

  class Source {
    const contents: string
    var cursor: nat
    var line: nat

    constructor (contents: string)
      ensures this.contents == contents && cursor == 0 && line == 1
    {
      this.contents := contents;
      cursor, line := 0, 1;
    }

    /** Skips blanks, counting each carriage return and each line feed as a line. */
    method HandleIgnore()
      requires cursor <= |contents|
      modifies this
      ensures cursor == SkipBlanks(contents, old(cursor)) <= |contents|
      ensures line == old(line) + Newlines(contents, old(cursor), cursor)
    {
      ghost var start := cursor;
      while IsBlank(At(contents, cursor))
        invariant start <= cursor <= |contents|
        invariant SkipBlanks(contents, start) == SkipBlanks(contents, cursor)
        invariant line == old(line) + Newlines(contents, start, cursor)
        decreases |contents| - cursor
      {
        if IsNewline(At(contents, cursor)) { line := line + 1; }
        NewlinesStep(contents, start, cursor);
        cursor := cursor + 1;
      }
    }

    /** The token is the longest operator that starts at the cursor, which moves past it; it stays where
        it is when none does. */
    method OpSeparator() returns (x: Option<Lexeme>)
      requires cursor <= |contents|
      modifies this`cursor
      ensures x.None? ==> cursor == old(cursor) && IsLongest(contents, cursor, None)
      ensures x.Some? ==>
                && x.value.tok.Punct? && x.value.start == old(cursor) && x.value.line == line
                && cursor == old(cursor) + x.value.len <= |contents|
                && IsLongest(contents, old(cursor), Some((x.value.tok.p, x.value.len)))
    {
      var kind, length := ADD, 1;
      var next := At(contents, cursor + 1);
      MaximalMunch(contents, cursor, OpSep(contents, cursor));
      hide IsLongest;
      match At(contents, cursor) {
        case '+' =>
          if next == '+' { kind, length := INC, 2; }
          else if next == '=' { kind, length := ASGN_ADD, 2; }
          else { kind := ADD; }
        case '-' =>
          if next == '-' { kind, length := DEC, 2; }
          else if next == '=' { kind, length := ASGN_SUB, 2; }
          else if next == '>' { kind, length := ARROW, 2; }
          else { kind := SUB; }
        case '&' =>
          if next == '&' { kind, length := LAND, 2; }
          else if next == '=' { kind, length := ASGN_BAND, 2; }
          else { kind := BAND; }
        case '|' =>
          if next == '|' { kind, length := LOR, 2; }
          else if next == '=' { kind, length := ASGN_BOR, 2; }
          else { kind := BOR; }
        case '>' =>
          if next == '>' {
            if At(contents, cursor + 2) == '=' { kind, length := ASGN_BRSHIFT, 3; } else { kind, length := BRSHIFT, 2; }
          } else if next == '=' {
            kind, length := GTE, 2;
          } else {
            kind := GT;
          }
        case '<' =>
          if next == '<' {
            if At(contents, cursor + 2) == '=' { kind, length := ASGN_BLSHIFT, 3; } else { kind, length := BLSHIFT, 2; }
          } else if next == '=' {
            kind, length := LTE, 2;
          } else {
            kind := LT;
          }
        case '*' => if next == '=' { kind, length := ASGN_MUL, 2; } else { kind := MUL; }
        case '/' => if next == '=' { kind, length := ASGN_DIV, 2; } else { kind := DIV; }
        case '%' => if next == '=' { kind, length := ASGN_MOD, 2; } else { kind := MOD; }
        case '!' => if next == '=' { kind, length := NE, 2; } else { kind := BNOT; }
        case '^' => if next == '=' { kind, length := ASGN_BXOR, 2; } else { kind := BXOR; }
        case '=' => if next == '=' { kind, length := EQ, 2; } else { kind := ASSIGN; }
        case '~' => kind := BNOT;
        case ';' => kind := SEMICOLON;
        case ':' => kind := COLON;
        case ',' => kind := COMMA;
        case '(' => kind := LPAREN;
        case ')' => kind := RPAREN;
        case '[' => kind := LBRACKET;
        case ']' => kind := RBRACKET;
        case '{' => kind := LBRACE;
        case '}' => kind := RBRACE;
        case '.' => kind := DOT;
        case '?' => kind := QUESTION;
        case _ => return None;
      }
      assert OpSep(contents, cursor) == Some((kind, length));
      x := Some(Lexeme(Punct(kind), cursor, length, line));
      cursor := cursor + length;
    }

    method Word() returns (x: Lexeme)
      requires cursor <= |contents|
      modifies this`cursor
      ensures cursor == WordEnd(contents, old(cursor)) <= |contents|
      ensures x == Lexeme(Identifier(contents[old(cursor)..cursor]), old(cursor), cursor - old(cursor), line)
    {
      var origin := cursor;
      while InWord(At(contents, cursor))
        invariant origin <= cursor <= |contents|
        invariant WordEnd(contents, origin) == WordEnd(contents, cursor)
        decreases |contents| - cursor
      {
        cursor := cursor + 1;
      }
      x := Lexeme(Identifier(contents[origin..cursor]), origin, cursor - origin, line);
    }

    /** The integer path; `strtol` is taken as the library function it is. */
    method NumConst() returns (x: Lexeme)
      requires cursor <= |contents| && !IsFloat(contents, cursor)
      modifies this`cursor
      ensures var (v, e) := StrToL(contents, old(cursor), BaseAt(contents, old(cursor)));
              cursor == e <= |contents| && x == Lexeme(Integer(v), old(cursor), e - old(cursor), line)
    {
      var origin := cursor;
      var base := 10;
      if At(contents, cursor) == '0' {
        if IsX(At(contents, cursor + 1)) {
          base := 16;
        } else if IsDigit(At(contents, cursor + 1)) {
          base := 8;
        }
      }
      var (v, e) := StrToL(contents, cursor, base);
      cursor := e;
      x := Lexeme(Integer(v), origin, cursor - origin, line);
    }
  }

  lemma {:induction false} NewlinesStep(s: string, i: nat, j: nat)
    requires i <= j
    ensures Newlines(s, i, j + 1) == Newlines(s, i, j) + if IsNewline(At(s, j)) then 1 else 0
    decreases j - i
  {
    if i < j { NewlinesStep(s, i + 1, j); }
  }

  class Lexer {
    const keywords: HashMap<Keyword>
    var sources: seq<Source>
    var cache: Option<Lexeme>
    ghost var Repr: set<object>
    ghost var pending: seq<Token>

    ghost function Dict(): Dictionary
      reads keywords, keywords.entries
    {
      Dictionary(keywords.hash, keywords.entries[..])
    }

    ghost predicate TableValid()
      reads keywords, keywords.entries
    {
      keywords.Valid() && IsKeywordTable(keywords.hash, keywords.Model())
    }

    ghost predicate SourcesValid()
      reads this, Repr, keywords, keywords.entries
    {
      (forall s :: s in sources ==> s in Repr) && Stacked(Dict(), sources)
    }

    /** The state of the token queue this object implements. */
    ghost function View(): TokenQueue.State<Lexeme>
      requires SourcesValid()
      reads this, Repr, keywords, keywords.entries
    {
      TokenQueue.State(cache, Streams(Dict(), sources))
    }

    /** The last end of file is gone: nothing more will be delivered, not even that. */
    ghost predicate Drained()
      reads this
    {
      sources == [] && cache.None?
    }

    ghost predicate Valid()
      reads this, Repr, keywords, keywords.entries
    {
      && this in Repr && keywords !in Repr && keywords.entries !in Repr
      && TableValid() && keywords.Model() == ProgramTable(keywords.hash) && SourcesValid()
      && TokenQueue.Valid(View())
      && pending == TokensOf(TokenQueue.Pending(View()))
      && (sources == [] && cache.Some? ==> cache.value.tok == Eof)
    }

    constructor (hash: Hash)
      ensures Valid() && fresh(Repr) && fresh(keywords) && fresh(keywords.entries)
      ensures sources == [] && cache == None && pending == [] && keywords.hash == hash
    {
      hide IsKeywordTable, ProgramTable, Inv;
      var table := KeywordTable(hash);
      keywords := table;
      sources, cache := [], None;
      Repr := {this};
      pending := [];
    }

    /** Puts a source on top of the stack. */
    method Register(source: Source)
      requires Valid() && source !in sources && source.cursor == 0 && source.line == 1
      requires Supported(Dict(), source.contents, 0, 1)
      modifies this
      ensures Valid() && Repr == old(Repr) + {source}
      ensures sources == [source] + old(sources) && cache == old(cache)
      ensures View() == TokenQueue.State(cache, [LexAll(Dict(), source.contents, 0, 1)] + old(View()).sources)
      ensures keywords.entries == old(keywords.entries)
    {
      hide LexAll, Supported, IsKeywordTable, ProgramTable, Inv, TokensOf, TokenQueue.Pending, TokenQueue.Flatten;
      ghost var (d, ss, xs) := (Dict(), sources, Streams(Dict(), sources));
      sources := [source] + sources;
      Repr := Repr + {source};
      assert sources[1..] == ss;
      pending := TokensOf(TokenQueue.Pending(View()));
    }

    /** One token off the top source. A preprocessor directive or a floating constant would be met
        here; `Supported` rules both out. */
    method LexInternal() returns (x: Lexeme)
      requires TableValid() && SourcesValid() && sources != []
      requires this in Repr && keywords !in Repr && keywords.entries !in Repr
      modifies sources[0]
      ensures x == old(Stream(Dict(), sources[0]))[0]
      ensures x.tok == Eof <==> |old(Stream(Dict(), sources[0]))| == 1
      ensures x.tok != Eof ==> Readable(Dict(), sources[0])
                               && Stream(Dict(), sources[0]) == old(Stream(Dict(), sources[0]))[1..]
    {
      hide IsKeywordTable, ProgramTable, Inv, LexAll, Supported, ScanToken, OpSep, IsLongest, StrToL, BaseAt;
      hide IsFloat, Classify, SkipBlanks;
      hide Contents, NoExtension, HashRuns.Retrieve, WordEnd, Newlines, StartsNumber, StartsWord;
      var source := sources[0];
      ghost var d := Dict();
      assert Readable(d, source);
      ghost var (s, i, l) := (source.contents, source.cursor, source.line);
      SplitStream(d, s, i, l);
      source.HandleIgnore();
      ghost var (j, l') := (source.cursor, source.line);
      TokenCases(d, s, j, l');
      if StartsNumber(source.contents, source.cursor) {
        x := source.NumConst();
      } else if StartsWord(At(source.contents, source.cursor)) {
        x := source.Word();
        LookupReturns(keywords.hash, keywords.Model(), x.tok.name);
        var entry := keywords.Retrieve(x.tok.name);
        if entry.Live? { x := x.(tok := Keyword(entry.value)); }
      } else {
        var op := source.OpSeparator();
        OperatorScanned(s, j, op);
        x := if op.Some? then op.value else Lexeme(Eof, source.cursor, 0, source.line);
      }
    }

    /** Delivers the next pending token. At the end it delivers the last end of file, unless that
        has been peeked at, and from then on nothing. */
    method Get() returns (t: Option<Lexeme>)
      requires Valid()
      modifies Repr
      ensures Valid() && Repr == old(Repr)
      ensures (t, View()) == TokenQueue.Get(old(View()))
      ensures old(pending) != [] ==>
                t.Some? && t.value.tok == old(pending)[0] && pending == old(pending)[1..] && sources != []
      ensures old(pending) == [] ==> pending == [] && (t.None? || t.value.tok == Eof) && sources == []
    {
      hide LexAll, Supported, IsKeywordTable, ProgramTable, Inv, Stream, Streams, TokensOf, TokenQueue.Pending;
      ghost var st := View();
      QueueGet(st);
      if sources == [] { return None; }
      if cache.Some? {
        t := cache;
        cache := None;
      } else {
        var x := NextFromSources();
        t := Some(x);
      }
      pending := TokensOf(TokenQueue.Pending(View()));
    }

    /** Shows the next pending token, or the last end of file, and keeps it in the cache. */
    method Peek() returns (t: Option<Lexeme>)
      requires Valid()
      modifies Repr
      ensures Valid() && Repr == old(Repr) && pending == old(pending)
      ensures (t, View()) == TokenQueue.Peek(old(View()))
      ensures !old(Drained()) ==> !Drained() && t.Some? && t.value.tok == Head(pending)
    {
      hide LexAll, Supported, IsKeywordTable, ProgramTable, Inv, Stream, Streams, TokensOf, TokenQueue.Pending;
      ghost var st := View();
      QueuePeek(st);
      if cache.None? {
        cache := Get();
        pending := TokensOf(TokenQueue.Pending(View()));
      }
      t := cache;
    }

    /** Consumes a token, whatever it is. */
    method Eat()
      requires Valid()
      modifies Repr
      ensures Valid() && Repr == old(Repr) && View() == TokenQueue.Get(old(View())).1
      ensures old(pending) != [] ==> pending == old(pending)[1..] && !Drained()
      ensures old(pending) == [] ==> pending == [] && sources == []
    {
      var _ := Get();
    }

    /** Consumes a token and answers its kind; `None`, for the program's -1, if no source is left. */
    method Advance() returns (kind: Option<Kind>)
      requires Valid()
      modifies Repr
      ensures Valid() && Repr == old(Repr) && View() == TokenQueue.Get(old(View())).1
      ensures kind.None? <==> old(sources) == []
      ensures kind.Some? ==> kind.value == KindOf(Head(old(pending)))
      ensures old(pending) != [] ==> kind.Some? && pending == old(pending)[1..] && !Drained()
      ensures old(pending) == [] ==> pending == [] && sources == []
    {
      var tok := Get();
      kind := if tok.Some? then Some(KindOf(tok.value.tok)) else None;
    }

    /** One token off the stack of sources; a source whose end has been read is dropped. */
    method NextFromSources() returns (x: Lexeme)
      requires TableValid() && SourcesValid() && TokenQueue.Valid(View()) && sources != [] && cache.None?
      requires this in Repr && keywords !in Repr && keywords.entries !in Repr
      modifies this`sources, sources[0]
      ensures TableValid() && SourcesValid()
      ensures (Some(x), View()) == TokenQueue.Get(old(View()))
      ensures sources == [] ==> x.tok == Eof
    {
      hide LexAll, Supported, IsKeywordTable, ProgramTable, Inv, Stream, Readable;
      hide TokenQueue.Pending, TokenQueue.Flatten;
      ghost var (d, ss, rest) := (Dict(), sources, sources[1..]);
      ghost var (top, xs) := (Stream(d, ss[0]), Streams(d, rest));
      assert View().sources == [top] + xs;
      x := LexInternal();
      if x.tok == Eof {
        sources := sources[1..];
        assert [] + ([top] + xs)[1..] == xs;
      } else {
        assert ss[1..] == rest;
        assert [top[1..]] + ([top] + xs)[1..] == [top[1..]] + xs;
      }
    }
  }

  lemma QueuePeek(st: TokenQueue.State<Lexeme>)
    requires TokenQueue.Valid(st)
    ensures var (t, st') := TokenQueue.Peek(st);
            && TokenQueue.Pending(st') == TokenQueue.Pending(st)
            && (TokenQueue.Pending(st) != [] ==>
                  t.Some? && t.value.tok == TokensOf(TokenQueue.Pending(st))[0])
            && (TokenQueue.Pending(st) == [] && st.cache.Some? ==> st.sources == [])
  {
    TokenQueue.PeekKeeps(st);
    TokenQueue.FlattenSize(st.sources);
  }

  /** What a get does to the tokens still pending. */
  lemma QueueGet(st: TokenQueue.State<Lexeme>)
    requires TokenQueue.Valid(st)
    ensures var ts := TokensOf(TokenQueue.Pending(st));
            var (t, st') := TokenQueue.Get(st);
            var ts' := TokensOf(TokenQueue.Pending(st'));
            && (ts != [] ==> t.Some? && t.value.tok == ts[0] && ts' == ts[1..] && st'.sources != [])
            && (ts == [] ==> ts' == [] && st'.sources == [])
  {
    if TokenQueue.Pending(st) == [] {
      TokenQueue.GetAtEnd(st);
    } else {
      TokenQueue.GetDelivers(st);
    }
  }

  /** The first token of a text and the rest. */
  lemma SplitStream(d: Dictionary, s: string, i: nat, line: nat)
    requires i <= |s| && Supported(d, s, i, line)
    ensures var (j, xs) := (SkipBlanks(s, i), LexAll(d, s, i, line));
            match ScanToken(d, s, j, line + Newlines(s, i, j))
            case Found(x) =>
              && x.tok != Eof && xs[0] == x && |xs| > 1 && Supported(d, s, x.start + x.len, x.line)
              && xs[1..] == LexAll(d, s, x.start + x.len, x.line)
            case AtEnd(p, l) => xs == [Lexeme(Eof, p, 0, l)]
            case Outside => false
  {
    hide ScanToken, SkipBlanks, Newlines;
    var j := SkipBlanks(s, i);
    if ScanToken(d, s, j, line + Newlines(s, i, j)).Found? { ScanIsNotEof(d, s, j, line + Newlines(s, i, j)); }
    var r := ScanFrom(d, s, i, line);
    assert r == ScanToken(d, s, j, line + Newlines(s, i, j));
    if r.Found? {
      var x := r.lexeme;
      var more := LexAll(d, s, x.start + x.len, x.line);
      assert LexAll(d, s, i, line) == [x] + more && ([x] + more)[1..] == more;
    }
  }

  lemma ScanIsNotEof(d: Dictionary, s: string, i: nat, line: nat)
    requires i <= |s| && ScanToken(d, s, i, line).Found?
    ensures ScanToken(d, s, i, line).lexeme.tok != Eof
  {
  }

  /** The branches of the scanner. */
  lemma TokenCases(d: Dictionary, s: string, i: nat, line: nat)
    requires i <= |s| && !ScanToken(d, s, i, line).Outside?
    ensures var r := ScanToken(d, s, i, line);
            if StartsNumber(s, i) then
              var (v, e) := StrToL(s, i, BaseAt(s, i));
              !IsFloat(s, i) && r == Found(Lexeme(Integer(v), i, e - i, line))
            else if StartsWord(At(s, i)) then
              var e := WordEnd(s, i);
              var k := Classify(d, s[i..e]);
              r == Found(Lexeme(if k.Some? then Keyword(k.value) else Identifier(s[i..e]), i, e - i, line))
            else
              var op := OpSep(s, i);
              r == if op.Some? then Found(Lexeme(Punct(op.value.0), i, op.value.1, line)) else AtEnd(i, line)
  {
  }

  /** The longest operator is the one scanned. */
  lemma OperatorScanned(s: string, i: nat, x: Option<Lexeme>)
    requires i <= |s|
    requires match x
             case None => IsLongest(s, i, None)
             case Some(l) => l.tok.Punct? && IsLongest(s, i, Some((l.tok.p, l.len)))
    ensures OpSep(s, i) == match x case None => None case Some(l) => Some((l.tok.p, l.len))
  {
    hide OpSep, IsLongest;
    MaximalMunch(s, i, match x case None => None case Some(l) => Some((l.tok.p, l.len)));
  }

  /** A lookup in the keyword table always returns, and its answer is the classification. */
  lemma LookupReturns(h: Hash, t: Table<Keyword>, word: string)
    requires IsKeywordTable(h, t)
    ensures var r := Retrieve(h, t.slots, word);
            r.Some? && Classify(Dictionary(h, t.slots), word) == if r.value.Live? then Some(r.value.value) else None
  {
    RoomHalts(h, t, Prefix(word));
    ProbeTerminates(h, t.slots, Prefix(word));
  }

  /** The cursor is inside the text, and nothing the model leaves out lies ahead of it. */
  ghost predicate Readable(d: Dictionary, s: Source)
    reads s
  {
    s.cursor <= |s.contents| && Supported(d, s.contents, s.cursor, s.line)
  }

  /** Distinct sources, each readable. */
  ghost predicate Stacked(d: Dictionary, ss: seq<Source>)
    reads ss
  {
    ss != [] ==> Readable(d, ss[0]) && ss[0] !in ss[1..] && Stacked(d, ss[1..])
  }

  /** The tokens each source still has. */
  ghost function Streams(d: Dictionary, ss: seq<Source>): (r: seq<seq<Lexeme>>)
    requires Stacked(d, ss)
    reads ss
    ensures |r| == |ss| && forall i :: 0 <= i < |r| ==> r[i] != []
  {
    if ss == [] then [] else [Stream(d, ss[0])] + Streams(d, ss[1..])
  }

  ghost function Stream(d: Dictionary, s: Source): (r: seq<Lexeme>)
    requires Readable(d, s)
    reads s
    ensures r != []
  {
    LexAll(d, s.contents, s.cursor, s.line)
  }

  /** Inserts every keyword of the program's table in order; the table grows on the way, whatever the
      hash. */
  method KeywordTable(hash: Hash) returns (table: HashMap<Keyword>)
    ensures fresh(table) && fresh(table.entries) && table.hash == hash
    ensures table.Valid() && table.Model() == ProgramTable(hash) && IsKeywordTable(hash, table.Model())
  {
    hide FirstKeywords, KwText, Contents, Inv, KeywordAt, Create;
    table := new HashMap<Keyword>(hash);
    for i := 0 to KEYWORD_COUNT
      invariant table.Valid() && fresh(table) && fresh(table.entries) && table.hash == hash
      invariant table.Model() == Built(hash, i)
    {
      var k := KeywordAt(i);
      BuiltStep(hash, i);
      var _ := table.Insert(KwText(k), k);
    }
    ProgramTableHolds(hash);
  }
}
