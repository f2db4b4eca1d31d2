/** Writing tokens down and lexing the text gives them back, in any layout. */
module LexTheorems {
  import opened Tokens
  import opened HashTable
  import opened HashRuns
  import opened Lexing
  import opened Spelling

  function Digit(n: nat): char
    requires n < 10
  {
    '0' + n as char
  }

  function Decimal(v: nat): (s: string)
    ensures s != "" && forall c <- s :: IsDigit(c)
  {
    if v < 10 then [Digit(v)] else Decimal(v / 10) + [Digit(v % 10)]
  }

  lemma {:induction false} DecimalValue(v: nat)
    ensures Numeral(Decimal(v), 10) == v
    ensures Decimal(v)[0] == '0' <==> v == 0
    ensures v == 0 ==> |Decimal(v)| == 1
  {
    if v >= 10 {
      DecimalValue(v / 10);
      var d := Decimal(v / 10);
      assert (d + [Digit(v % 10)])[..|d|] == d;
    } else {
      assert [Digit(v)][..0] == "";
    }
  }

  /** The canonical text of a token. */
  function Word(t: Token): string {
    match t
    case Punct(p) => OpText(p)
    case Keyword(k) => KwText(k)
    case Identifier(n) => n
    case Integer(v) => if v >= 0 then Decimal(v) else ""
    case _ => ""
  }

  predicate IsIdentifier(n: string) {
    n != "" && StartsWord(n[0]) && forall c <- n :: InWord(c)
  }

  /** The lexer can read `t` back: operators, integers of the range of `long`, and words that the
      keyword table classifies as they should be. */
  predicate Writable(d: Dictionary, t: Token) {
    match t
    case Punct(p) => p != LNOT
    case Keyword(k) => Classify(d, KwText(k)) == Some(k)
    case Identifier(n) => IsIdentifier(n) && Classify(d, n) == None
    case Integer(v) => 0 <= v <= LONG_MAX
    case _ => false
  }

  predicate Blank(gap: string) {
    forall c <- gap :: IsBlank(c)
  }

  /** The text ends at position `i`, or goes on with a blank. */
  predicate Boundary(s: string, i: nat) {
    i == |s| || (i < |s| && IsBlank(s[i]))
  }

  lemma KeywordsAreWords(k: Keyword)
    ensures IsIdentifier(KwText(k))
  {
    if IsStmtKeyword(Token.Keyword(k)) { StmtKeywordsAreWords(k); }
    else if IsDeclSpec(Token.Keyword(k)) { SpecifiersAreWords(k); }
  }

  lemma StmtKeywordsAreWords(k: Keyword)
    requires IsStmtKeyword(Token.Keyword(k))
    ensures IsIdentifier(KwText(k))
  {
  }

  lemma SpecifiersAreWords(k: Keyword)
    requires IsDeclSpec(Token.Keyword(k))
    ensures IsIdentifier(KwText(k))
  {
  }

  // ---------- one token ----------

  lemma ReadWord(s: string, i: nat, w: string)
    requires IsIdentifier(w) && HasAt(s, i, w) && Boundary(s, i + |w|)
    ensures StartsWord(At(s, i)) && WordEnd(s, i) == i + |w| && s[i..i + |w|] == w
  {
    assert forall k :: i <= k < i + |w| ==> At(s, k) == w[k - i];
    var e := WordEnd(s, i);
    assert !InWord(At(s, i + |w|));
  }

  lemma ReadNumber(s: string, i: nat, v: nat)
    requires HasAt(s, i, Decimal(v)) && Boundary(s, i + |Decimal(v)|) && v <= LONG_MAX
    ensures IsDigit(At(s, i)) && BaseAt(s, i) == 10 && StrToL(s, i, 10) == (v, i + |Decimal(v)|)
  {
    hide Numeral, Decimal;
    var w := Decimal(v);
    DecimalValue(v);
    assert forall k :: i <= k < i + |w| ==> At(s, k) == w[k - i];
    assert At(s, i) == w[0] && IsDigit(At(s, i));
    assert DigitsStart(s, i, 10) == i;
    var e := DigitsEnd(s, i, 10);
    assert DigitValue(At(s, i + |w|)) >= 10;
    assert e == i + |w|;
    if v == 0 { assert |w| == 1; }
    assert s[i..e] == w;
  }

  lemma ReadOperator(s: string, i: nat, p: Punct)
    requires p != LNOT && HasAt(s, i, OpText(p)) && Boundary(s, i + |OpText(p)|)
    ensures OpSep(s, i) == Some((p, |OpText(p)|))
    ensures !StartsNumber(s, i) && !StartsWord(At(s, i)) && At(s, i) != '#' && !IsBlank(At(s, i))
  {
    hide OpOf, OpText, IsOpChars, StartsWord, IsBlank, IsDigit;
    var w := OpText(p);
    assert IsOpText(w, p);
    IsOpTextChars(w, p);
    assert forall k :: 0 <= k < |w| ==> At(s, i + k) == w[k] by { assert w == s[i..i + |w|]; }
    OpOfExact(At(s, i), At(s, i + 1), At(s, i + 2), CharsOf(w), p);
    OpStart(CharsOf(w), p);
    BlankIsNoDigit(At(s, i + 1));
  }

  lemma BlankIsNoDigit(c: char)
    ensures Ends(c) ==> !IsDigit(c)
  {
  }

  lemma ReadToken(d: Dictionary, s: string, i: nat, line: nat, t: Token)
    requires Writable(d, t) && HasAt(s, i, Word(t)) && Boundary(s, i + |Word(t)|)
    ensures |Word(t)| > 0 && !IsBlank(At(s, i))
    ensures ScanToken(d, s, i, line) == Found(Lexeme(t, i, |Word(t)|, line))
  {
    hide OpSep, OpText, KwText, StrToL, Decimal, BaseAt, WordEnd, IsIdentifier;
    match t
    case Punct(p) => ReadOperator(s, i, p);
    case Keyword(k) => KeywordsAreWords(k); ReadWord(s, i, KwText(k));
    case Identifier(n) => ReadWord(s, i, n);
    case Integer(v) => ReadNumber(s, i, v);
  }

  // ---------- a whole text ----------

  /** A token and the blanks before it. */
  datatype Piece = Piece(gap: string, tok: Token)

  function Layout(ps: seq<Piece>, tail: string): string {
    if ps == [] then tail else ps[0].gap + Word(ps[0].tok) + Layout(ps[1..], tail)
  }

  function PieceTokens(ps: seq<Piece>): (ts: seq<Token>)
    ensures |ts| == |ps| && forall k :: 0 <= k < |ps| ==> ts[k] == ps[k].tok
  {
    if ps == [] then [] else [ps[0].tok] + PieceTokens(ps[1..])
  }

  /** Blanks around the tokens, at least one between any two of them. */
  predicate Spaced(d: Dictionary, ps: seq<Piece>, tail: string) {
    && Blank(tail)
    && (forall p <- ps :: Blank(p.gap) && Writable(d, p.tok))
    && (forall k :: 0 < k < |ps| ==> ps[k].gap != "")
  }

  lemma SkipGap(s: string, i: nat, gap: string)
    requires HasAt(s, i, gap) && Blank(gap) && !IsBlank(At(s, i + |gap|))
    ensures SkipBlanks(s, i) == i + |gap|
  {
    assert forall k :: i <= k < i + |gap| ==> At(s, k) == gap[k - i];
  }

  lemma LexTail(d: Dictionary, s: string, i: nat, line: nat, tail: string)
    requires i <= |s| && s[i..] == tail && Blank(tail)
    ensures Supported(d, s, i, line) && TokensOf(LexAll(d, s, i, line)) == [Eof]
  {
    SkipGap(s, i, tail);
    assert ScanFrom(d, s, i, line).AtEnd?;
  }

  lemma LexStep(d: Dictionary, s: string, i: nat, line: nat)
    requires i <= |s| && ScanFrom(d, s, i, line).Found?
    ensures var x := ScanFrom(d, s, i, line).lexeme;
            && TokensOf(LexAll(d, s, i, line)) == [x.tok] + TokensOf(LexAll(d, s, x.start + x.len, x.line))
            && Supported(d, s, i, line) == Supported(d, s, x.start + x.len, x.line)
  {
    hide ScanFrom;
    var x := ScanFrom(d, s, i, line).lexeme;
    LexAllStep(d, s, i, line);
    TokensOfCons(x, LexAll(d, s, x.start + x.len, x.line));
  }

  lemma LexAllStep(d: Dictionary, s: string, i: nat, line: nat)
    requires i <= |s| && ScanFrom(d, s, i, line).Found?
    ensures var x := ScanFrom(d, s, i, line).lexeme;
            LexAll(d, s, i, line) == [x] + LexAll(d, s, x.start + x.len, x.line)
  {
    hide ScanFrom, TokensOf, Supported;
  }

  lemma TokensOfCons(x: Lexeme, xs: seq<Lexeme>)
    ensures TokensOf([x] + xs) == [x.tok] + TokensOf(xs)
  {
    assert ([x] + xs)[1..] == xs;
  }

  /** A token behind some blanks. */
  lemma ReadPiece(d: Dictionary, s: string, i: nat, line: nat, gap: string, t: Token)
    requires i <= |s| && HasAt(s, i, gap) && Blank(gap) && i + |gap| <= |s|
    requires Writable(d, t) && HasAt(s, i + |gap|, Word(t)) && Boundary(s, i + |gap| + |Word(t)|)
    ensures var j := i + |gap|;
            ScanFrom(d, s, i, line) == Found(Lexeme(t, j, |Word(t)|, line + Newlines(s, i, j)))
  {
    hide ScanToken, Word, Writable, HasAt, Newlines, SkipBlanks;
    ReadToken(d, s, i + |gap|, line + Newlines(s, i, i + |gap|), t);
    SkipGap(s, i, gap);
  }

  lemma {:induction false} LexLayout(d: Dictionary, s: string, i: nat, line: nat, ps: seq<Piece>, tail: string)
    requires i <= |s| && s[i..] == Layout(ps, tail) && Spaced(d, ps, tail)
    ensures Supported(d, s, i, line)
    ensures TokensOf(LexAll(d, s, i, line)) == PieceTokens(ps) + [Eof]
    decreases ps
  {
    hide ScanFrom, Word, Writable, HasAt, Newlines, LexAll, Supported, TokensOf;
    if ps == [] {
      LexTail(d, s, i, line, tail);
    } else {
      var (gap, t) := (ps[0].gap, ps[0].tok);
      var (j, e) := (i + |gap|, i + |gap| + |Word(t)|);
      assert ps[0] in ps;
      Pieces(s, i, gap, Word(t), Layout(ps[1..], tail));
      NextBoundary(d, s, e, ps[1..], tail);
      ReadPiece(d, s, i, line, gap, t);
      LexStep(d, s, i, line);
      LexLayout(d, s, e, line + Newlines(s, i, j), ps[1..], tail);
    }
  }

  lemma Pieces(s: string, i: nat, a: string, b: string, c: string)
    requires i <= |s| && s[i..] == a + b + c
    ensures i + |a| + |b| <= |s| && HasAt(s, i, a) && HasAt(s, i + |a|, b) && s[i + |a| + |b|..] == c
  {
    assert s[i..][..|a|] == a;
    assert s[i..][|a|..|a| + |b|] == b;
    assert s[i..][|a| + |b|..] == c;
  }

  lemma NextBoundary(d: Dictionary, s: string, e: nat, ps: seq<Piece>, tail: string)
    requires e <= |s| && s[e..] == Layout(ps, tail) && Blank(tail)
    requires forall p <- ps :: Blank(p.gap) && p.gap != ""
    ensures Boundary(s, e)
  {
    if ps != [] {
      assert ps[0] in ps;
      var gap := ps[0].gap;
      assert gap[0] in gap;
      assert s[e..][0] == gap[0];
    } else if tail != "" {
      assert tail[0] in tail;
      assert s[e..][0] == tail[0];
    }
  }

  /** Lexer round trip: any tokens the lexer can read, written with any blanks between them, are
      read back in order and followed by the end of file. */
  lemma LexRoundTrip(d: Dictionary, ps: seq<Piece>, tail: string)
    requires Spaced(d, ps, tail)
    ensures var s := Layout(ps, tail);
            Supported(d, s, 0, 1) && TokensOf(LexAll(d, s, 0, 1)) == PieceTokens(ps) + [Eof]
  {
    var s := Layout(ps, tail);
    assert s[0..] == s;
    LexLayout(d, s, 0, 1, ps, tail);
  }
}
