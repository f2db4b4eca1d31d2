/** The tokens of a text tile it: in order, disjoint, with nothing but blanks between them. */
module LexTiling {
  import opened Tokens
  import opened HashTable
  import opened Lexing
  import opened Spelling
  import opened LexTheorems

  ghost predicate BlankBetween(s: string, i: nat, j: nat) {
    forall m :: i <= m < j ==> IsBlank(At(s, m))
  }

  /** The position after a token. */
  function End(x: Lexeme): nat {
    x.start + x.len
  }

  /** The slice of `x` is exactly what its token says, and could not have been longer. */
  ghost predicate Describes(d: Dictionary, s: string, x: Lexeme) {
    && x.len > 0 && End(x) <= |s|
    && var text := s[x.start..End(x)];
    match x.tok
    case Punct(p) => IsOpText(text, p) && forall t, q :: IsOpText(t, q) && HasAt(s, x.start, t) ==> |t| <= x.len
    case Identifier(n) => text == n && IsIdentifier(n) && !InWord(At(s, End(x))) && Classify(d, n) == None
    case Keyword(k) => IsIdentifier(text) && !InWord(At(s, End(x))) && Classify(d, text) == Some(k)
    case Integer(v) => IsDigit(text[0]) && (v, End(x)) == StrToL(s, x.start, BaseAt(s, x.start))
    case _ => false
  }

  /** No token starts at position `i`: the text ends there, or the character there belongs to none. */
  ghost predicate Stuck(s: string, i: nat) {
    var c := At(s, i);
    && !IsBlank(c) && c != '#' && !StartsNumber(s, i) && !StartsWord(c)
    && forall t, q :: IsOpText(t, q) ==> !HasAt(s, i, t)
  }

  lemma ScanDescribes(d: Dictionary, s: string, i: nat, line: nat)
    requires i <= |s| && ScanToken(d, s, i, line).Found?
    ensures Describes(d, s, ScanToken(d, s, i, line).lexeme)
  {
    hide OpSep, StrToL, BaseAt, Classify;
    var x := ScanToken(d, s, i, line).lexeme;
    if x.tok.Punct? {
      MaximalMunch(s, i, Some((x.tok.p, x.len)));
    } else if !StartsNumber(s, i) {
      var e := WordEnd(s, i);
      assert forall k :: i <= k < e ==> At(s, k) == s[k];
    }
  }

  lemma ScanStuck(d: Dictionary, s: string, i: nat, line: nat)
    requires i <= |s| && !IsBlank(At(s, i)) && ScanToken(d, s, i, line).AtEnd?
    ensures Stuck(s, i)
  {
    hide OpSep, StrToL, BaseAt, Classify;
    MaximalMunch(s, i, None);
  }

  lemma {:induction false} NewlinesSplit(s: string, i: nat, j: nat, k: nat)
    requires i <= j <= k
    ensures Newlines(s, i, k) == Newlines(s, i, j) + Newlines(s, j, k)
    decreases j - i
  {
    if i < j { NewlinesSplit(s, i + 1, j, k); }
  }

  lemma {:induction false} NoNewlines(s: string, i: nat, j: nat)
    requires i <= j && forall m :: i <= m < j ==> !IsNewline(At(s, m))
    ensures Newlines(s, i, j) == 0
    decreases j - i
  {
    if i < j { NoNewlines(s, i + 1, j); }
  }

  /** No token contains a line break. */
  lemma TokenOnOneLine(d: Dictionary, s: string, i: nat, line: nat)
    requires i <= |s| && ScanToken(d, s, i, line).Found?
    ensures Newlines(s, i, End(ScanToken(d, s, i, line).lexeme)) == 0
  {
    var x := ScanToken(d, s, i, line).lexeme;
    var text := s[i..End(x)];
    if x.tok.Punct? {
      assert IsOpText(text, x.tok.p) by { MaximalMunch(s, i, OpSep(s, i)); }
      OpTextNoNewline(text, x.tok.p);
      assert forall m :: i <= m < End(x) ==> At(s, m) == text[m - i];
    }
    NoNewlines(s, i, End(x));
  }

  /** Lexing from a position on, every token lies behind the blanks after the one before it, says
      exactly what its slice of the text says, and is on the line its line breaks put it on; the
      last token is the end of file, where no further token starts. */
  ghost predicate Tiles(d: Dictionary, s: string, i: nat, line: nat, xs: seq<Lexeme>) {
    && xs != []
    && i <= xs[0].start && BlankBetween(s, i, xs[0].start)
    && (forall k :: 0 <= k < |xs| ==> i <= xs[k].start <= |s| && xs[k].line == line + Newlines(s, i, xs[k].start))
    && (forall k :: 0 <= k < |xs| - 1 ==> Follows(d, s, xs[k], xs[k + 1]))
    && var last := xs[|xs| - 1];
    last.tok == Eof && last.len == 0 && Stuck(s, last.start)
  }

  ghost predicate Follows(d: Dictionary, s: string, x: Lexeme, y: Lexeme) {
    Describes(d, s, x) && End(x) <= y.start && BlankBetween(s, End(x), y.start)
  }

  lemma {:induction false} LexTiles(d: Dictionary, s: string, i: nat, line: nat)
    requires i <= |s| && Supported(d, s, i, line)
    ensures Tiles(d, s, i, line, LexAll(d, s, i, line))
    decreases |s| - i
  {
    hide ScanToken, Describes, Stuck;
    var xs := LexAll(d, s, i, line);
    var j := SkipBlanks(s, i);
    var l := line + Newlines(s, i, j);
    if ScanFrom(d, s, i, line).Found? {
      var x := ScanFrom(d, s, i, line).lexeme;
      ScanDescribes(d, s, j, l);
      TokenOnOneLine(d, s, j, l);
      LexTiles(d, s, End(x), l);
      var ys := LexAll(d, s, End(x), l);
      forall k | 0 <= k < |ys|
        ensures ys[k].line == line + Newlines(s, i, ys[k].start)
      {
        NewlinesSplit(s, i, j, End(x));
        NewlinesSplit(s, i, End(x), ys[k].start);
      }
      Prepend(d, s, i, line, x, ys);
    } else {
      ScanStuck(d, s, j, l);
    }
  }

  lemma Prepend(d: Dictionary, s: string, i: nat, line: nat, x: Lexeme, ys: seq<Lexeme>)
    requires i <= x.start && BlankBetween(s, i, x.start) && x.line == line + Newlines(s, i, x.start)
    requires Describes(d, s, x) && Tiles(d, s, End(x), x.line, ys)
    requires forall k :: 0 <= k < |ys| ==> ys[k].start >= i && ys[k].line == line + Newlines(s, i, ys[k].start)
    ensures Tiles(d, s, i, line, [x] + ys)
  {
    hide Describes, Stuck, Newlines, BlankBetween;
    var xs := [x] + ys;
    forall k | 0 <= k < |xs| - 1
      ensures Follows(d, s, xs[k], xs[k + 1])
    {
      if k > 0 { assert xs[k] == ys[k - 1] && xs[k + 1] == ys[k]; }
    }
    assert forall k :: 0 < k < |xs| ==> xs[k] == ys[k - 1];
    assert xs[|xs| - 1] == ys[|ys| - 1];
  }
}
