/** The value of an integer constant, in each of its three bases. */
module NumberTheorems {
  import opened Tokens
  import opened HashTable
  import opened Lexing
  import opened Spelling

  // ---------- writing numbers ----------

  /** The digits from 0 to 9 and the letters that go on from there, in either case. */
  function DigitChar(d: nat, upper: bool): char
    requires d < 16
  {
    match d
    case 0 => '0' case 1 => '1' case 2 => '2' case 3 => '3' case 4 => '4'
    case 5 => '5' case 6 => '6' case 7 => '7' case 8 => '8' case 9 => '9'
    case 10 => if upper then 'A' else 'a'
    case 11 => if upper then 'B' else 'b'
    case 12 => if upper then 'C' else 'c'
    case 13 => if upper then 'D' else 'd'
    case 14 => if upper then 'E' else 'e'
    case _ => if upper then 'F' else 'f'
  }

  /** `text` writes `v` in base `base`, leading zeros and letters of either case allowed. */
  predicate Writes(text: string, base: nat, v: nat)
    requires 2 <= base <= 16
    decreases |text|
  {
    if text == "" then v == 0
    else
      var (front, last) := (text[..|text| - 1], text[|text| - 1]);
      && (last == DigitChar(v % base, false) || last == DigitChar(v % base, true))
      && Writes(front, base, v / base)
  }

  /** The digits of `v` without leading zeros; `upper` gives the case of each letter, last first. */
  function Digits(v: nat, base: nat, upper: nat -> bool): (text: string)
    requires 2 <= base <= 16
    ensures text != ""
    decreases v
  {
    var last := [DigitChar(v % base, upper(0))];
    if v < base then last
    else
      Shrinks(v, base);
      Digits(v / base, base, Shift(upper)) + last
  }

  function Shift(upper: nat -> bool): nat -> bool {
    (i: nat) => upper(i + 1)
  }

  lemma Shrinks(v: nat, base: nat)
    requires 2 <= base <= v
    ensures 0 < v / base < v
  {
    var q := v / base;
    assert v == q * base + v % base;
    assert q * 2 <= q * base;
  }

  lemma {:induction false} DigitsWrite(v: nat, base: nat, upper: nat -> bool)
    requires 2 <= base <= 16
    ensures Writes(Digits(v, base, upper), base, v)
    decreases v
  {
    var text := Digits(v, base, upper);
    if v < base {
      Small(v, base);
      assert text[..0] == "";
    } else {
      Shrinks(v, base);
      DigitsWrite(v / base, base, Shift(upper));
      assert text[..|text| - 1] == Digits(v / base, base, Shift(upper));
    }
  }

  lemma Small(v: nat, base: nat)
    requires v < base
    ensures v / base == 0 && v % base == v
  {
  }

  // ---------- reading them ----------

  lemma DigitCharValue(d: nat, upper: bool)
    requires d < 16
    ensures DigitValue(DigitChar(d, upper)) == d
  {
  }

  lemma {:induction false} WritesValue(text: string, base: nat, v: nat)
    requires 2 <= base <= 16 && Writes(text, base, v)
    ensures Numeral(text, base) == v && forall k :: 0 <= k < |text| ==> DigitValue(text[k]) < base
    decreases |text|
  {
    hide DigitChar, DigitValue;
    if text != "" {
      var front := text[..|text| - 1];
      WritesValue(front, base, v / base);
      DigitCharValue(v % base, false);
      DigitCharValue(v % base, true);
      assert forall k :: 0 <= k < |front| ==> front[k] == text[k];
      Divided(v, base);
    }
  }

  lemma Divided(v: nat, base: nat)
    requires base > 0
    ensures v / base * base + v % base == v
  {
  }

  lemma {:induction false} LeadingZero(text: string, base: nat, v: nat)
    requires 2 <= base <= 16 && Writes(text, base, v)
    ensures Writes("0" + text, base, v)
    decreases |text|
  {
    hide DigitChar;
    var all := "0" + text;
    if text == "" {
      ZeroChar();
      Small(0, base);
      assert all[..0] == "";
    } else {
      LeadingZero(text[..|text| - 1], base, v / base);
      assert all[..|all| - 1] == "0" + text[..|text| - 1];
    }
  }

  lemma ZeroChar()
    ensures DigitChar(0, false) == '0'
  {
  }

  predicate IsHexChar(c: char) {
    '0' <= c <= '9' || 'a' <= c <= 'f' || 'A' <= c <= 'F'
  }

  lemma HexCharValue(c: char)
    ensures DigitValue(c) < 16 <==> IsHexChar(c)
  {
  }

  /** The digits in the text, from position `b` on, up to a character that is none. */
  lemma DigitsRead(s: string, b: nat, base: nat, text: string, v: nat)
    requires 2 <= base <= 16 && Writes(text, base, v) && HasAt(s, b, text) && !IsHexChar(At(s, b + |text|))
    ensures DigitsEnd(s, b, base) == b + |text|
    ensures Numeral(s[b..b + |text|], base) == v
    ensures forall k :: 0 <= k < |text| ==> At(s, b + k) == text[k] && DigitValue(text[k]) < base
  {
    hide DigitValue, Numeral, Writes;
    WritesValue(text, base, v);
    HexCharValue(At(s, b + |text|));
    assert forall k :: 0 <= k < |text| ==> At(s, b + k) == text[k] by { assert text == s[b..b + |text|]; }
    var e := DigitsEnd(s, b, base);
    assert forall k :: b <= k < b + |text| ==> At(s, k) == At(s, b + (k - b)) && DigitValue(At(s, k)) < base;
  }

  /** How an integer constant is written: decimally, after `0` in octal, or after `0x` or `0X` in
      hexadecimal digits. */
  predicate IsForm(prefix: string, base: nat, text: string) {
    && text != ""
    && if base == 10 then prefix == "" && (text[0] != '0' || text == "0")
       else if base == 8 then prefix == "0"
       else base == 16 && (prefix == "0x" || prefix == "0X")
  }

  /** `strtol` reads all of it, and its value up to the largest `long`. */
  lemma FormRead(s: string, i: nat, prefix: string, base: nat, text: string, v: nat)
    requires IsForm(prefix, base, text) && Writes(text, base, v) && HasAt(s, i, prefix + text)
    requires var c := At(s, i + |prefix + text|); !IsHexChar(c) && c != 'x' && c != 'X'
    ensures BaseAt(s, i) == base && IsDigit(At(s, i))
    ensures StrToL(s, i, base) == (if v <= 0x7fff_ffff_ffff_ffff then v else 0x7fff_ffff_ffff_ffff, i + |prefix + text|)
  {
    hide StrToL, Numeral, DigitsEnd, Writes, DigitValue, HasAt, IsHexChar, At, DigitsStart;
    Parts(s, i, prefix, text);
    FormBase(s, i, prefix, base, text, v);
    if base == 8 {
      LeadingZero(text, 8, v);
      WholeRead(s, i, i, 8, "0" + text, v);
    } else {
      WholeRead(s, i, i + |prefix|, base, text, v);
    }
  }

  lemma FormBase(s: string, i: nat, prefix: string, base: nat, text: string, v: nat)
    requires IsForm(prefix, base, text) && Writes(text, base, v)
    requires HasAt(s, i, prefix) && HasAt(s, i + |prefix|, text)
    requires forall k :: 0 <= k < |prefix| ==> At(s, i + k) == prefix[k]
    requires var c := At(s, i + |prefix + text|); !IsHexChar(c) && c != 'x' && c != 'X'
    ensures BaseAt(s, i) == base && IsDigit(At(s, i))
    ensures DigitsStart(s, i, base) == if base == 16 then i + 2 else i
  {
    hide Numeral, DigitsEnd, Writes, DigitValue;
    DigitsRead(s, i + |prefix|, base, text, v);
    FirstDigit(text[0], base);
    assert At(s, i + |prefix| + 0) == text[0];
    if base == 16 {
      assert At(s, i + 0) == '0' && At(s, i + 1) == prefix[1];
    } else if base == 8 {
      assert At(s, i + 0) == '0';
    }
  }

  lemma WholeRead(s: string, i: nat, b: nat, base: nat, text: string, v: nat)
    requires 2 <= base <= 16 && Writes(text, base, v) && HasAt(s, b, text) && !IsHexChar(At(s, b + |text|))
    requires DigitsStart(s, i, base) == b
    ensures StrToL(s, i, base) == (if v <= 0x7fff_ffff_ffff_ffff then v else 0x7fff_ffff_ffff_ffff, b + |text|)
  {
    hide Numeral, DigitsEnd, Writes, DigitValue, IsHexChar, At, DigitsStart;
    DigitsRead(s, b, base, text, v);
  }

  lemma Parts(s: string, i: nat, prefix: string, text: string)
    requires HasAt(s, i, prefix + text)
    ensures HasAt(s, i, prefix) && HasAt(s, i + |prefix|, text)
    ensures forall k :: 0 <= k < |prefix| ==> At(s, i + k) == prefix[k]
  {
    var all := prefix + text;
    assert s[i..i + |all|][..|prefix|] == prefix;
    assert s[i..i + |all|][|prefix|..] == text;
    assert forall k :: 0 <= k < |prefix| ==> s[i..i + |all|][k] == prefix[k];
  }

  lemma FirstDigit(c: char, base: nat)
    requires base == 8 || base == 10 || base == 16
    ensures DigitValue(c) < base && base <= 10 ==> '0' <= c <= '9'
  {
  }

  /** Reading integer constants: a number of any size, in any of the three bases, in front of a character
      that does not go on with it, is read over its whole spelling, as its value up to the largest
      `long`. Only a number other than zero in front of `.`, `p` or `P` is taken for a floating constant. */
  lemma IntegerRead(d: Dictionary, s: string, i: nat, line: nat, prefix: string, base: nat, text: string, v: nat)
    requires IsForm(prefix, base, text) && Writes(text, base, v) && HasAt(s, i, prefix + text)
    requires var c := At(s, i + |prefix + text|); !IsHexChar(c) && c != 'x' && c != 'X'
    ensures var n := |prefix + text|;
            ScanToken(d, s, i, line) ==
            if v != 0 && At(s, i + n) in {'.', 'p', 'P'} then Outside
            else Found(Lexeme(Integer(if v <= 0x7fff_ffff_ffff_ffff then v else 0x7fff_ffff_ffff_ffff), i, n, line))
  {
    hide StrToL, BaseAt, Writes, IsForm, IsHexChar, OpSep, Classify, WordEnd;
    FormRead(s, i, prefix, base, text, v);
  }

  /** The round trip: `0` and the octal digits, `0x` or `0X` and the hexadecimal digits in letters of any
      case, or the decimal digits of a `long`, followed by a blank, an operator or the end of the text. */
  lemma IntegerRoundTrip(d: Dictionary, s: string, i: nat, line: nat, v: nat, base: nat, upper: nat -> bool, x: char)
    requires v <= 9223372036854775807 && (base == 8 || base == 10 || base == 16) && (x == 'x' || x == 'X')
    requires var word := (if base == 8 then "0" else if base == 16 then ['0', x] else "") + Digits(v, base, upper);
             HasAt(s, i, word) && !InWord(At(s, i + |word|)) && At(s, i + |word|) != '.'
    ensures var word := (if base == 8 then "0" else if base == 16 then ['0', x] else "") + Digits(v, base, upper);
            ScanToken(d, s, i, line) == Found(Lexeme(Integer(v), i, |word|, line))
  {
    hide StrToL, BaseAt, Writes, OpSep, Classify, WordEnd, ScanToken, HasAt, Digits;
    var text := Digits(v, base, upper);
    DigitsWrite(v, base, upper);
    DigitsLead(v, base, upper);
    var prefix := if base == 8 then "0" else if base == 16 then ['0', x] else "";
    if base == 16 { assert prefix == "0x" || prefix == "0X"; }
    IntegerRead(d, s, i, line, prefix, base, text, v);
  }

  /** No leading zero. */
  lemma {:induction false} DigitsLead(v: nat, base: nat, upper: nat -> bool)
    requires 2 <= base <= 16
    ensures var text := Digits(v, base, upper); text[0] != '0' || text == "0"
    decreases v
  {
    if v < base {
      Small(v, base);
    } else {
      Shrinks(v, base);
      DigitsLead(v / base, base, Shift(upper));
      NotZero(v / base, base, Shift(upper));
    }
  }

  lemma NotZero(v: nat, base: nat, upper: nat -> bool)
    requires 2 <= base <= 16 && v > 0
    ensures Digits(v, base, upper) != "0"
  {
    if v < base {
      Small(v, base);
      DigitCharValue(v, upper(0));
    } else {
      Shrinks(v, base);
    }
  }

  // ---------- lines and blanks ----------

  /** The line breaks of a stretch of the text: its carriage returns and line feeds. */
  ghost function Breaks(s: string, i: nat, j: nat): set<nat> {
    set k: nat | i <= k < j && k < |s| && (s[k] == '\r' || s[k] == '\n')
  }

  lemma {:induction false} NewlinesCounted(s: string, i: nat, j: nat)
    requires i <= j
    ensures Newlines(s, i, j) == |Breaks(s, i, j)|
    decreases j - i
  {
    if i < j {
      NewlinesCounted(s, i + 1, j);
      var (a, b) := (Breaks(s, i, j), Breaks(s, i + 1, j));
      if IsNewline(At(s, i)) {
        assert a == b + {i};
      } else {
        assert a == b;
      }
    } else {
      assert Breaks(s, i, j) == {};
    }
  }

  /** Blanks are skipped up to the first character that is neither a blank, a tab nor a line break. */
  lemma BlanksSkipped(s: string, i: nat, j: nat)
    requires i <= j <= |s|
    ensures SkipBlanks(s, i) == j <==>
            (forall k :: i <= k < j ==> s[k] in " \t\r\n") && (j < |s| ==> s[j] !in " \t\r\n")
  {
    forall k: nat | k < |s|
      ensures s[k] in " \t\r\n" <==> IsBlank(At(s, k))
    {
      BlankChars(s[k]);
    }
    hide IsBlank;
    var e := SkipBlanks(s, i);
    NullIsNoBlank();
  }

  lemma BlankChars(c: char)
    ensures c in " \t\r\n" <==> IsBlank(c)
  {
    var blanks := " \t\r\n";
    assert blanks[0] == ' ' && blanks[1] == '\t' && blanks[2] == '\r' && blanks[3] == '\n';
  }

  lemma NullIsNoBlank()
    ensures !IsBlank('\0')
  {
  }

  /** A word goes on over letters, digits and underscores. */
  lemma WordSpan(s: string, i: nat, j: nat)
    requires i <= j <= |s|
    ensures WordEnd(s, i) == j <==> (forall k :: i <= k < j ==> IsWordChar(s[k])) && (j < |s| ==> !IsWordChar(s[j]))
  {
    forall k: nat | k < |s|
      ensures IsWordChar(s[k]) <==> InWord(At(s, k))
    {
    }
    hide IsWordChar, InWord;
    var e := WordEnd(s, i);
    NullInNoWord();
  }

  predicate IsWordChar(c: char) {
    'a' <= c <= 'z' || 'A' <= c <= 'Z' || '0' <= c <= '9' || c == '_'
  }

  lemma NullInNoWord()
    ensures !InWord('\0')
  {
  }

  // ---------- which token starts ----------

  /** The first character decides which kind of token is read. */
  lemma FirstCharacter(d: Dictionary, s: string, i: nat, line: nat)
    requires i < |s|
    ensures var r := ScanToken(d, s, i, line);
            && (s[i] == '#' ==> r == Outside)
            && (s[i] == '.' && i + 1 < |s| && '0' <= s[i + 1] <= '9' ==> r == Outside)
            && ('0' <= s[i] <= '9' ==> r == Outside || (r.Found? && r.lexeme.tok.Integer?))
            && (IsWordStart(s[i]) ==> r.Found? && (r.lexeme.tok.Identifier? || r.lexeme.tok.Keyword?))
            && (r.Found? ==> (r.lexeme.tok.Integer? <==> '0' <= s[i] <= '9')
                             && (r.lexeme.tok.Identifier? || r.lexeme.tok.Keyword? <==> IsWordStart(s[i])))
  {
    hide StrToL, BaseAt, OpSep, Classify;
  }

  predicate IsWordStart(c: char) {
    'a' <= c <= 'z' || 'A' <= c <= 'Z' || c == '_'
  }
}
