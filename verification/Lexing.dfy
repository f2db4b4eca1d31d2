/** What the lexer makes of the characters of a source, as functions on the text. */
module Lexing {
  import opened Tokens
  import opened HashTable
  import opened HashRuns

  /** A token with the slice of the text it was read from and the line it was found on. */
  datatype Lexeme = Lexeme(tok: Token, start: nat, len: nat, line: nat)

  /** The keyword table the lexer looks words up in. */
  datatype Dictionary = Dictionary(hash: Hash, slots: seq<Slot<Keyword>>)

  const LONG_MAX: int := 0x7fff_ffff_ffff_ffff

  /** The character at position `i`; past the end the text is terminated by a null character. */
  function At(s: string, i: nat): char {
    if i < |s| then s[i] else '\0'
  }

  predicate IsNewline(c: char) {
    c == '\r' || c == '\n'
  }

  predicate IsBlank(c: char) {
    IsNewline(c) || c == '\t' || c == ' '
  }

  predicate IsDigit(c: char) {
    '0' <= c <= '9'
  }

  predicate StartsWord(c: char) {
    'a' <= c <= 'z' || 'A' <= c <= 'Z' || c == '_'
  }

  predicate InWord(c: char) {
    StartsWord(c) || IsDigit(c)
  }

  // ---------- blanks, words, numbers ----------

  function SkipBlanks(s: string, i: nat): (j: nat)
    ensures i <= j && !IsBlank(At(s, j))
    ensures i <= |s| ==> j <= |s|
    ensures forall k :: i <= k < j ==> IsBlank(At(s, k))
    decreases |s| - i
  {
    if IsBlank(At(s, i)) then SkipBlanks(s, i + 1) else i
  }

  function Newlines(s: string, i: nat, j: nat): nat
    requires i <= j
    decreases j - i
  {
    if i == j then 0 else (if IsNewline(At(s, i)) then 1 else 0) + Newlines(s, i + 1, j)
  }

  function WordEnd(s: string, i: nat): (j: nat)
    ensures i <= j && !InWord(At(s, j))
    ensures i <= |s| ==> j <= |s|
    ensures forall k :: i <= k < j ==> InWord(At(s, k))
    decreases |s| - i
  {
    if InWord(At(s, i)) then WordEnd(s, i + 1) else i
  }

  /** The value of `c` as a digit, 36 for a character that is none. */
  function DigitValue(c: char): nat {
    if IsDigit(c) then c as nat - '0' as nat
    else if 'a' <= c <= 'z' then c as nat - 'a' as nat + 10
    else if 'A' <= c <= 'Z' then c as nat - 'A' as nat + 10
    else 36
  }

  function DigitsEnd(s: string, i: nat, base: nat): (j: nat)
    requires base <= 16
    ensures i <= j && DigitValue(At(s, j)) >= base
    ensures i <= |s| ==> j <= |s|
    ensures forall k :: i <= k < j ==> DigitValue(At(s, k)) < base
    decreases |s| - i
  {
    if DigitValue(At(s, i)) < base then DigitsEnd(s, i + 1, base) else i
  }

  function Numeral(digits: string, base: nat): nat {
    if digits == "" then 0
    else Numeral(digits[..|digits| - 1], base) * base + DigitValue(digits[|digits| - 1])
  }

  predicate IsX(c: char) {
    c == 'x' || c == 'X'
  }

  function BaseAt(s: string, i: nat): (base: nat)
    ensures base == 8 || base == 10 || base == 16
  {
    if At(s, i) != '0' then 10
    else if IsX(At(s, i + 1)) then 16
    else if IsDigit(At(s, i + 1)) then 8
    else 10
  }

  /** Where the digits of `strtol` start: after a `0x` prefix that a hexadecimal digit follows. */
  function DigitsStart(s: string, i: nat, base: nat): nat {
    if base == 16 && At(s, i) == '0' && IsX(At(s, i + 1)) && DigitValue(At(s, i + 2)) < 16 then i + 2 else i
  }

  /** `strtol`: the value, clamped to the range of `long`, and the position after the last digit. */
  function StrToL(s: string, i: nat, base: nat): (r: (int, nat))
    requires base <= 16
    ensures i <= r.1 && (i <= |s| ==> r.1 <= |s|) && 0 <= r.0 <= LONG_MAX
    ensures DigitValue(At(s, i)) < base ==> r.1 > i
  {
    var b := DigitsStart(s, i, base);
    var e := DigitsEnd(s, b, base);
    var digits := if e <= |s| then s[b..e] else "";
    var v := Numeral(digits, base);
    (if v <= LONG_MAX then v else LONG_MAX, e)
  }

  // ---------- operators ----------

  /** The operator that starts with `c`, when `d` and `e` come after it, and its length. */
  function OpOf(c: char, d: char, e: char): (r: Option<(Punct, nat)>)
    ensures r.Some? ==> 1 <= r.value.1 <= 3 && c != '\0'
    ensures r.Some? ==> (r.value.1 >= 2 ==> d != '\0') && (r.value.1 == 3 ==> e != '\0')
  {
    match c
    case '+' => if d == '+' then Some((INC, 2)) else if d == '=' then Some((ASGN_ADD, 2)) else Some((ADD, 1))
    case '-' =>
      if d == '-' then Some((DEC, 2)) else if d == '=' then Some((ASGN_SUB, 2))
      else if d == '>' then Some((ARROW, 2)) else Some((SUB, 1))
    case '&' => if d == '&' then Some((LAND, 2)) else if d == '=' then Some((ASGN_BAND, 2)) else Some((BAND, 1))
    case '|' => if d == '|' then Some((LOR, 2)) else if d == '=' then Some((ASGN_BOR, 2)) else Some((BOR, 1))
    case '>' =>
      if d == '>' then if e == '=' then Some((ASGN_BRSHIFT, 3)) else Some((BRSHIFT, 2))
      else if d == '=' then Some((GTE, 2)) else Some((GT, 1))
    case '<' =>
      if d == '<' then if e == '=' then Some((ASGN_BLSHIFT, 3)) else Some((BLSHIFT, 2))
      else if d == '=' then Some((LTE, 2)) else Some((LT, 1))
    case '*' => if d == '=' then Some((ASGN_MUL, 2)) else Some((MUL, 1))
    case '/' => if d == '=' then Some((ASGN_DIV, 2)) else Some((DIV, 1))
    case '%' => if d == '=' then Some((ASGN_MOD, 2)) else Some((MOD, 1))
    case '!' => if d == '=' then Some((NE, 2)) else Some((BNOT, 1))
    case '^' => if d == '=' then Some((ASGN_BXOR, 2)) else Some((BXOR, 1))
    case '=' => if d == '=' then Some((EQ, 2)) else Some((ASSIGN, 1))
    case '~' => Some((BNOT, 1))
    case ';' => Some((SEMICOLON, 1))
    case ':' => Some((COLON, 1))
    case ',' => Some((COMMA, 1))
    case '(' => Some((LPAREN, 1))
    case ')' => Some((RPAREN, 1))
    case '[' => Some((LBRACKET, 1))
    case ']' => Some((RBRACKET, 1))
    case '{' => Some((LBRACE, 1))
    case '}' => Some((RBRACE, 1))
    case '.' => Some((DOT, 1))
    case '?' => Some((QUESTION, 1))
    case _ => None
  }

  /** The operator at position `i` and its length. */
  function OpSep(s: string, i: nat): (r: Option<(Punct, nat)>)
    ensures r.Some? ==> 1 <= r.value.1 <= 3 && (i <= |s| ==> i + r.value.1 <= |s|)
  {
    OpOf(At(s, i), At(s, i + 1), At(s, i + 2))
  }

  // ---------- tokens ----------

  /** The keyword a word is taken for, if any. */
  function Classify(d: Dictionary, word: string): Option<Keyword> {
    if d.slots == [] then None
    else
      match Retrieve(d.hash, d.slots, word)
      case Some(Live(_, k)) => Some(k)
      case _ => None
  }

  /** Outside: a preprocessor directive or a floating constant, which the model does not cover. */
  datatype Scan = Found(lexeme: Lexeme) | AtEnd(pos: nat, line: nat) | Outside

  /** The text at position `i` is read as a number. */
  predicate StartsNumber(s: string, i: nat) {
    IsDigit(At(s, i)) || (At(s, i) == '.' && IsDigit(At(s, i + 1)))
  }

  predicate IsFloat(s: string, i: nat) {
    At(s, i) == '.' ||
    var (v, e) := StrToL(s, i, BaseAt(s, i));
    v != 0 && (At(s, e) == '.' || At(s, e) == 'p' || At(s, e) == 'P')
  }

  /** The token that starts at position `i`, which is not blank. */
  function ScanToken(d: Dictionary, s: string, i: nat, line: nat): (r: Scan)
    requires i <= |s|
    ensures r.Found? ==> r.lexeme.start == i && r.lexeme.len > 0 && i + r.lexeme.len <= |s| && r.lexeme.line == line
    ensures r.AtEnd? ==> r == AtEnd(i, line)
  {
    if At(s, i) == '#' then Outside
    else if StartsNumber(s, i) then
      if IsFloat(s, i) then Outside
      else
        var (v, e) := StrToL(s, i, BaseAt(s, i));
        Found(Lexeme(Integer(v), i, e - i, line))
    else if StartsWord(At(s, i)) then
      var e := WordEnd(s, i);
      var k := Classify(d, s[i..e]);
      Found(Lexeme(if k.Some? then Keyword(k.value) else Identifier(s[i..e]), i, e - i, line))
    else
      var op := OpSep(s, i);
      if op.Some? then Found(Lexeme(Punct(op.value.0), i, op.value.1, line)) else AtEnd(i, line)
  }

  /** One call of `lexer_internal` with the cursor at position `i`. */
  function ScanFrom(d: Dictionary, s: string, i: nat, line: nat): (r: Scan)
    requires i <= |s|
    ensures r.Found? ==> i <= r.lexeme.start && r.lexeme.len > 0 && r.lexeme.start + r.lexeme.len <= |s|
    ensures r.AtEnd? ==> i <= r.pos <= |s|
  {
    var j := SkipBlanks(s, i);
    ScanToken(d, s, j, line + Newlines(s, i, j))
  }

  /** Lexing from position `i` never meets what the model does not cover. */
  predicate Supported(d: Dictionary, s: string, i: nat, line: nat)
    requires i <= |s|
    decreases |s| - i
  {
    match ScanFrom(d, s, i, line)
    case Found(x) => Supported(d, s, x.start + x.len, x.line)
    case AtEnd(_, _) => true
    case Outside => false
  }

  /** All the tokens from position `i` on, the end of file last. */
  function LexAll(d: Dictionary, s: string, i: nat, line: nat): (r: seq<Lexeme>)
    requires i <= |s|
    ensures r != []
    decreases |s| - i
  {
    match ScanFrom(d, s, i, line)
    case Found(x) => [x] + LexAll(d, s, x.start + x.len, x.line)
    case AtEnd(p, l) => [Lexeme(Eof, p, 0, l)]
    case Outside => [Lexeme(Eof, i, 0, line)]
  }

  function TokensOf(xs: seq<Lexeme>): (ts: seq<Token>)
    ensures |ts| == |xs| && forall k :: 0 <= k < |xs| ==> ts[k] == xs[k].tok
  {
    if xs == [] then [] else [xs[0].tok] + TokensOf(xs[1..])
  }
}
