/** How tokens are written. */
module Spelling {
  import opened Tokens
  import opened HashTable
  import opened HashRuns
  import opened Lexing

  /** The canonical text of an operator. No text is read as LNOT: `!` is read as BNOT. */
  function OpText(p: Punct): string {
    match p
    case ADD => "+" case SUB => "-" case MUL => "*" case DIV => "/" case MOD => "%"
    case EQ => "==" case NE => "!=" case LT => "<" case GT => ">" case LTE => "<=" case GTE => ">="
    case LAND => "&&" case LOR => "||" case LNOT => ""
    case BNOT => "~" case BAND => "&" case BOR => "|" case BXOR => "^" case BLSHIFT => "<<" case BRSHIFT => ">>"
    case ASSIGN => "=" case ASGN_ADD => "+=" case ASGN_SUB => "-=" case ASGN_MUL => "*=" case ASGN_DIV => "/="
    case ASGN_MOD => "%=" case ASGN_BAND => "&=" case ASGN_BOR => "|=" case ASGN_BXOR => "^="
    case ASGN_BLSHIFT => "<<=" case ASGN_BRSHIFT => ">>="
    case SEMICOLON => ";" case COLON => ":" case COMMA => ","
    case LPAREN => "(" case RPAREN => ")" case LBRACKET => "[" case RBRACKET => "]"
    case LBRACE => "{" case RBRACE => "}"
    case DOT => "." case ARROW => "->" case INC => "++" case DEC => "--" case QUESTION => "?"
  }

  /** The operator table: `text` is an operator of kind `p`. */
  predicate IsOpText(text: string, p: Punct) {
    (p != LNOT && text == OpText(p)) || (p == BNOT && text == "!")
  }

  function KwText(k: Keyword): (text: string)
    ensures |text| >= 2
  {
    match k
    case SWITCH => "switch" case CASE => "case" case DEFAULT => "default" case IF => "if" case ELSE => "else"
    case FOR => "for" case WHILE => "while" case DO => "do" case CONTINUE => "continue" case GOTO => "goto"
    case BREAK => "break" case RETURN => "return"
    case TYPEDEF => "typedef" case EXTERN => "extern" case STATIC => "static" case AUTO => "auto"
    case REGISTER => "register"
    case VOID => "void" case CHAR => "char" case SHORT => "short" case INT => "int" case LONG => "long"
    case FLOAT => "float" case DOUBLE => "double" case SIGNED => "signed" case UNSIGNED => "unsigned"
    case BOOL => "_Bool" case COMPLEX => "_Complex" case IMAGINARY => "_Imaginary"
    case CONST => "const" case RESTRICT => "restrict" case VOLATILE => "volatile"
    case STRUCT => "struct" case UNION => "union" case ENUM => "enum" case INLINE => "inline"
  }

  /** The text at position `i` starts with `text`. */
  predicate HasAt(s: string, i: nat, text: string) {
    i + |text| <= |s| && s[i..i + |text|] == text
  }

  /** `r` is the longest entry of the operator table that the text matches at position `i`. */
  ghost predicate IsLongest(s: string, i: nat, r: Option<(Punct, nat)>) {
    match r
    case None => forall text, p :: IsOpText(text, p) ==> !HasAt(s, i, text)
    case Some((p, n)) =>
      && i + n <= |s| && IsOpText(s[i..i + n], p)
      && forall text, q :: IsOpText(text, q) && HasAt(s, i, text) ==> |text| <= n
  }

  /** Maximal munch, section 6.4 paragraph 4 of ISO/IEC 9899:1999: the operator read at a position is
      the longest one of the operator table that the text matches there, and none only if none does. */
  lemma MaximalMunch(s: string, i: nat, r: Option<(Punct, nat)>)
    requires i <= |s|
    ensures r == OpSep(s, i) <==> IsLongest(s, i, r)
  {
    hide OpSep, IsOpText, HasAt;
    OpSepIsLongest(s, i);
    if IsLongest(s, i, r) { LongestIsUnique(s, i, r, OpSep(s, i)); }
  }

  lemma OpSepIsLongest(s: string, i: nat)
    requires i <= |s|
    ensures IsLongest(s, i, OpSep(s, i))
  {
    hide OpOf, IsOpText;
    var r := OpSep(s, i);
    if r.Some? { OpSepInTable(s, i); }
    forall text, p | IsOpText(text, p) && HasAt(s, i, text)
      ensures r.Some? && |text| <= r.value.1
    {
      OpSepLongest(s, i, text, p);
    }
  }

  lemma LongestIsUnique(s: string, i: nat, r: Option<(Punct, nat)>, r': Option<(Punct, nat)>)
    requires i <= |s| && IsLongest(s, i, r) && IsLongest(s, i, r')
    ensures r == r'
  {
    hide IsOpText;
    if r.Some? {
      var (p, n) := r.value;
      assert |s[i..i + n]| == n && HasAt(s, i, s[i..i + n]);
      var (p', n') := r'.value;
      assert |s[i..i + n']| == n' && HasAt(s, i, s[i..i + n']);
      OpTextInjective(s[i..i + n], p, p');
    }
  }

  // ---------- operators character by character ----------

  datatype Chars = Chars(c: char, d: char, e: char)

  datatype Chars4 = Chars4(c: char, d: char, e: char, f: char)

  /** The characters of an operator, and null characters past its end. */
  function OpChars(p: Punct): Chars {
    match p
    case ADD => Chars('+', '\0', '\0') case SUB => Chars('-', '\0', '\0') case MUL => Chars('*', '\0', '\0')
    case DIV => Chars('/', '\0', '\0') case MOD => Chars('%', '\0', '\0') case EQ => Chars('=', '=', '\0')
    case NE => Chars('!', '=', '\0') case LT => Chars('<', '\0', '\0') case GT => Chars('>', '\0', '\0')
    case LTE => Chars('<', '=', '\0') case GTE => Chars('>', '=', '\0') case LAND => Chars('&', '&', '\0')
    case LOR => Chars('|', '|', '\0') case LNOT => Chars('\0', '\0', '\0') case BNOT => Chars('~', '\0', '\0')
    case BAND => Chars('&', '\0', '\0') case BOR => Chars('|', '\0', '\0') case BXOR => Chars('^', '\0', '\0')
    case BLSHIFT => Chars('<', '<', '\0') case BRSHIFT => Chars('>', '>', '\0')
    case ASSIGN => Chars('=', '\0', '\0') case ASGN_ADD => Chars('+', '=', '\0')
    case ASGN_SUB => Chars('-', '=', '\0') case ASGN_MUL => Chars('*', '=', '\0')
    case ASGN_DIV => Chars('/', '=', '\0') case ASGN_MOD => Chars('%', '=', '\0')
    case ASGN_BAND => Chars('&', '=', '\0') case ASGN_BOR => Chars('|', '=', '\0')
    case ASGN_BXOR => Chars('^', '=', '\0') case ASGN_BLSHIFT => Chars('<', '<', '=')
    case ASGN_BRSHIFT => Chars('>', '>', '=') case SEMICOLON => Chars(';', '\0', '\0')
    case COLON => Chars(':', '\0', '\0') case COMMA => Chars(',', '\0', '\0') case LPAREN => Chars('(', '\0', '\0')
    case RPAREN => Chars(')', '\0', '\0') case LBRACKET => Chars('[', '\0', '\0')
    case RBRACKET => Chars(']', '\0', '\0') case LBRACE => Chars('{', '\0', '\0')
    case RBRACE => Chars('}', '\0', '\0') case DOT => Chars('.', '\0', '\0') case ARROW => Chars('-', '>', '\0')
    case INC => Chars('+', '+', '\0') case DEC => Chars('-', '-', '\0') case QUESTION => Chars('?', '\0', '\0')
  }

  /** The operator table once more. */
  predicate IsOpChars(t: Chars, p: Punct) {
    (p != LNOT && t == OpChars(p)) || (p == BNOT && t == Chars('!', '\0', '\0'))
  }

  function CharCount(t: Chars): nat {
    if t.d == '\0' then 1 else if t.e == '\0' then 2 else 3
  }

  function CharsOf(text: string): Chars {
    Chars(At(text, 0), At(text, 1), At(text, 2))
  }

  lemma OpTextChars(p: Punct)
    ensures CharsOf(OpText(p)) == OpChars(p)
    ensures p != LNOT ==> |OpText(p)| == CharCount(OpChars(p))
  {
  }

  lemma IsOpTextChars(text: string, p: Punct)
    ensures IsOpText(text, p) <==> |text| == CharCount(CharsOf(text)) && IsOpChars(CharsOf(text), p)
  {
    hide OpText, OpChars;
    OpTextChars(p);
    var t := CharsOf(text);
    if |text| == CharCount(t) && t == OpChars(p) && p != LNOT {
      assert forall k :: 0 <= k < |text| ==> text[k] == OpText(p)[k];
    }
    if |text| == CharCount(t) && t == Chars('!', '\0', '\0') { assert text == "!"; }
  }

  /** The operator that `OpOf` answers is in the table. */
  lemma OpOfInTable(c: char, d: char, e: char)
    requires OpOf(c, d, e).Some?
    ensures var (p, n) := OpOf(c, d, e).value;
            var t := Chars(c, if n >= 2 then d else '\0', if n == 3 then e else '\0');
            IsOpChars(t, p) && CharCount(t) == n
  {
    hide OpOf, IsOpChars;
    if OpOf(c, d, e).value.1 == 3 { ThreeInTable(c, d, e); }
    else if OpOf(c, d, e).value.1 == 2 { TwoInTable(c, d, e); }
    else if c < ';' { LowInTable(c, d, e); }
    else { HighInTable(c, d, e); }
  }

  lemma LowInTable(c: char, d: char, e: char)
    requires c < ';' && OpOf(c, d, e).Some? && OpOf(c, d, e).value.1 == 1
    ensures IsOpChars(Chars(c, '\0', '\0'), OpOf(c, d, e).value.0)
  {
  }

  lemma HighInTable(c: char, d: char, e: char)
    requires c >= ';' && OpOf(c, d, e).Some? && OpOf(c, d, e).value.1 == 1
    ensures IsOpChars(Chars(c, '\0', '\0'), OpOf(c, d, e).value.0)
  {
  }

  lemma TwoInTable(c: char, d: char, e: char)
    requires OpOf(c, d, e).Some? && OpOf(c, d, e).value.1 == 2
    ensures IsOpChars(Chars(c, d, '\0'), OpOf(c, d, e).value.0)
  {
  }

  lemma ThreeInTable(c: char, d: char, e: char)
    requires OpOf(c, d, e).Some? && OpOf(c, d, e).value.1 == 3
    ensures IsOpChars(Chars(c, d, e), OpOf(c, d, e).value.0)
  {
  }

  lemma OpSepInTable(s: string, i: nat)
    requires i <= |s| && OpSep(s, i).Some?
    ensures var (p, n) := OpSep(s, i).value; IsOpText(s[i..i + n], p)
  {
    hide OpOf, IsOpChars, IsOpText;
    var (p, n) := OpSep(s, i).value;
    OpOfInTable(At(s, i), At(s, i + 1), At(s, i + 2));
    IsOpTextChars(s[i..i + n], p);
  }

  /** An entry of the table that the characters start with is no longer than the one answered. */
  lemma OpOfLongest(c: char, d: char, e: char, t: Chars, p: Punct)
    requires IsOpChars(t, p) && c == t.c && (t.d != '\0' ==> d == t.d) && (t.e != '\0' ==> e == t.e)
    ensures OpOf(c, d, e).Some? && CharCount(t) <= OpOf(c, d, e).value.1
  {
  }

  lemma OpSepLongest(s: string, i: nat, text: string, p: Punct)
    requires IsOpText(text, p) && HasAt(s, i, text)
    ensures OpSep(s, i).Some? && |text| <= OpSep(s, i).value.1
  {
    hide OpOf, IsOpChars, IsOpText;
    IsOpTextChars(text, p);
    assert forall k :: 0 <= k < |text| ==> At(s, i + k) == text[k] by { assert text == s[i..i + |text|]; }
    OpOfLongest(At(s, i), At(s, i + 1), At(s, i + 2), CharsOf(text), p);
  }

  predicate Ends(c: char) {
    c == '\0' || IsBlank(c)
  }

  /** An entry of the table with a blank or the end of the text behind it is the one answered. */
  lemma OpOfExact(c: char, d: char, e: char, t: Chars, p: Punct)
    requires IsOpChars(t, p) && c == t.c
    requires if t.d == '\0' then Ends(d) else d == t.d && if t.e == '\0' then Ends(e) else e == t.e
    ensures OpOf(c, d, e) == Some((p, CharCount(t)))
  {
    hide OpOf, IsOpChars, IsBlank;
    if t.d != '\0' { MoreExact(c, d, e, t, p); return; }
    NoGap(t, p);
    if c < ';' { LowExact(c, d, e, p); }
    else { HighExact(c, d, e, p); }
  }

  lemma NoGap(t: Chars, p: Punct)
    requires IsOpChars(t, p) && t.d == '\0'
    ensures t.e == '\0'
  {
  }

  lemma LowExact(c: char, d: char, e: char, p: Punct)
    requires c < ';' && IsOpChars(Chars(c, '\0', '\0'), p) && Ends(d)
    ensures OpOf(c, d, e) == Some((p, 1))
  {
  }

  lemma HighExact(c: char, d: char, e: char, p: Punct)
    requires c >= ';' && IsOpChars(Chars(c, '\0', '\0'), p) && Ends(d)
    ensures OpOf(c, d, e) == Some((p, 1))
  {
  }

  lemma MoreExact(c: char, d: char, e: char, t: Chars, p: Punct)
    requires IsOpChars(t, p) && c == t.c && d == t.d != '\0'
    requires if t.e == '\0' then Ends(e) else e == t.e
    ensures OpOf(c, d, e) == Some((p, CharCount(t)))
  {
  }

  /** No operator starts as anything else does. */
  lemma OpStart(t: Chars, p: Punct)
    requires IsOpChars(t, p)
    ensures !IsDigit(t.c) && !StartsWord(t.c) && t.c != '#' && !IsBlank(t.c) && !IsDigit(t.d)
    ensures t.c == '.' ==> t.d == '\0'
  {
  }

  lemma OpTextInjective(text: string, p: Punct, q: Punct)
    requires IsOpText(text, p) && IsOpText(text, q)
    ensures p == q
  {
    hide IsOpText, IsOpChars, OpOf;
    IsOpTextChars(text, p);
    IsOpTextChars(text, q);
    var t := CharsOf(text);
    OpOfExact(t.c, t.d, t.e, t, p);
    OpOfExact(t.c, t.d, t.e, t, q);
  }

  lemma OpTextLength(text: string, p: Punct)
    requires IsOpText(text, p)
    ensures 1 <= |text| <= 3
  {
    hide IsOpText;
    IsOpTextChars(text, p);
  }

  lemma OpTextNoNewline(text: string, p: Punct)
    requires IsOpText(text, p)
    ensures forall c <- text :: !IsNewline(c)
  {
    hide IsOpText;
    IsOpTextChars(text, p);
  }

  // ---------- keywords character by character ----------

  /** The first four characters of a keyword, and null characters past its end. */
  function KwChars(k: Keyword): Chars4 {
    match k
    case SWITCH => Chars4('s', 'w', 'i', 't') case CASE => Chars4('c', 'a', 's', 'e')
    case DEFAULT => Chars4('d', 'e', 'f', 'a') case IF => Chars4('i', 'f', '\0', '\0')
    case ELSE => Chars4('e', 'l', 's', 'e') case FOR => Chars4('f', 'o', 'r', '\0')
    case WHILE => Chars4('w', 'h', 'i', 'l') case DO => Chars4('d', 'o', '\0', '\0')
    case CONTINUE => Chars4('c', 'o', 'n', 't') case GOTO => Chars4('g', 'o', 't', 'o')
    case BREAK => Chars4('b', 'r', 'e', 'a') case RETURN => Chars4('r', 'e', 't', 'u')
    case TYPEDEF => Chars4('t', 'y', 'p', 'e') case EXTERN => Chars4('e', 'x', 't', 'e')
    case STATIC => Chars4('s', 't', 'a', 't') case AUTO => Chars4('a', 'u', 't', 'o')
    case REGISTER => Chars4('r', 'e', 'g', 'i') case VOID => Chars4('v', 'o', 'i', 'd')
    case CHAR => Chars4('c', 'h', 'a', 'r') case SHORT => Chars4('s', 'h', 'o', 'r')
    case INT => Chars4('i', 'n', 't', '\0') case LONG => Chars4('l', 'o', 'n', 'g')
    case FLOAT => Chars4('f', 'l', 'o', 'a') case DOUBLE => Chars4('d', 'o', 'u', 'b')
    case SIGNED => Chars4('s', 'i', 'g', 'n') case UNSIGNED => Chars4('u', 'n', 's', 'i')
    case BOOL => Chars4('_', 'B', 'o', 'o') case COMPLEX => Chars4('_', 'C', 'o', 'm')
    case IMAGINARY => Chars4('_', 'I', 'm', 'a') case CONST => Chars4('c', 'o', 'n', 's')
    case RESTRICT => Chars4('r', 'e', 's', 't') case VOLATILE => Chars4('v', 'o', 'l', 'a')
    case STRUCT => Chars4('s', 't', 'r', 'u') case UNION => Chars4('u', 'n', 'i', 'o')
    case ENUM => Chars4('e', 'n', 'u', 'm') case INLINE => Chars4('i', 'n', 'l', 'i')
  }

  lemma KwTextChars(k: Keyword)
    ensures var t := KwText(k); KwChars(k) == Chars4(At(t, 0), At(t, 1), At(t, 2), At(t, 3))
  {
  }

  /** No keyword but `do` is the start of another keyword. */
  lemma KeywordsPrefixFree(k: Keyword, k': Keyword)
    requires KwText(k) <= KwText(k')
    ensures k == k' || (k == DO && k' == DOUBLE)
  {
    hide KwText, KwChars;
    KwTextChars(k);
    KwTextChars(k');
    if KwChars(k).c < 'f' { StartsBelowF(k, k'); } else { StartsFromF(k, k'); }
  }

  /** The characters of `k` are the first ones of `k'`, as far as four characters tell. */
  predicate StartsAs(k: Keyword, k': Keyword) {
    var (t, t') := (KwChars(k), KwChars(k'));
    t.c == t'.c && t.d == t'.d && (t.e != '\0' ==> t.e == t'.e) && (t.f != '\0' ==> t.f == t'.f)
  }

  lemma StartsBelowF(k: Keyword, k': Keyword)
    requires StartsAs(k, k') && KwChars(k).c < 'f'
    ensures k == k' || (k == DO && k' == DOUBLE)
  {
  }

  lemma StartsFromF(k: Keyword, k': Keyword)
    requires StartsAs(k, k') && KwChars(k).c >= 'f'
    ensures k == k'
  {
  }
}
