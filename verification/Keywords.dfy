/** The keyword table the lexer builds when it is created, and the words it classifies rightly. */
module Keywords {
  import opened Tokens
  import opened HashTable
  import opened HashRuns
  import opened HashMaps
  import opened Lexing
  import opened Spelling
  import opened LexTheorems

  const KEYWORD_COUNT: nat := 36

  /** The keywords in the order of the program's table. */
  function KeywordAt(i: nat): Keyword
    requires i < KEYWORD_COUNT
  {
    match i
    case 0 => SWITCH case 1 => CASE case 2 => DEFAULT case 3 => IF case 4 => ELSE case 5 => FOR
    case 6 => WHILE case 7 => DO case 8 => CONTINUE case 9 => GOTO case 10 => BREAK case 11 => RETURN
    case 12 => TYPEDEF case 13 => EXTERN case 14 => STATIC case 15 => AUTO case 16 => REGISTER
    case 17 => VOID case 18 => CHAR case 19 => SHORT case 20 => INT case 21 => LONG case 22 => FLOAT
    case 23 => DOUBLE case 24 => SIGNED case 25 => UNSIGNED case 26 => BOOL case 27 => COMPLEX
    case 28 => IMAGINARY case 29 => CONST case 30 => RESTRICT case 31 => VOLATILE case 32 => STRUCT
    case 33 => UNION case 34 => ENUM case _ => INLINE
  }

  function KeywordIndex(k: Keyword): (i: nat)
    ensures i < KEYWORD_COUNT && KeywordAt(i) == k
  {
    match k
    case SWITCH => 0 case CASE => 1 case DEFAULT => 2 case IF => 3 case ELSE => 4 case FOR => 5
    case WHILE => 6 case DO => 7 case CONTINUE => 8 case GOTO => 9 case BREAK => 10 case RETURN => 11
    case TYPEDEF => 12 case EXTERN => 13 case STATIC => 14 case AUTO => 15 case REGISTER => 16
    case VOID => 17 case CHAR => 18 case SHORT => 19 case INT => 20 case LONG => 21 case FLOAT => 22
    case DOUBLE => 23 case SIGNED => 24 case UNSIGNED => 25 case BOOL => 26 case COMPLEX => 27
    case IMAGINARY => 28 case CONST => 29 case RESTRICT => 30 case VOLATILE => 31 case STRUCT => 32
    case UNION => 33 case ENUM => 34 case INLINE => 35
  }

  lemma KeywordAtInjective(i: nat)
    requires i < KEYWORD_COUNT
    ensures KeywordIndex(KeywordAt(i)) == i
  {
  }

  lemma KwTextInjective(k: Keyword, k': Keyword)
    requires KwText(k) == KwText(k')
    ensures k == k'
  {
    KeywordsPrefixFree(k, k');
    KeywordsPrefixFree(k', k);
  }

  /** The first `n` keywords by their text. */
  function FirstKeywords(n: nat): map<string, Keyword>
    requires n <= KEYWORD_COUNT
  {
    if n == 0 then map[] else FirstKeywords(n - 1)[KwText(KeywordAt(n - 1)) := KeywordAt(n - 1)]
  }

  lemma {:induction false} FirstKeywordsAre(n: nat)
    requires n <= KEYWORD_COUNT
    ensures var m := FirstKeywords(n);
            && (forall w :: w in m ==> w == KwText(m[w]) && KeywordIndex(m[w]) < n)
            && (forall k :: KeywordIndex(k) < n ==> KwText(k) in m && m[KwText(k)] == k)
            && |m| == n
  {
    hide KwText, KeywordAt, KeywordIndex;
    if n > 0 {
      FirstKeywordsAre(n - 1);
      KeywordAtInjective(n - 1);
      FreshKeyword(n - 1, FirstKeywords(n - 1));
      var (m, k) := (FirstKeywords(n), KeywordAt(n - 1));
      forall k' | KeywordIndex(k') < n
        ensures KwText(k') in m && m[KwText(k')] == k'
      {
        if KeywordIndex(k') == n - 1 { assert k' == k; }
      }
    }
  }

  lemma FreshKeyword(n: nat, m: map<string, Keyword>)
    requires n < KEYWORD_COUNT
    requires forall w :: w in m ==> w == KwText(m[w]) && KeywordIndex(m[w]) < n
    ensures KwText(KeywordAt(n)) !in m
  {
    hide KwText, KeywordAt, KeywordIndex;
    KeywordAtInjective(n);
    var w := KwText(KeywordAt(n));
    if w in m { KwTextInjective(m[w], KeywordAt(n)); }
  }

  /** Every keyword under its own text, and nothing else. */
  ghost predicate IsKeywordMap(m: map<string, Keyword>) {
    && (forall k :: KwText(k) in m && m[KwText(k)] == k)
    && (forall w :: w in m ==> w == KwText(m[w]))
  }

  lemma AllKeywords()
    ensures IsKeywordMap(FirstKeywords(KEYWORD_COUNT))
  {
    hide KwText, FirstKeywords, KeywordIndex;
    FirstKeywordsAre(KEYWORD_COUNT);
    forall k
      ensures KwText(k) in FirstKeywords(KEYWORD_COUNT) && FirstKeywords(KEYWORD_COUNT)[KwText(k)] == k
    {
      assert KeywordIndex(k) < KEYWORD_COUNT;
    }
  }

  /** The table holds exactly the keywords, and has a free slot. */
  ghost predicate IsKeywordTable(h: Hash, t: Table<Keyword>) {
    Inv(h, t) && IsKeywordMap(Contents(t.slots)) && t.inUse < |t.slots|
  }

  lemma {:induction false} LiveBound<V>(slots: seq<Slot<V>>)
    ensures |LiveBackwards(slots)| <= |slots|
  {
    if slots != [] { LiveBound(slots[..|slots| - 1]); }
  }

  lemma KeywordTableHasRoom(h: Hash, t: Table<Keyword>)
    requires Inv(h, t) && Contents(t.slots) == FirstKeywords(KEYWORD_COUNT) && t.inUse <= KEYWORD_COUNT
    ensures IsKeywordTable(h, t)
  {
    hide FirstKeywords, IsKeywordMap, Chained, LiveBackwards;
    AllKeywords();
    FirstKeywordsAre(KEYWORD_COUNT);
    EnumerationComplete(t.slots);
    LiveBound(t.slots);
  }

  // ---------- the program's table ----------

  /** The table holds the first `n` keywords. */
  ghost predicate HasFirst(h: Hash, t: Table<Keyword>, n: nat) {
    n <= KEYWORD_COUNT && Inv(h, t) && Contents(t.slots) == FirstKeywords(n) && t.inUse <= n
  }

  lemma NoKeywords(h: Hash)
    ensures HasFirst(h, Create(), 0)
  {
    FreshIsEmpty<Keyword>(h, HashTable.DEFAULT);
  }

  lemma AddKeyword(h: Hash, t: Table<Keyword>, i: nat)
    requires HasFirst(h, t, i) && i < KEYWORD_COUNT
    ensures HasFirst(h, HashTable.Insert(h, t, KwText(KeywordAt(i)), KeywordAt(i)).0, i + 1)
  {
    hide KwText, KeywordAt, KeywordIndex, Inv;
    FirstKeywordsAre(i);
    FreshKeyword(i, FirstKeywords(i));
  }

  ghost function WithNext(h: Hash, t: Table<Keyword>, i: nat): (t': Table<Keyword>)
    requires i < KEYWORD_COUNT && HasFirst(h, t, i)
    ensures HasFirst(h, t', i + 1)
  {
    hide FirstKeywords, KwText, KeywordAt;
    AddKeyword(h, t, i);
    HashTable.Insert(h, t, KwText(KeywordAt(i)), KeywordAt(i)).0
  }

  /** The table after the first `n` keywords have been inserted, in the program's order. */
  ghost function Built(h: Hash, n: nat): (t: Table<Keyword>)
    requires n <= KEYWORD_COUNT
    ensures HasFirst(h, t, n)
    decreases n, h("") // `h` keeps the solver from unfolding all the insertions of a given `n`
  {
    hide HasFirst, Create, WithNext;
    if n == 0 then
      NoKeywords(h);
      Create()
    else WithNext(h, Built(h, n - 1), n - 1)
  }

  lemma BuiltStep(h: Hash, n: nat)
    requires n < KEYWORD_COUNT
    ensures Built(h, n + 1) == HashTable.Insert(h, Built(h, n), KwText(KeywordAt(n)), KeywordAt(n)).0
  {
    hide KwText, KeywordAt, HasFirst;
  }

  /** The keyword table of every lexer with hash `h`. */
  ghost function ProgramTable(h: Hash): Table<Keyword> {
    Built(h, KEYWORD_COUNT)
  }

  lemma ProgramTableHolds(h: Hash)
    ensures Inv(h, ProgramTable(h)) && IsKeywordTable(h, ProgramTable(h))
  {
    hide Inv, IsKeywordTable, Contents, FirstKeywords;
    KeywordTableHasRoom(h, Built(h, KEYWORD_COUNT));
  }

  ghost function ProgramDict(h: Hash): Dictionary {
    Dictionary(h, ProgramTable(h).slots)
  }

  // ---------- classification ----------

  /** A word that no keyword properly extends is classified by exact comparison, under any hash. */
  lemma ClassifyExact(h: Hash, t: Table<Keyword>, word: string)
    requires IsKeywordTable(h, t) && forall k :: word <= KwText(k) ==> word == KwText(k)
    ensures var r := Classify(Dictionary(h, t.slots), word);
            && (r.Some? ==> word == KwText(r.value))
            && (r.None? ==> forall k :: word != KwText(k))
  {
    hide KwText, Chained;
    LookupExact(h, t, word);
  }

  /** Tokens whose spelling the keyword table cannot mistake: no identifier that starts a keyword,
      and not the keyword `do`, which starts `double`. */
  predicate Plain(t: Token) {
    match t
    case Punct(p) => p != LNOT
    case Keyword(k) => k != DO
    case Identifier(n) => IsIdentifier(n) && forall i :: 0 <= i < KEYWORD_COUNT ==> !(n <= KwText(KeywordAt(i)))
    case Integer(v) => 0 <= v <= LONG_MAX
    case _ => false
  }

  lemma KeywordClassified(h: Hash, t: Table<Keyword>, k: Keyword)
    requires IsKeywordTable(h, t) && k != DO
    ensures Classify(Dictionary(h, t.slots), KwText(k)) == Some(k)
  {
    hide KwText, IsKeywordTable, Classify;
    forall k' | KwText(k) <= KwText(k')
      ensures k == k'
    {
      KeywordsPrefixFree(k, k');
    }
    ClassifyExact(h, t, KwText(k));
    var r := Classify(Dictionary(h, t.slots), KwText(k));
    if r.Some? { KwTextInjective(k, r.value); }
  }

  lemma IdentifierClassified(h: Hash, t: Table<Keyword>, n: string)
    requires IsKeywordTable(h, t)
    requires forall i :: 0 <= i < KEYWORD_COUNT ==> !(n <= KwText(KeywordAt(i)))
    ensures Classify(Dictionary(h, t.slots), n) == None
  {
    hide KwText, IsKeywordTable, Classify;
    forall k
      ensures !(n <= KwText(k))
    {
      assert KeywordAt(KeywordIndex(k)) == k;
    }
    ClassifyExact(h, t, n);
  }

  lemma PlainIsWritable(h: Hash, t: Table<Keyword>, tok: Token)
    requires IsKeywordTable(h, t) && Plain(tok)
    ensures Writable(Dictionary(h, t.slots), tok)
  {
    hide KwText, IsKeywordTable, Classify;
    match tok
    case Keyword(k) => KeywordClassified(h, t, k);
    case Identifier(n) => IdentifierClassified(h, t, n);
    case _ =>
  }

  // ---------- the exact condition ----------

  /** The beginning of a keyword that has the same hash as that keyword is taken for a keyword. */
  lemma StartTaken(h: Hash, t: Table<Keyword>, k: Keyword, word: string)
    requires IsKeywordTable(h, t) && word <= KwText(k) && h(word) == h(KwText(k))
    ensures Classify(Dictionary(h, t.slots), word).Some?
  {
    hide KwText, Chained, UsedSlots;
    FoundByPrefix(h, t, KwText(k), word);
  }

  /** A hash for which `do` and `double` compete for one slot, and the other keywords for another. */
  function DoHash(word: string): nat {
    if word == KwText(DO) || word == KwText(DOUBLE) then 31 else 1
  }

  const DO_AT: nat := 7
  const DOUBLE_AT: nat := 23

  lemma KeywordHash(i: nat)
    requires i < KEYWORD_COUNT
    ensures i == DO_AT ==> KeywordAt(i) == DO
    ensures i == DOUBLE_AT ==> KeywordAt(i) == DOUBLE
    ensures DoHash(KwText(KeywordAt(i))) == if i == DO_AT || i == DOUBLE_AT then 31 else 1
    ensures i != DO_AT && i != DOUBLE_AT ==> KeywordAt(i) != DO && KeywordAt(i) != DOUBLE
  {
    hide KwText;
    KeywordAtInjective(i);
    KeywordAtInjective(DO_AT);
    KeywordAtInjective(DOUBLE_AT);
    var k := KeywordAt(i);
    if KwText(k) == KwText(DO) { KwTextInjective(k, DO); }
    if KwText(k) == KwText(DOUBLE) { KwTextInjective(k, DOUBLE); }
  }

  /** How many of the first `n` keywords are neither `do` nor `double`. */
  function Others(n: nat): nat {
    if n <= DO_AT then n else if n <= DOUBLE_AT then n - 1 else n - 2
  }

  /** The first `n` keywords as they lie in 32 slots: `do` last, `double` wrapped around to the first
      slot, the others from the second slot on. */
  ghost predicate Laid(n: nat, t: Table<Keyword>) {
    && n <= 32 && HasFirst(DoHash, t, n) && |t.slots| == 32 && t.inUse == n
    && (forall j :: 1 <= j <= Others(n) ==> t.slots[j].Live?)
    && (forall j :: Others(n) < j <= 30 ==> t.slots[j].Empty?)
    && t.slots[31] == (if n <= DO_AT then Empty else Live(KwText(DO), DO))
    && t.slots[0] == (if n <= DOUBLE_AT then Empty else Live(KwText(DOUBLE), DOUBLE))
  }

  /** The slot the next keyword goes to. */
  function Target(n: nat): nat {
    if n == DO_AT then 31 else if n == DOUBLE_AT then 0 else Others(n) + 1
  }

  lemma TargetFound(n: nat, t: Table<Keyword>)
    requires n < 32 && Laid(n, t)
    ensures Target(n) < 32 && t.slots[Target(n)].Empty?
    ensures Probe(DoHash, t.slots, Exact(KwText(KeywordAt(n)))) == Some(Target(n))
  {
    hide KwText, KeywordAt, DoHash, Inv, FirstKeywords, Contents, Halts;
    var (key, j) := (KwText(KeywordAt(n)), Target(n));
    KeywordHash(n);
    var home := Home(DoHash, key, 32);
    forall i | 0 <= i < 32 && Between(home, i, j, 32)
      ensures !Halts(t.slots[i], Exact(key))
    {
      assert t.slots[i].Live?;
      NotYetThere(n, t, i);
    }
    EmptyHalts(t.slots[j], Exact(key));
    assert FirstHalt(t.slots, Exact(key), home, j);
    ProbeTerminates(DoHash, t.slots, Exact(key));
  }

  lemma EmptyHalts(s: Slot<Keyword>, q: Query)
    requires s.Empty?
    ensures Halts(s, q)
  {
  }

  /** A probe for the next keyword passes every live slot. */
  lemma NotYetThere(n: nat, t: Table<Keyword>, i: nat)
    requires n < 32 && HasFirst(DoHash, t, n) && i < |t.slots| && t.slots[i].Live?
    ensures !Halts(t.slots[i], Exact(KwText(KeywordAt(n))))
  {
    hide KwText, KeywordAt, DoHash, Chained, UsedSlots, FirstKeywords;
    FirstKeywordsAre(n);
    FreshKeyword(n, FirstKeywords(n));
    Listed(t.slots, i);
  }

  lemma LaidStep(n: nat, t: Table<Keyword>)
    requires n < 32 && Laid(n, t)
    ensures Laid(n + 1, HashTable.Insert(DoHash, t, KwText(KeywordAt(n)), KeywordAt(n)).0)
  {
    hide KwText, KeywordAt, DoHash, Unique, Chained, UsedSlots, FirstKeywords, Probe;
    var k := KeywordAt(n);
    KeywordHash(n);
    FirstKeywordsAre(n);
    FreshKeyword(n, FirstKeywords(n));
    TargetFound(n, t);
    AddKeyword(DoHash, t, n);
    PlaceKeeps(DoHash, t, KwText(k), k);
    var t' := HashTable.Insert(DoHash, t, KwText(k), k).0;
    assert t'.slots == t.slots[Target(n) := Live(KwText(k), k)];
  }

  lemma {:induction false} BuiltLaid(n: nat)
    requires n <= 32
    ensures Laid(n, Built(DoHash, n))
  {
    hide Laid, HashTable.Insert, KwText, KeywordAt, DoHash, Inv;
    if n == 0 {
      NothingLaid();
    } else {
      BuiltLaid(n - 1);
      LaidStep(n - 1, Built(DoHash, n - 1));
      BuiltStep(DoHash, n - 1);
    }
  }

  lemma NothingLaid()
    ensures Laid(0, Built(DoHash, 0))
  {
    NoKeywords(DoHash);
  }

  /** `double` is in the slot that both it and `do` start at. */
  ghost predicate DoubleFirst(t: Table<Keyword>) {
    |t.slots| == 64 && t.slots[31] == Live(KwText(DOUBLE), DOUBLE)
  }

  /** The growth re-inserts `double` before `do`. */
  lemma GrowthPutsDoubleFirst()
    ensures DoubleFirst(Built(DoHash, 33))
  {
    hide KwText, KeywordAt, Unique, Chained, UsedSlots, Contents, Probe, HashTable.Grow, FirstKeywords, DoHash, Built;
    var t := Built(DoHash, 32);
    var k := KeywordAt(32);
    BuiltStep(DoHash, 32);
    BuiltLaid(32);
    DoubleAtHome();
    GrowKeepsFirst(DoHash, t);
    PlaceKeeps(DoHash, HashTable.Grow(DoHash, t).0, KwText(k), k);
  }

  lemma DoubleAtHome()
    ensures Home(DoHash, KwText(DOUBLE), 64) == 31 && Home(DoHash, KwText(DO), 64) == 31
  {
    hide KwText;
  }

  lemma DoubleStaysFirst(n: nat)
    requires 32 < n < KEYWORD_COUNT && DoubleFirst(Built(DoHash, n))
    ensures DoubleFirst(Built(DoHash, n + 1))
  {
    hide KwText, KeywordAt, Unique, Chained, UsedSlots, Contents, Probe, HashTable.Grow, FirstKeywords, DoHash, Built;
    BuiltStep(DoHash, n);
    PlaceKeeps(DoHash, Built(DoHash, n), KwText(KeywordAt(n)), KeywordAt(n));
  }

  /** Under that hash the program reads `do` as `double`. */
  lemma DoReadAsDouble()
    ensures Classify(ProgramDict(DoHash), KwText(DO)) == Some(DOUBLE)
  {
    hide KwText, KeywordAt, Built, Inv, DoHash, IsKeywordTable, Classify;
    GrowthPutsDoubleFirst();
    DoubleStaysFirst(33);
    DoubleStaysFirst(34);
    DoubleStaysFirst(35);
    DoubleFound(ProgramTable(DoHash).slots);
  }

  lemma DoubleFound(slots: seq<Slot<Keyword>>)
    requires |slots| == 64 && slots[31] == Live(KwText(DOUBLE), DOUBLE)
    ensures Classify(Dictionary(DoHash, slots), KwText(DO)) == Some(DOUBLE)
  {
    hide KwText, DoHash;
    DoStartsDouble();
    DoubleAtHome();
    assert Seek(slots, Prefix(KwText(DO)), 31, 64) == Some(31);
  }

  lemma DoStartsDouble()
    ensures KwText(DO) <= KwText(DOUBLE)
  {
  }

  /** The lexer reads a token back from its spelling, whatever the hash. */
  ghost predicate AlwaysWritable(tok: Token) {
    forall h: Hash :: Writable(ProgramDict(h), tok)
  }

  /** That holds of the plain tokens and of no others. */
  lemma PlainIff(tok: Token)
    ensures Plain(tok) <==> AlwaysWritable(tok)
  {
    hide KwText, Classify, Decimal, ProgramTable, KeywordAt, DoHash;
    if Plain(tok) {
      forall h: Hash
        ensures Writable(ProgramDict(h), tok)
      {
        ProgramTableHolds(h);
        PlainIsWritable(h, ProgramTable(h), tok);
      }
    } else if tok == Token.Keyword(DO) {
      DoReadAsDouble();
      assert !Writable(ProgramDict(DoHash), tok);
    } else if tok.Identifier? && exists i :: 0 <= i < KEYWORD_COUNT && tok.name <= KwText(KeywordAt(i)) {
      var i :| 0 <= i < KEYWORD_COUNT && tok.name <= KwText(KeywordAt(i));
      ProgramTableHolds(ZeroHash);
      StartTaken(ZeroHash, ProgramTable(ZeroHash), KeywordAt(i), tok.name);
      assert !Writable(ProgramDict(ZeroHash), tok);
    } else {
      assert !Writable(ProgramDict(ZeroHash), tok);
    }
  }
}
