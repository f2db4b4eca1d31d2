/** Whole runs of table operations, and what a lookup answers. */
module HashRuns {
  import opened HashTable

  datatype Op<+V> = InsertOp(key: string, value: V) | RemoveOp(key: string) | GrowOp

  /** One operation and the index, capacity or -1 it returns; `None` when it never returns. */
  ghost function Step<V>(h: Hash, t: Table<V>, op: Op<V>): (r: Option<(Table<V>, int)>)
    requires Inv(h, t)
    ensures r.Some? ==> Inv(h, r.value.0)
  {
    match op
    case InsertOp(k, v) => Some(Insert(h, t, k, v))
    case RemoveOp(k) => Remove(h, t, k)
    case GrowOp => Some(Grow(h, t))
  }

  /** A run of operations, with what each returned. */
  ghost function Run<V>(h: Hash, t: Table<V>, ops: seq<Op<V>>): (r: Option<(Table<V>, seq<int>)>)
    requires Inv(h, t)
    ensures r.Some? ==> Inv(h, r.value.0) && |r.value.1| == |ops|
    decreases ops
  {
    if ops == [] then Some((t, []))
    else
      var s := Step(h, t, ops[0]);
      if s.None? then None
      else
        var r := Run(h, s.value.0, ops[1..]);
        if r.None? then None else Some((r.value.0, [s.value.1] + r.value.1))
  }

  /** The same operations on a finite map: the first insertion of a key wins, and an insertion
      answered with -1 does nothing, and neither does growing. */
  ghost function MapStep<V>(m: map<string, V>, op: Op<V>, code: int): map<string, V> {
    match op
    case InsertOp(k, v) => if k in m || code == -1 then m else m[k := v]
    case RemoveOp(k) => m - {k}
    case GrowOp => m
  }

  ghost function MapRun<V>(m: map<string, V>, ops: seq<Op<V>>, codes: seq<int>): map<string, V>
    requires |codes| == |ops|
    decreases ops
  {
    if ops == [] then m else MapRun(MapStep(m, ops[0], codes[0]), ops[1..], codes[1..])
  }

  function Insertions<V>(ops: seq<Op<V>>): nat {
    if ops == [] then 0 else (if ops[0].InsertOp? then 1 else 0) + Insertions(ops[1..])
  }

  /** From any sound table, a run keeps the slots equal to one abstract map. */
  lemma {:induction false} RunRefinesMap<V>(h: Hash, t: Table<V>, ops: seq<Op<V>>)
    requires Inv(h, t)
    ensures var r := Run(h, t, ops);
            r.Some? ==> Contents(r.value.0.slots) == MapRun(Contents(t.slots), ops, r.value.1)
    decreases ops
  {
    if ops != [] {
      var s := Step(h, t, ops[0]);
      if s.Some? {
        assert Contents(s.value.0.slots) == MapStep(Contents(t.slots), ops[0], s.value.1);
        RunRefinesMap(h, s.value.0, ops[1..]);
      }
    }
  }

  lemma StepUses<V>(h: Hash, t: Table<V>, op: Op<V>)
    requires Inv(h, t) && Step(h, t, op).Some?
    ensures var (t', code) := Step(h, t, op).value;
            && t'.inUse <= t.inUse + (if op.InsertOp? then 1 else 0)
            && (op.InsertOp? && t.inUse < LIMIT ==> code != -1)
  {
    hide Unique, Chained, UsedSlots, Contents, Probe;
    LiveAreUsed(t.slots);
  }

  /** No insertion of `ops` was answered with -1. */
  predicate NoneRefused<V>(ops: seq<Op<V>>, codes: seq<int>) {
    |codes| == |ops| && forall i :: 0 <= i < |ops| && ops[i].InsertOp? ==> codes[i] != -1
  }

  lemma NoneRefusedStep<V>(ops: seq<Op<V>>, code: int, codes: seq<int>)
    requires ops != [] && (ops[0].InsertOp? ==> code != -1) && NoneRefused(ops[1..], codes)
    ensures NoneRefused(ops, [code] + codes)
  {
    forall i | 0 <= i < |ops| && ops[i].InsertOp?
      ensures ([code] + codes)[i] != -1
    {
      if i > 0 { assert ops[i] == ops[1..][i - 1]; }
    }
  }

  /** No insertion is refused in a run that cannot fill 8192 slots. */
  lemma {:induction false} NoRefusal<V>(h: Hash, t: Table<V>, ops: seq<Op<V>>)
    requires Inv(h, t) && t.inUse + Insertions(ops) <= 8192
    ensures var r := Run(h, t, ops); r.Some? ==> NoneRefused(ops, r.value.1)
    decreases ops
  {
    hide Step, Inv, NoneRefused;
    if ops == [] {
      NoneAtAll(ops);
    } else if Step(h, t, ops[0]).Some? {
      StepUses(h, t, ops[0]);
      var (t', code) := Step(h, t, ops[0]).value;
      NoRefusal(h, t', ops[1..]);
      var r := Run(h, t', ops[1..]);
      if r.Some? { NoneRefusedStep(ops, code, r.value.1); }
    }
  }

  lemma NoneAtAll<V>(ops: seq<Op<V>>)
    requires ops == []
    ensures NoneRefused(ops, [])
  {
  }

  /** From `hashmap_create`, over every run of insertions, removals and growths that returns: the table is
      sound and stands for the map that the run makes of the empty map; up to 8192 insertions,
      none is refused. */
  lemma CreatedRunRefinesMap<V>(h: Hash, ops: seq<Op<V>>)
    ensures Inv<V>(h, Create())
    ensures var r := Run(h, Create(), ops);
            r.Some? ==>
              && Inv(h, r.value.0)
              && Contents(r.value.0.slots) == MapRun(map[], ops, r.value.1)
              && (Insertions(ops) <= 8192 ==> NoneRefused(ops, r.value.1))
  {
    FreshIsEmpty<V>(h, DEFAULT);
    RunRefinesMap(h, Create(), ops);
    if Insertions(ops) <= LIMIT { NoRefusal(h, Create(), ops); }
  }

  // ---------- lookup ----------

  /** `hashmap_retrieve`: the slot the probe halts at, empty or live; `None` when it never halts. */
  function Retrieve<V>(h: Hash, slots: seq<Slot<V>>, key: string): (r: Option<Slot<V>>)
    requires |slots| > 0
  {
    var p := Probe(h, slots, Prefix(key));
    if p.None? then None else Some(slots[p.value])
  }

  /** No live key is longer than `key` and starts with it. */
  ghost predicate NoExtension<V>(m: map<string, V>, key: string) {
    forall k :: k in m && key <= k ==> k == key
  }

  lemma {:induction false} SeekSame<V>(slots: seq<Slot<V>>, q: Query, q': Query, i: nat, fuel: nat)
    requires i < |slots| && fuel <= |slots|
    requires forall s <- slots :: Halts(s, q) == Halts(s, q')
    ensures Seek(slots, q, i, fuel) == Seek(slots, q', i, fuel)
    decreases fuel
  {
    if fuel > 0 && !Halts(slots[i], q) {
      SeekSame(slots, q, q', Next(i, |slots|), fuel - 1);
    }
  }

  /** A lookup agrees with the abstract map whenever no other live key extends the query; on a
      table with a free slot, or for a key that is there, it returns. */
  lemma LookupExact<V>(h: Hash, t: Table<V>, key: string)
    requires Inv(h, t) && NoExtension(Contents(t.slots), key)
    ensures var m := Contents(t.slots);
            var r := Retrieve(h, t.slots, key);
            && (r.None? <==> t.inUse == |t.slots| && key !in m)
            && (r.Some? ==> r.value == if key in m then Live(key, m[key]) else Empty)
  {
    forall s | s in t.slots
      ensures Halts(s, Exact(key)) == Halts(s, Prefix(key))
    {
      if s.Live? {
        var i :| 0 <= i < |t.slots| && t.slots[i] == s;
        Listed(t.slots, i);
      }
    }
    SeekSame(t.slots, Exact(key), Prefix(key), Home(h, key, |t.slots|), |t.slots|);
    ExactProbe(h, t.slots, key);
    ProbeTerminates(h, t.slots, Exact(key));
    UsedBound(t.slots);
  }

  /** A hash under which every key starts at slot 0. */
  function ZeroHash(key: string): nat {
    0
  }

  lemma FirstInsertion<V>(key: string, v: V)
    ensures Inv<V>(ZeroHash, Create())
    ensures var (t, j) := Insert(ZeroHash, Create(), key, v);
            t.inUse == 1 && |t.slots| == DEFAULT && t.slots[0] == Live(key, v) && j == 0
  {
    var t: Table<V> := Create();
    FreshIsEmpty<V>(ZeroHash, DEFAULT);
    PlaceKeeps(ZeroHash, t, key, v);
    assert Probe(ZeroHash, t.slots, Exact(key)) == Some(0);
  }

  // ---------- exactly when lookups are right ----------

  /** Whenever a lookup of `key` returns, it answers as the map `m` does. */
  ghost predicate RightAnswer<V>(h: Hash, slots: seq<Slot<V>>, m: map<string, V>, key: string)
    requires |slots| > 0
  {
    var r := Retrieve(h, slots, key);
    r.Some? ==> r.value == if key in m then Live(key, m[key]) else Empty
  }

  /** Under every hash, and after every run that leaves the contents `m`, lookups of `key` are right. */
  ghost predicate AlwaysRight<V(!new)>(m: map<string, V>, key: string) {
    FreshIsEmpty<V>(ZeroHash, HashTable.DEFAULT);
    forall h: Hash, ops: seq<Op<V>> ::
      RunLeaves(h, ops, m) ==> RightAnswer(h, Result(h, ops).slots, m, key)
  }

  ghost predicate RunLeaves<V>(h: Hash, ops: seq<Op<V>>, m: map<string, V>) {
    CreatedRunRefinesMap<V>(h, ops);
    var r := Run(h, Create(), ops);
    r.Some? && Contents(r.value.0.slots) == m
  }

  /** The table a run ends with; the empty one if it never ends. */
  ghost function Result<V>(h: Hash, ops: seq<Op<V>>): (t: Table<V>)
    ensures Inv(h, t)
  {
    CreatedRunRefinesMap<V>(h, ops);
    var r := Run(h, Create(), ops);
    if r.Some? then r.value.0 else Create()
  }

  /** Lookups of `key` are right under every hash and after every run leaving the contents `m`, if and
      only if no key of `m` properly extends `key`. */
  lemma LookupsRightIff<V(!new)>(m: map<string, V>, key: string)
    requires |m| <= LIMIT
    ensures AlwaysRight(m, key) <==> NoExtension(m, key)
  {
    hide RunLeaves, RightAnswer, Result;
    if NoExtension(m, key) {
      forall h: Hash, ops: seq<Op<V>> | RunLeaves(h, ops, m)
        ensures RightAnswer(h, Result(h, ops).slots, m, key)
      {
        RightIfNoExtension(h, ops, m, key);
      }
    } else {
      var longer :| longer in m && key <= longer && longer != key;
      var ops := BuildRun(m, longer);
      WrongIfFirst(Result(ZeroHash, ops).slots, m, key, longer);
    }
  }

  lemma RightIfNoExtension<V>(h: Hash, ops: seq<Op<V>>, m: map<string, V>, key: string)
    requires NoExtension(m, key) && RunLeaves(h, ops, m)
    ensures RightAnswer(h, Result(h, ops).slots, m, key)
  {
    CreatedRunRefinesMap<V>(h, ops);
    hide Run, Inv, Retrieve;
    LookupExact(h, Result(h, ops), key);
  }

  lemma WrongIfFirst<V>(slots: seq<Slot<V>>, m: map<string, V>, key: string, longer: string)
    requires longer in m && key < longer && slots != [] && slots[0] == Live(longer, m[longer])
    ensures !RightAnswer(ZeroHash, slots, m, key)
  {
    assert Seek(slots, Prefix(key), 0, |slots|) == Some(0);
  }

  /** Under the zero hash the key inserted first stays in slot 0, through every growth. */
  lemma {:induction false} BuildRun<V>(m: map<string, V>, first: string) returns (ops: seq<Op<V>>)
    requires first in m && |m| <= LIMIT
    ensures RunLeaves(ZeroHash, ops, m)
    ensures Result(ZeroHash, ops).slots[0] == Live(first, m[first]) && Result(ZeroHash, ops).inUse <= |m|
    decreases |m|
  {
    hide RunLeaves, Result, Inv;
    if |m| == 1 {
      OnlyKey(m, first);
      ops := [InsertOp(first, m[first])];
      RunOfOne(first, m[first]);
    } else {
      var k := OtherKey(m, first);
      var ops' := BuildRun(m - {k}, first);
      ops := ops' + [InsertOp(k, m[k])];
      RunOneMore(ops', m - {k}, k, m[k]);
      assert m == (m - {k})[k := m[k]];
    }
  }

  lemma RunOfOne<V>(key: string, v: V)
    ensures var ops := [InsertOp(key, v)];
            && RunLeaves(ZeroHash, ops, map[key := v])
            && Result(ZeroHash, ops).slots[0] == Live(key, v) && Result(ZeroHash, ops).inUse <= 1
  {
    var t: Table<V> := Create();
    var ops: seq<Op<V>> := [InsertOp(key, v)];
    FreshIsEmpty<V>(ZeroHash, HashTable.DEFAULT);
    FirstInsertion(key, v);
    assert ops[1..] == [];
    var t' := Insert(ZeroHash, t, key, v).0;
    assert Step(ZeroHash, t, ops[0]).value.0 == t' && Run(ZeroHash, t', ops[1..]) == Some((t', []));
    assert Run(ZeroHash, t, ops).value.0 == t';
  }

  lemma RunOneMore<V>(ops: seq<Op<V>>, m: map<string, V>, k: string, v: V)
    requires RunLeaves(ZeroHash, ops, m) && k !in m
    requires var t := Result(ZeroHash, ops); t.slots[0].Live? && k != t.slots[0].key && t.inUse < LIMIT
    ensures var (t, t') := (Result(ZeroHash, ops), Result(ZeroHash, ops + [InsertOp(k, v)]));
            && RunLeaves(ZeroHash, ops + [InsertOp(k, v)], m[k := v])
            && t'.slots[0] == t.slots[0] && t'.inUse <= t.inUse + 1
  {
    var t := Result(ZeroHash, ops);
    FreshIsEmpty<V>(ZeroHash, HashTable.DEFAULT);
    RunAppend(ZeroHash, Create(), ops, InsertOp(k, v));
    InsertKeepsFirst(t, k, v);
    hide Run, Inv;
    assert Result(ZeroHash, ops + [InsertOp(k, v)]) == Insert(ZeroHash, t, k, v).0;
  }

  lemma OnlyKey<V>(m: map<string, V>, key: string)
    requires key in m && |m| == 1
    ensures m == map[key := m[key]]
  {
    assert |m.Keys - {key}| == 0;
    assert m.Keys == {key};
  }

  lemma OtherKey<V>(m: map<string, V>, key: string) returns (k: string)
    requires key in m && |m| > 1
    ensures k in m && k != key && |m - {k}| == |m| - 1
  {
    assert |m.Keys - {key}| > 0;
    k :| k in m.Keys - {key};
    assert (m - {k}).Keys == m.Keys - {k};
  }

  lemma {:induction false} RunAppend<V>(h: Hash, t: Table<V>, ops: seq<Op<V>>, op: Op<V>)
    requires Inv(h, t) && Run(h, t, ops).Some?
    ensures var s := Step(h, Run(h, t, ops).value.0, op);
            var r := Run(h, t, ops + [op]);
            if s.None? then r.None? else r.Some? && r.value.0 == s.value.0
    decreases ops
  {
    if ops == [] {
      assert [op][1..] == [] && [] + [op] == [op];
    } else {
      assert (ops + [op])[1..] == ops[1..] + [op];
      RunAppend(h, Step(h, t, ops[0]).value.0, ops[1..], op);
    }
  }

  lemma InsertKeepsFirst<V>(t: Table<V>, k: string, v: V)
    requires Inv(ZeroHash, t) && t.slots[0].Live? && k != t.slots[0].key && t.inUse < LIMIT
    ensures Insert(ZeroHash, t, k, v).0.slots[0] == t.slots[0]
  {
    hide Probe, Grow;
    UsedBound(t.slots);
    if t.inUse < |t.slots| {
      PlaceKeeps(ZeroHash, t, k, v);
    } else {
      GrowKeepsFirst(ZeroHash, t);
      PlaceKeeps(ZeroHash, Grow(ZeroHash, t).0, k, v);
    }
  }

  /** The key in the first slot is the first to be re-inserted by a growth, and gets its home slot. */
  lemma GrowKeepsFirst<V>(h: Hash, t: Table<V>)
    requires Inv(h, t) && t.slots[0].Live? && 2 * |t.slots| <= LIMIT
    ensures Grow(h, t).0.slots[Home(h, t.slots[0].key, 2 * |t.slots|)] == t.slots[0]
  {
    hide Rehash, Rehashed, Home;
    var (src, n) := (t.slots, 2 * |t.slots|);
    var p := Home(h, src[0].key, n);
    RehashBegins(h, src, n);
    RehashUnfolds(h, src, 0, Fresh(n));
    var t1 := Place(h, Fresh(n), src[0].key, src[0].value).0;
    PlaceInFresh(h, n, src[0].key, src[0].value);
    RehashKeepsLive(h, src, 1, t1, p);
    assert src[..0] == [];
  }

  lemma RehashBegins<V>(h: Hash, src: seq<Slot<V>>, n: nat)
    requires Unique(src) && n > |src|
    ensures Rehashed(h, src, 0, Fresh(n))
  {
    FreshIsEmpty<V>(h, n);
    assert src[..0] == [];
  }

  lemma PlaceInFresh<V>(h: Hash, n: nat, key: string, value: V)
    requires n > 0
    ensures Probe<V>(h, Fresh(n).slots, Exact(key)).Some?
    ensures Place(h, Fresh(n), key, value).0.slots[Home(h, key, n)] == Live(key, value)
  {
  }

  lemma RehashUnfolds<V>(h: Hash, src: seq<Slot<V>>, i: nat, t: Table<V>)
    requires i < |src| && Unique(src) && Rehashed(h, src, i, t)
    ensures src[i].Live? ==> Probe(h, t.slots, Exact(src[i].key)).Some?
    ensures var t' := if src[i].Live? then Place(h, t, src[i].key, src[i].value).0 else t;
            Rehashed(h, src, i + 1, t') && Rehash(h, src, i, t) == Rehash(h, src, i + 1, t')
  {
    hide Rehashed, Unique, Place, Probe;
    RehashStep(h, src, i, t);
  }

  /** What a rehash has put into a slot stays there. */
  lemma {:induction false} RehashKeepsLive<V>(h: Hash, src: seq<Slot<V>>, i: nat, t: Table<V>, p: nat)
    requires i <= |src| && Unique(src) && Rehashed(h, src, i, t) && p < |t.slots| && t.slots[p].Live?
    ensures |Rehash(h, src, i, t).slots| == |t.slots| && Rehash(h, src, i, t).slots[p] == t.slots[p]
    decreases |src| - i
  {
    hide Rehashed, Unique, Place, Probe;
    if i < |src| {
      RehashUnfolds(h, src, i, t);
      LiveStays(h, src, i, t, p);
      RehashKeepsLive(h, src, i + 1, if src[i].Live? then Place(h, t, src[i].key, src[i].value).0 else t, p);
    }
  }

  lemma LiveStays<V>(h: Hash, src: seq<Slot<V>>, i: nat, t: Table<V>, p: nat)
    requires i < |src| && Unique(src) && Rehashed(h, src, i, t) && p < |t.slots| && t.slots[p].Live?
    requires src[i].Live? ==> Probe(h, t.slots, Exact(src[i].key)).Some?
    ensures var t' := if src[i].Live? then Place(h, t, src[i].key, src[i].value).0 else t;
            |t'.slots| == |t.slots| && t'.slots[p] == t.slots[p]
  {
    hide Unique, Chained, UsedSlots, Contents, Probe;
    if src[i].Live? { PlaceKeeps(h, t, src[i].key, src[i].value); }
  }

  /** The key of slot `j` of the old table is in `slots`, and every slot between its home and its own holds
      what an earlier slot of the old table held. */
  ghost predicate InFirstFree<V>(h: Hash, src: seq<Slot<V>>, j: nat, slots: seq<Slot<V>>)
    requires j < |src| && |slots| > 0
  {
    src[j].Live? && exists p: nat | p < |slots| :: slots[p] == src[j] && BehindEarlier(h, src, j, slots, p)
  }

  ghost predicate BehindEarlier<V>(h: Hash, src: seq<Slot<V>>, j: nat, slots: seq<Slot<V>>, p: nat)
    requires j < |src| && src[j].Live? && p < |slots|
  {
    forall k: nat :: k < |slots| && Between(Home(h, src[j].key, |slots|), k, p, |slots|) ==>
      slots[k].Live? && slots[k] in src[..j]
  }

  /** A growth re-inserts the keys in the order of their slots: each goes into the first slot from its new
      home that no key of an earlier slot has taken. */
  lemma GrowInOrder<V>(h: Hash, t: Table<V>, j: nat)
    requires Inv(h, t) && j < |t.slots| && t.slots[j].Live? && 2 * |t.slots| <= LIMIT
    ensures InFirstFree(h, t.slots, j, Grow(h, t).0.slots)
  {
    hide Rehash, Rehashed, Home, InFirstFree;
    RehashBegins(h, t.slots, 2 * |t.slots|);
    RehashInOrder(h, t.slots, 0, Fresh(2 * |t.slots|), j);
    assert t.slots[..0] == [];
  }

  lemma {:induction false} RehashInOrder<V>(h: Hash, src: seq<Slot<V>>, i: nat, t: Table<V>, j: nat)
    requires i <= j < |src| && src[j].Live? && Unique(src) && Rehashed(h, src, i, t)
    ensures |Rehash(h, src, i, t).slots| > 0 && InFirstFree(h, src, j, Rehash(h, src, i, t).slots)
    decreases j - i
  {
    hide Unique, Place, Probe, Contents, Sound, InFirstFree, BehindEarlier;
    RehashUnfolds(h, src, i, t);
    var t' := if src[i].Live? then Place(h, t, src[i].key, src[i].value).0 else t;
    if i < j {
      RehashInOrder(h, src, i + 1, t', j);
    } else {
      var p := PlacedBehindEarlier(h, src, j, t);
      RehashKeepsBehind(h, src, j, t', p);
    }
  }

  lemma PlacedBehindEarlier<V>(h: Hash, src: seq<Slot<V>>, j: nat, t: Table<V>) returns (p: nat)
    requires j < |src| && src[j].Live? && Unique(src) && Rehashed(h, src, j, t)
    ensures Probe(h, t.slots, Exact(src[j].key)).Some?
    ensures var t' := Place(h, t, src[j].key, src[j].value).0;
            p < |t'.slots| && t'.slots[p] == src[j] && BehindEarlier(h, src, j, t'.slots, p)
  {
    hide Contents, Chained, UsedSlots, Home;
    var (key, q) := (src[j].key, Exact(src[j].key));
    PrefixContents(src, j);
    PlaceKeeps(h, t, key, src[j].value);
    ProbeTerminates(h, t.slots, q);
    p := Probe(h, t.slots, q).value;
    forall k: nat | k < |t.slots| && Between(Home(h, key, |t.slots|), k, p, |t.slots|)
      ensures t.slots[k].Live? && t.slots[k] in src[..j] && k != p
    {
      assert !Halts(t.slots[k], q);
      Listed(t.slots, k);
      UniquePrefix(src, j);
      var i := Witness(src[..j], t.slots[k].key);
      assert src[..j][i] == t.slots[k];
    }
  }

  lemma RehashKeepsBehind<V>(h: Hash, src: seq<Slot<V>>, j: nat, t: Table<V>, p: nat)
    requires j < |src| && src[j].Live? && Unique(src) && Rehashed(h, src, j + 1, t)
    requires p < |t.slots| && t.slots[p] == src[j] && BehindEarlier(h, src, j, t.slots, p)
    ensures |Rehash(h, src, j + 1, t).slots| > 0 && InFirstFree(h, src, j, Rehash(h, src, j + 1, t).slots)
  {
    hide Rehashed, Unique, Home, Rehash;
    var t' := Rehash(h, src, j + 1, t);
    forall k: nat | k < |t.slots| && t.slots[k].Live?
      ensures |t'.slots| == |t.slots| && t'.slots[k] == t.slots[k]
    {
      RehashKeepsLive(h, src, j + 1, t, k);
    }
    assert BehindEarlier(h, src, j, t'.slots, p);
  }

  // ---------- keys with a common home ----------

  /** A lookup of the beginning of a live key that has the same hash finds a key that it begins. */
  lemma FoundByPrefix<V>(h: Hash, t: Table<V>, key: string, q: string)
    requires Inv(h, t) && key in Contents(t.slots) && q <= key && h(q) == h(key)
    ensures var r := Retrieve(h, t.slots, q); r.Some? && r.value.Live? && q <= r.value.key
  {
    hide UsedSlots, IsCapacity;
    var n := |t.slots|;
    var p := Witness(t.slots, key);
    var home := Home(h, q, n);
    ProbeTerminates(h, t.slots, Prefix(q));
    assert Halts(t.slots[p], Prefix(q));
    var j := Probe(h, t.slots, Prefix(q)).value;
    assert FirstHalt(t.slots, Prefix(q), home, j);
  }

  // ---------- stability ----------

  lemma StepStable<V>(h: Hash, t: Table<V>, op: Op<V>, i: nat)
    requires Inv(h, t) && i < |t.slots| && t.slots[i].Live? && op != RemoveOp(t.slots[i].key)
    requires Step(h, t, op).Some?
    ensures var t' := Step(h, t, op).value.0;
            |t'.slots| >= |t.slots| && (|t'.slots| == |t.slots| ==> t'.slots[i] == t.slots[i])
  {
    if op.RemoveOp? {
      ExactProbe(h, t.slots, op.key);
    } else if op.InsertOp? {
      UsedBound(t.slots);
      if t.inUse < |t.slots| { PlaceKeeps(h, t, op.key, op.value); }
    }
  }

  /** Between growths a live key stays in its slot, whatever is inserted and whatever else is removed. */
  lemma {:induction false} SlotsStable<V>(h: Hash, t: Table<V>, ops: seq<Op<V>>, i: nat)
    requires Inv(h, t) && i < |t.slots| && t.slots[i].Live? && RemoveOp(t.slots[i].key) !in ops
    requires Run(h, t, ops).Some?
    ensures var t' := Run(h, t, ops).value.0;
            |t'.slots| >= |t.slots| && (|t'.slots| == |t.slots| ==> t'.slots[i] == t.slots[i])
    decreases ops
  {
    if ops != [] {
      StepStable(h, t, ops[0], i);
      var t1 := Step(h, t, ops[0]).value.0;
      if |t1.slots| == |t.slots| {
        SlotsStable(h, t1, ops[1..], i);
      } else {
        CapacityGrows(h, t1, ops[1..]);
      }
    }
  }

  lemma StepGrows<V>(h: Hash, t: Table<V>, op: Op<V>)
    requires Inv(h, t) && Step(h, t, op).Some?
    ensures |Step(h, t, op).value.0.slots| >= |t.slots|
  {
    if op.InsertOp? {
      UsedBound(t.slots);
      if t.inUse < |t.slots| { PlaceKeeps(h, t, op.key, op.value); }
    }
  }

  lemma {:induction false} CapacityGrows<V>(h: Hash, t: Table<V>, ops: seq<Op<V>>)
    requires Inv(h, t) && Run(h, t, ops).Some?
    ensures |Run(h, t, ops).value.0.slots| >= |t.slots|
    decreases ops
  {
    hide Step, Inv;
    if ops != [] {
      StepGrows(h, t, ops[0]);
      CapacityGrows(h, Step(h, t, ops[0]).value.0, ops[1..]);
    }
  }
}
