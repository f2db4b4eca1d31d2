/** Open addressing with linear probing and tombstones, as functions on the slots of a table. */
module HashTable {

  datatype Option<+T> = None | Some(value: T)

  /** The key field of a slot is the null pointer, the tombstone marker, or a string. */
  datatype Slot<+V> = Empty | Tomb | Live(key: string, value: V)

  /** The slots of a table and its count of slots in use, tombstones included. */
  datatype Table<+V> = Table(slots: seq<Slot<V>>, inUse: nat)

  type Hash = string -> nat

  /** `strcmp` finds the key itself; `strncmp` over the length of the query finds any key that
      extends it. */
  datatype Query = Exact(key: string) | Prefix(key: string)

  const LIMIT: nat := 8192
  const DEFAULT: nat := 32

  predicate Matches(q: Query, key: string) {
    if q.Exact? then q.key == key else q.key <= key
  }

  /** A probe for `q` goes no further than this slot. */
  predicate Halts<V>(s: Slot<V>, q: Query) {
    s.Empty? || (s.Live? && Matches(q, s.key))
  }

  function Next(i: nat, n: nat): (j: nat)
    requires i < n
    ensures j < n && j == (i + 1) % n
  {
    if i + 1 == n then 0 else i + 1
  }

  /** The number of steps from slot `i` to slot `j` around a table of `n` slots. */
  function Dist(i: nat, j: nat, n: nat): (d: nat)
    requires i < n && j < n
    ensures d < n
  {
    if i <= j then j - i else j + n - i
  }

  function Home(h: Hash, key: string, n: nat): (i: nat)
    requires n > 0
    ensures i < n
  {
    h(key) % n
  }

  /** Going around the table from slot `i`, slot `k` comes before slot `j`. */
  predicate Between(i: nat, k: nat, j: nat, n: nat)
    requires i < n && k < n && j < n
  {
    Dist(i, k, n) < Dist(i, j, n)
  }

  // ---------- probing ----------

  /** The first of `fuel` slots, from slot `i` on, at which a probe for `q` halts. */
  function Seek<V>(slots: seq<Slot<V>>, q: Query, i: nat, fuel: nat): (r: Option<nat>)
    requires i < |slots|
    ensures r.Some? ==> r.value < |slots|
    decreases fuel
  {
    if fuel == 0 then None
    else if Halts(slots[i], q) then Some(i)
    else Seek(slots, q, Next(i, |slots|), fuel - 1)
  }

  /** Where a probe for `q` halts; `None` when it goes around the table forever. */
  function Probe<V>(h: Hash, slots: seq<Slot<V>>, q: Query): (r: Option<nat>)
    requires |slots| > 0
    ensures r.Some? ==> r.value < |slots|
  {
    Seek(slots, q, Home(h, q.key, |slots|), |slots|)
  }

  /** Slot `j` is the first, from slot `i` on, at which a probe for `q` halts. */
  ghost predicate FirstHalt<V>(slots: seq<Slot<V>>, q: Query, i: nat, j: nat)
    requires i < |slots|
  {
    && j < |slots| && Halts(slots[j], q)
    && forall k :: 0 <= k < |slots| && Between(i, k, j, |slots|) ==> !Halts(slots[k], q)
  }

  lemma {:induction false} SeekFirst<V>(slots: seq<Slot<V>>, q: Query, i: nat, fuel: nat)
    requires i < |slots| && fuel <= |slots|
    ensures var r := Seek(slots, q, i, fuel);
            && (r.Some? ==> FirstHalt(slots, q, i, r.value))
            && (r.None? ==> forall k :: 0 <= k < |slots| && Dist(i, k, |slots|) < fuel ==> !Halts(slots[k], q))
    decreases fuel
  {
    var n := |slots|;
    if fuel > 0 && !Halts(slots[i], q) {
      var i' := Next(i, n);
      SeekFirst(slots, q, i', fuel - 1);
      forall k | 0 <= k < n && k != i
        ensures Dist(i, k, n) == Dist(i', k, n) + 1
      {
      }
    }
  }

  lemma SeekReaches<V>(slots: seq<Slot<V>>, q: Query, i: nat, fuel: nat, j: nat)
    requires i < |slots| && j < |slots| && Halts(slots[j], q)
    requires Dist(i, j, |slots|) < fuel <= |slots|
    ensures Seek(slots, q, i, fuel).Some?
  {
    SeekFirst(slots, q, i, fuel);
  }

  /** A probe ends if and only if some slot is empty or holds a match, and then at the first such
      slot around the table from the home of the query. */
  lemma ProbeTerminates<V>(h: Hash, slots: seq<Slot<V>>, q: Query)
    requires |slots| > 0
    ensures Probe(h, slots, q).Some? <==> exists j :: 0 <= j < |slots| && Halts(slots[j], q)
    ensures forall j :: Probe(h, slots, q) == Some(j) <==> j >= 0 && FirstHalt(slots, q, Home(h, q.key, |slots|), j)
  {
    var i := Home(h, q.key, |slots|);
    SeekFirst(slots, q, i, |slots|);
    var r := Probe(h, slots, q);
    forall j: nat | FirstHalt(slots, q, i, j)
      ensures r == Some(j)
    {
      SeekReaches(slots, q, i, |slots|, j);
      assert Dist(i, r.value, |slots|) == Dist(i, j, |slots|);
    }
  }

  // ---------- what a table stands for ----------

  ghost predicate Unique<V>(slots: seq<Slot<V>>) {
    forall i, j | 0 <= i < |slots| && 0 <= j < |slots| ::
      slots[i].Live? && slots[j].Live? && slots[i].key == slots[j].key ==> i == j
  }

  /** No empty slot lies between the home of a live key and the slot it is in. */
  ghost predicate Chained<V>(h: Hash, slots: seq<Slot<V>>) {
    forall p, k | 0 <= p < |slots| && 0 <= k < |slots| ::
      slots[p].Live? && Between(Home(h, slots[p].key, |slots|), k, p, |slots|) ==> !slots[k].Empty?
  }

  ghost function UsedSlots<V>(slots: seq<Slot<V>>): set<nat> {
    set i: nat | i < |slots| && !slots[i].Empty?
  }

  ghost predicate Sound<V>(h: Hash, t: Table<V>) {
    |t.slots| > 0 && Unique(t.slots) && Chained(h, t.slots) && t.inUse == |UsedSlots(t.slots)|
  }

  predicate IsCapacity(n: nat) {
    n == 32 || n == 64 || n == 128 || n == 256 || n == 512 || n == 1024 || n == 2048 || n == 4096 || n == 8192
  }

  /** The invariant every operation keeps. */
  ghost predicate Inv<V>(h: Hash, t: Table<V>) {
    Sound(h, t) && IsCapacity(|t.slots|)
  }

  /** The finite map a table stands for. */
  ghost function Contents<V>(slots: seq<Slot<V>>): map<string, V>
    requires Unique(slots)
  {
    map i | 0 <= i < |slots| && slots[i].Live? :: slots[i].key := slots[i].value
  }

  lemma Witness<V>(slots: seq<Slot<V>>, key: string) returns (i: nat)
    requires Unique(slots) && key in Contents(slots)
    ensures i < |slots| && slots[i] == Live(key, Contents(slots)[key])
  {
    i :| 0 <= i < |slots| && slots[i].Live? && slots[i].key == key;
  }

  lemma Listed<V>(slots: seq<Slot<V>>, i: nat)
    requires Unique(slots) && i < |slots| && slots[i].Live?
    ensures slots[i].key in Contents(slots) && Contents(slots)[slots[i].key] == slots[i].value
  {
  }

  function Upto(n: nat): (s: set<nat>)
    ensures forall i :: i in s <==> 0 <= i < n
    ensures |s| == n
  {
    if n == 0 then {} else Upto(n - 1) + {n - 1}
  }

  lemma UsedBound<V>(slots: seq<Slot<V>>)
    ensures |UsedSlots(slots)| <= |slots|
    ensures |UsedSlots(slots)| < |slots| <==> exists j :: 0 <= j < |slots| && slots[j].Empty?
  {
    var all := Upto(|slots|);
    if j: nat :| j < |slots| && slots[j].Empty? {
      Smaller(UsedSlots(slots), all - {j});
    } else {
      assert UsedSlots(slots) == all;
    }
  }

  lemma {:induction false} Smaller<T>(a: set<T>, b: set<T>)
    requires a <= b
    ensures |a| <= |b|
  {
    if a != {} {
      var x :| x in a;
      Smaller(a - {x}, b - {x});
    }
  }

  /** A table with a slot to spare answers every probe. */
  lemma RoomHalts<V>(h: Hash, t: Table<V>, q: Query)
    requires Sound(h, t) && t.inUse < |t.slots|
    ensures Probe(h, t.slots, q).Some?
  {
    UsedBound(t.slots);
    ProbeTerminates(h, t.slots, q);
  }

  /** A probe for a key ends at the slot that holds it, or at an empty slot when none does. */
  lemma ExactProbe<V>(h: Hash, slots: seq<Slot<V>>, key: string)
    requires |slots| > 0 && Unique(slots) && Chained(h, slots)
    ensures var r := Probe(h, slots, Exact(key));
            && (key in Contents(slots) ==> r.Some? && slots[r.value] == Live(key, Contents(slots)[key]))
            && (key !in Contents(slots) && r.Some? ==> slots[r.value].Empty?)
  {
    var q := Exact(key);
    var r := Probe(h, slots, q);
    ProbeTerminates(h, slots, q);
    if key in Contents(slots) {
      var p := Witness(slots, key);
      assert Halts(slots[p], q);
      assert FirstHalt(slots, q, Home(h, key, |slots|), r.value);
    } else if r.Some? && slots[r.value].Live? {
      Listed(slots, r.value);
    }
  }

  // ---------- operations ----------

  function Fresh<V>(n: nat): Table<V> {
    Table(seq(n, _ => Empty), 0)
  }

  function Create<V>(): (t: Table<V>)
    ensures t.inUse == 0 && |t.slots| == 32 && forall i :: 0 <= i < 32 ==> t.slots[i].Empty?
  {
    Fresh(DEFAULT)
  }

  /** The probe loop of an insertion: an existing key is left alone. */
  function Place<V>(h: Hash, t: Table<V>, key: string, value: V): (r: (Table<V>, nat))
    requires |t.slots| > 0 && Probe(h, t.slots, Exact(key)).Some?
    ensures |r.0.slots| == |t.slots|
  {
    var j := Probe(h, t.slots, Exact(key)).value;
    if t.slots[j].Live? then (t, j)
    else (Table(t.slots[j := Live(key, value)], t.inUse + 1), j)
  }

  ghost predicate CanPlace<V>(h: Hash, t: Table<V>) {
    Sound(h, t) && t.inUse < |t.slots|
  }

  lemma PlaceKeeps<V>(h: Hash, t: Table<V>, key: string, value: V)
    requires CanPlace(h, t)
    ensures Probe(h, t.slots, Exact(key)).Some?
    ensures var m := Contents(t.slots);
            var (t', j) := Place(h, t, key, value);
            && Sound(h, t')
            && Contents(t'.slots) == (if key in m then m else m[key := value])
            && j < |t'.slots| && t'.slots[j].Live? && t'.slots[j].key == key
            && t'.inUse == t.inUse + (if key in m then 0 else 1)
            && (key in m ==> t' == t) && (key !in m ==> t.slots[j].Empty? && t'.slots == t.slots[j := Live(key, value)])
  {
    var q := Exact(key);
    var n := |t.slots|;
    var m := Contents(t.slots);
    RoomHalts(h, t, q);
    ExactProbe(h, t.slots, key);
    ProbeTerminates(h, t.slots, q);
    var (t', j) := Place(h, t, key, value);
    if key !in m {
      assert FirstHalt(t.slots, q, Home(h, key, n), j);
      assert forall i :: 0 <= i < n && i != j ==> t'.slots[i] == t.slots[i];
      assert UsedSlots(t'.slots) == UsedSlots(t.slots) + {j};
      assert Unique(t'.slots) by {
        forall i | 0 <= i < n && t.slots[i].Live? ensures t.slots[i].key != key {
          assert t.slots[i].key in m;
        }
      }
      assert Chained(h, t'.slots);
      PlacedContents(t.slots, j, key, value);
    }
  }

  lemma PlacedContents<V>(slots: seq<Slot<V>>, j: nat, key: string, value: V)
    requires j < |slots| && slots[j].Empty?
    requires Unique(slots) && Unique(slots[j := Live(key, value)])
    ensures Contents(slots[j := Live(key, value)]) == Contents(slots)[key := value]
  {
    var slots' := slots[j := Live(key, value)];
    var (m, m') := (Contents(slots), Contents(slots'));
    forall k | k in m
      ensures k in m' && k != key && m'[k] == m[k]
    {
      var i := Witness(slots, k);
      assert slots'[i] == slots[i] && slots'[j].key == key;
      Listed(slots', i);
    }
    Listed(slots', j);
    forall k | k in m' && k != key
      ensures k in m
    {
      var i := Witness(slots', k);
      Listed(slots, i);
    }
  }

  // ---------- growing ----------

  ghost predicate NoTombs<V>(slots: seq<Slot<V>>) {
    forall i :: 0 <= i < |slots| ==> !slots[i].Tomb?
  }

  /** A table under construction: it holds the live slots before `i`, and nothing else. */
  ghost predicate Rehashed<V>(h: Hash, src: seq<Slot<V>>, i: nat, t: Table<V>)
    requires i <= |src| && Unique(src)
  {
    && Sound(h, t) && NoTombs(t.slots) && |t.slots| > |src|
    && t.inUse == |Contents(t.slots)| && t.inUse <= i
    && Contents(t.slots) == Contents(src[..i])
  }

  /** The loop that re-inserts every live slot of the old table. */
  ghost function Rehash<V>(h: Hash, src: seq<Slot<V>>, i: nat, t: Table<V>): (t': Table<V>)
    requires i <= |src| && Unique(src) && Rehashed(h, src, i, t)
    ensures Rehashed(h, src, |src|, t') && |t'.slots| == |t.slots|
    decreases |src| - i
  {
    if i == |src| then t
    else
      RehashStep(h, src, i, t);
      Rehash(h, src, i + 1, if src[i].Live? then Place(h, t, src[i].key, src[i].value).0 else t)
  }

  lemma RehashStep<V>(h: Hash, src: seq<Slot<V>>, i: nat, t: Table<V>)
    requires i < |src| && Unique(src) && Rehashed(h, src, i, t)
    ensures src[i].Live? ==> Probe(h, t.slots, Exact(src[i].key)).Some?
    ensures Rehashed(h, src, i + 1, if src[i].Live? then Place(h, t, src[i].key, src[i].value).0 else t)
  {
    PrefixContents(src, i);
    if src[i].Live? {
      PlaceKeeps(h, t, src[i].key, src[i].value);
    }
  }

  lemma PrefixContents<V>(src: seq<Slot<V>>, i: nat)
    requires i < |src| && Unique(src)
    ensures !src[i].Live? ==> Contents(src[..i + 1]) == Contents(src[..i])
    ensures src[i].Live? ==> src[i].key !in Contents(src[..i])
                             && Contents(src[..i + 1]) == Contents(src[..i])[src[i].key := src[i].value]
  {
    hide Contents, Unique;
    UniquePrefix(src, i);
    UniquePrefix(src, i + 1);
    PrefixWithin(src, i);
    PrefixBeyond(src, i);
    var (m, m') := (Contents(src[..i]), Contents(src[..i + 1]));
    if src[i].Live? {
      assert m' == m[src[i].key := src[i].value];
    } else {
      assert m'.Keys == m.Keys;
      assert m' == m;
    }
  }

  lemma PrefixBeyond<V>(src: seq<Slot<V>>, i: nat)
    requires i < |src| && Unique(src)
    ensures var (m, m') := (Contents(src[..i]), Contents(src[..i + 1]));
            && (forall k :: k in m' ==> k in m || (src[i].Live? && k == src[i].key))
            && (src[i].Live? ==> src[i].key in m' && m'[src[i].key] == src[i].value)
  {
    var (a, b) := (src[..i], src[..i + 1]);
    forall k | k in Contents(b)
      ensures k in Contents(a) || (src[i].Live? && k == src[i].key)
    {
      var j := Witness(b, k);
      if j < i {
        assert a[j] == b[j];
        Listed(a, j);
      }
    }
    if src[i].Live? {
      assert b[i] == src[i];
      Listed(b, i);
    }
  }

  lemma PrefixWithin<V>(src: seq<Slot<V>>, i: nat)
    requires i < |src| && Unique(src)
    ensures var (m, m') := (Contents(src[..i]), Contents(src[..i + 1]));
            forall k :: k in m ==> k in m' && m'[k] == m[k] && (src[i].Live? ==> k != src[i].key)
  {
    var (a, b) := (src[..i], src[..i + 1]);
    forall k | k in Contents(a)
      ensures k in Contents(b) && Contents(b)[k] == Contents(a)[k] && (src[i].Live? ==> k != src[i].key)
    {
      var j := Witness(a, k);
      assert b[j] == a[j] == src[j];
      Listed(b, j);
    }
  }

  /** A table has at least as many slots in use as its map has keys. */
  lemma {:induction false} LiveAreUsed<V>(slots: seq<Slot<V>>)
    requires Unique(slots)
    ensures |Contents(slots)| <= |UsedSlots(slots)|
    decreases |slots|
  {
    var n := |slots|;
    if n > 0 {
      UniquePrefix(slots, n - 1);
      LiveAreUsed(slots[..n - 1]);
      PrefixContents(slots, n - 1);
      PrefixUsed(slots, n - 1);
      assert slots[..n] == slots;
    } else {
      assert Contents(slots) == map[];
    }
  }

  lemma UniquePrefix<V>(slots: seq<Slot<V>>, n: nat)
    requires Unique(slots) && n <= |slots|
    ensures Unique(slots[..n])
  {
  }

  lemma PrefixUsed<V>(slots: seq<Slot<V>>, i: nat)
    requires i < |slots|
    ensures |UsedSlots(slots[..i + 1])| == |UsedSlots(slots[..i])| + if slots[i].Empty? then 0 else 1
  {
    var (a, b) := (UsedSlots(slots[..i]), UsedSlots(slots[..i + 1]));
    assert b == if slots[i].Empty? then a else a + {i};
  }

  lemma FreshIsEmpty<V>(h: Hash, n: nat)
    requires n > 0
    ensures var t: Table<V> := Fresh(n);
            Sound(h, t) && NoTombs(t.slots) && Contents(t.slots) == map[] && t.inUse == 0
  {
    var t: Table<V> := Fresh(n);
    assert UsedSlots(t.slots) == {};
  }

  /** Doubling the capacity; -1 when that would exceed the limit. */
  ghost function Grow<V>(h: Hash, t: Table<V>): (r: (Table<V>, int))
    requires Inv(h, t)
    ensures Inv(h, r.0)
    ensures if 2 * |t.slots| <= 8192
            then r.1 == |r.0.slots| == 2 * |t.slots| && Contents(r.0.slots) == Contents(t.slots)
                 && NoTombs(r.0.slots) && r.0.inUse == |Contents(t.slots)| <= |t.slots|
            else r == (t, -1)
  {
    var n := |t.slots|;
    if 2 * n <= LIMIT then
      FreshIsEmpty<V>(h, 2 * n);
      assert t.slots[..0] == [] && t.slots[..n] == t.slots;
      (Rehash(h, t.slots, 0, Fresh(2 * n)), 2 * n)
    else (t, -1)
  }

  /** Insertion: a full table grows first, even when the key is already there; -1 when it cannot. */
  ghost function Insert<V>(h: Hash, t: Table<V>, key: string, value: V): (r: (Table<V>, int))
    requires Inv(h, t)
    ensures Inv(h, r.0)
    ensures r.1 == -1 <==> t.inUse == |t.slots| == 8192
    ensures r.1 == -1 ==> r.0 == t
    ensures var m := Contents(t.slots);
            r.1 != -1 ==> Contents(r.0.slots) == (if key in m then m else m[key := value])
                          && 0 <= r.1 < |r.0.slots| && r.0.slots[r.1].Live? && r.0.slots[r.1].key == key
    ensures r.0.inUse <= t.inUse + 1
    ensures r.1 != -1 ==> |r.0.slots| == if t.inUse < |t.slots| then |t.slots| else 2 * |t.slots|
    ensures r.1 != -1 ==>
              var m := Contents(t.slots);
              r.0.inUse == (if t.inUse < |t.slots| then t.inUse else |m|) + (if key in m then 0 else 1)
    ensures t.inUse < |t.slots| ==>
              if key in Contents(t.slots) then r.0 == t
              else 0 <= r.1 < |t.slots| && t.slots[r.1].Empty? && r.0.slots == t.slots[r.1 := Live(key, value)]
  {
    UsedBound(t.slots);
    LiveAreUsed(t.slots);
    if t.inUse < |t.slots| then
      PlaceKeeps(h, t, key, value);
      Place(h, t, key, value)
    else
      var g := Grow(h, t);
      if g.1 == -1 then g
      else
        PlaceKeeps(h, g.0, key, value);
        Place(h, g.0, key, value)
  }

  /** Removal leaves a tombstone and does not change the count; `None` when the probe never ends. */
  ghost function Remove<V>(h: Hash, t: Table<V>, key: string): (r: Option<(Table<V>, int)>)
    requires Inv(h, t)
    ensures r.None? <==> t.inUse == |t.slots| && key !in Contents(t.slots)
    ensures r.Some? ==> Inv(h, r.value.0) && Contents(r.value.0.slots) == Contents(t.slots) - {key}
                        && (r.value.1 == -1 <==> key !in Contents(t.slots))
                        && r.value.0.inUse == t.inUse && |r.value.0.slots| == |t.slots|
    ensures r.Some? ==>
              var (t', code) := r.value;
              if code == -1 then t' == t
              else && 0 <= code < |t.slots| && key in Contents(t.slots)
                   && t.slots[code] == Live(key, Contents(t.slots)[key])
                   && t'.slots == t.slots[code := Tomb]
  {
    ExactProbe(h, t.slots, key);
    ProbeTerminates(h, t.slots, Exact(key));
    UsedBound(t.slots);
    var p := Probe(h, t.slots, Exact(key));
    if p.None? then None
    else if t.slots[p.value].Live? then
      BuryKeeps(h, t, p.value);
      Some((t.(slots := t.slots[p.value := Tomb]), p.value as int))
    else Some((t, -1))
  }

  lemma BuryKeeps<V>(h: Hash, t: Table<V>, j: nat)
    requires Sound(h, t) && j < |t.slots| && t.slots[j].Live?
    ensures var t' := t.(slots := t.slots[j := Tomb]);
            Sound(h, t') && Contents(t'.slots) == Contents(t.slots) - {t.slots[j].key}
  {
    var slots' := t.slots[j := Tomb];
    assert forall i :: 0 <= i < |slots'| && i != j ==> slots'[i] == t.slots[i];
    assert UsedSlots(slots') == UsedSlots(t.slots);
    BuriedContents(t.slots, j);
  }

  lemma BuriedContents<V>(slots: seq<Slot<V>>, j: nat)
    requires j < |slots| && slots[j].Live? && Unique(slots) && Unique(slots[j := Tomb])
    ensures Contents(slots[j := Tomb]) == Contents(slots) - {slots[j].key}
  {
    var slots' := slots[j := Tomb];
    var (m, m') := (Contents(slots), Contents(slots'));
    forall k | k in m && k != slots[j].key
      ensures k in m' && m'[k] == m[k]
    {
      var i := Witness(slots, k);
      assert slots'[i] == slots[i];
      Listed(slots', i);
    }
    forall k | k in m'
      ensures k in m && k != slots[j].key
    {
      var i := Witness(slots', k);
      assert slots'[i] == slots[i];
      Listed(slots, i);
    }
  }
}
