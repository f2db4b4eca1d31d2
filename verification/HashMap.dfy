/** The hash map object, updated in place, against the functions on tables. */
module HashMaps {
  import opened HashTable
  import opened HashRuns

  class HashMap<V> {
    const hash: Hash
    var entries: array<Slot<V>>
    var inUse: nat
    var capacity: nat

    ghost function Model(): Table<V>
      reads this, entries
    {
      Table(entries[..], inUse)
    }

    ghost predicate Valid()
      reads this, entries
    {
      capacity == entries.Length && Inv(hash, Model())
    }

    constructor (hash: Hash)
      ensures Valid() && fresh(entries) && this.hash == hash
      ensures Model() == Create()
    {
      this.hash := hash;
      entries := new Slot<V>[DEFAULT](_ => Empty);
      inUse := 0;
      capacity := DEFAULT;
      new;
      FreshIsEmpty<V>(hash, DEFAULT);
      assert entries[..] == Create<V>().slots;
    }

    /** Insertion and growth call each other; a table that has just grown is never full. */
    method Insert(key: string, value: V) returns (index: int)
      requires Valid()
      modifies this, entries
      ensures Valid() && (entries == old(entries) || fresh(entries))
      ensures (Model(), index) == HashTable.Insert(hash, old(Model()), key, value)
      ensures index != -1 ==>
                capacity == if old(inUse) < old(capacity) then old(capacity) else 2 * old(capacity)
      decreases if inUse >= capacity then 2 else 0
    {
      UsedBound(Model().slots);
      if inUse >= capacity {
        var g := Grow();
        if g == -1 { return -1; }
      }
      PlaceKeeps(hash, Model(), key, value);
      index := Find(Exact(key));
      if entries[index].Live? { return; }
      ghost var was := entries[..];
      entries[index] := Live(key, value);
      inUse := inUse + 1;
      assert entries[..] == was[index := Live(key, value)];
    }

    /** The probe loop. */
    method Find(q: Query) returns (index: nat)
      requires Valid() && Probe(hash, Model().slots, q).Some?
      ensures Some(index) == Probe(hash, Model().slots, q) && Halts(Model().slots[index], q)
    {
      ghost var slots := Model().slots;
      ghost var home := Home(hash, q.key, capacity);
      ghost var last := Probe(hash, slots, q).value;
      ProbeTerminates(hash, slots, q);
      index := hash(q.key) % capacity;
      while !entries[index].Empty?
        invariant index < capacity
        invariant Dist(home, index, capacity) <= Dist(home, last, capacity)
        decreases Dist(home, last, capacity) - Dist(home, index, capacity)
      {
        if !entries[index].Tomb? && Matches(q, entries[index].key) {
          assert Halts(slots[index], q);
          return;
        }
        assert !Halts(slots[index], q);
        assert Next(index, capacity) == (index + 1) % capacity;
        index := (index + 1) % capacity;
      }
      assert Halts(slots[index], q);
    }

    method Grow() returns (r: int)
      requires Valid()
      modifies this, entries
      ensures Valid() && (entries == old(entries) || fresh(entries))
      ensures (Model(), r) == HashTable.Grow(hash, old(Model()))
      decreases 1
    {
      hide HashTable.Grow, Rehash, Sound, Unique, Chained, Rehashed, Contents;
      if capacity * 2 > LIMIT { return -1; }
      var tmp, n := entries, capacity;
      ghost var src := tmp[..];
      inUse := 0;
      capacity := capacity * 2;
      entries := new Slot<V>[capacity](_ => Empty);
      RehashStart(hash, Table(src, old(inUse)));
      assert Model() == Fresh(2 * n);
      for i := 0 to n
        invariant tmp[..] == src && fresh(entries) && capacity == 2 * n && Valid()
        invariant Rehashed(hash, src, i, Model())
        invariant Rehash(hash, src, i, Model()) == Rehash(hash, src, 0, Fresh(2 * n))
      {
        InsertRehashes(hash, src, i, Model());
        if tmp[i].Live? {
          var _ := Insert(tmp[i].key, tmp[i].value);
        }
      }
      RehashEnd(hash, src, Model());
      return capacity;
    }

    /** Returns only if the probe does: the table has a free slot, or holds the key. */
    method Remove(key: string) returns (index: int)
      requires Valid()
      requires inUse < capacity || key in Contents(Model().slots)
      modifies entries
      ensures Valid()
      ensures Some((Model(), index)) == HashTable.Remove(hash, old(Model()), key)
      ensures if index == -1 then entries[..] == old(entries[..])
              else && 0 <= index < entries.Length && old(entries[index].Live? && entries[index].key == key)
                   && entries[..] == old(entries[..])[index := Tomb]
    {
      ghost var t := Model();
      assert HashTable.Remove(hash, t, key).Some?;
      index := Find(Exact(key));
      if entries[index].Empty? { return -1; }
      entries[index] := Tomb;
      assert entries[..] == t.slots[index := Tomb];
    }

    /** Matches the first `length` characters of `key` only. Returns if the probe does. */
    method NRetrieve(key: string, length: nat) returns (entry: Slot<V>)
      requires Valid() && length <= |key|
      requires HashRuns.Retrieve(hash, Model().slots, key[..length]).Some?
      ensures Some(entry) == HashRuns.Retrieve(hash, Model().slots, key[..length])
    {
      var index := Find(Prefix(key[..length]));
      entry := entries[index];
    }

    method Retrieve(key: string) returns (entry: Slot<V>)
      requires Valid() && HashRuns.Retrieve(hash, Model().slots, key).Some?
      ensures Some(entry) == HashRuns.Retrieve(hash, Model().slots, key)
      ensures var m := Contents(Model().slots);
              NoExtension(m, key) ==> entry == if key in m then Live(key, m[key]) else Empty
    {
      assert key[..|key|] == key;
      entry := NRetrieve(key, |key|);
      if NoExtension(Contents(Model().slots), key) { LookupExact(hash, Model(), key); }
    }

    /** Live entries, last slot first. */
    method Enumerate() returns (list: seq<(string, V)>)
      requires Valid()
      ensures list == LiveBackwards(Model().slots)
    {
      list := [];
      if inUse == 0 {
        NothingLive(Model().slots);
        return;
      }
      for i := 0 to capacity
        invariant list == LiveBackwards(entries[..i])
      {
        assert entries[..i + 1][..i] == entries[..i];
        if entries[i].Live? {
          list := [(entries[i].key, entries[i].value)] + list;
        }
      }
      assert entries[..capacity] == entries[..];
    }
  }

  /** The empty table of twice the size, from which a rehash starts. */
  lemma RehashStart<V>(h: Hash, t: Table<V>)
    requires Inv(h, t) && 2 * |t.slots| <= LIMIT
    ensures Unique(t.slots) && Inv<V>(h, Fresh(2 * |t.slots|)) && Rehashed(h, t.slots, 0, Fresh(2 * |t.slots|))
    ensures HashTable.Grow(h, t) == (Rehash(h, t.slots, 0, Fresh(2 * |t.slots|)), 2 * |t.slots|)
  {
    FreshIsEmpty<V>(h, 2 * |t.slots|);
    assert t.slots[..0] == [];
  }

  lemma RehashEnd<V>(h: Hash, src: seq<Slot<V>>, t: Table<V>)
    requires Unique(src) && Rehashed(h, src, |src|, t)
    ensures Rehash(h, src, |src|, t) == t
  {
  }

  /** Re-inserting the next slot of the old table is one step of the rehash, and does not grow. */
  lemma InsertRehashes<V>(h: Hash, src: seq<Slot<V>>, i: nat, t: Table<V>)
    requires i < |src| && Unique(src) && Rehashed(h, src, i, t) && Inv(h, t)
    ensures t.inUse < |t.slots|
    ensures var t' := if src[i].Live? then HashTable.Insert(h, t, src[i].key, src[i].value).0 else t;
            && |t'.slots| == |t.slots| && Rehashed(h, src, i + 1, t')
            && Rehash(h, src, i, t) == Rehash(h, src, i + 1, t')
  {
    RehashStep(h, src, i, t);
  }

  function LiveBackwards<V>(slots: seq<Slot<V>>): seq<(string, V)> {
    if slots == [] then []
    else
      var s := slots[|slots| - 1];
      (if s.Live? then [(s.key, s.value)] else []) + LiveBackwards(slots[..|slots| - 1])
  }

  lemma {:induction false} NothingLive<V>(slots: seq<Slot<V>>)
    requires |UsedSlots(slots)| == 0
    ensures LiveBackwards(slots) == []
  {
    if slots != [] {
      assert |slots| - 1 !in UsedSlots(slots);
      assert forall i :: 0 <= i < |slots| - 1 ==> slots[..|slots| - 1][i] == slots[i];
      assert UsedSlots(slots[..|slots| - 1]) <= UsedSlots(slots);
      NothingLive(slots[..|slots| - 1]);
    }
  }

  /** The list holds every entry of the map and nothing else, each key once. */
  ghost predicate Lists<V>(list: seq<(string, V)>, m: map<string, V>) {
    (forall e <- list :: e.0 in m && m[e.0] == e.1) && (forall k :: k in m ==> (k, m[k]) in list) && |list| == |m|
  }

  /** Enumeration lists every entry of the abstract map, each key once. */
  lemma {:induction false} EnumerationComplete<V>(slots: seq<Slot<V>>)
    requires Unique(slots)
    ensures Lists(LiveBackwards(slots), Contents(slots))
  {
    hide Contents, Unique, Lists;
    var n := |slots|;
    if n == 0 {
      NothingListed(slots);
    } else {
      assert slots[..n - 1 + 1] == slots;
      PrefixContents(slots, n - 1);
      UniquePrefix(slots, n - 1);
      EnumerationComplete(slots[..n - 1]);
      OneMoreListed(slots[n - 1], LiveBackwards(slots[..n - 1]), Contents(slots[..n - 1]), Contents(slots));
    }
  }

  /** Of two live slots the later one is listed first. */
  lemma {:induction false} LaterListedFirst<V>(slots: seq<Slot<V>>, i: nat, j: nat) returns (p: nat, q: nat)
    requires i < j < |slots| && slots[i].Live? && slots[j].Live?
    ensures p < q < |LiveBackwards(slots)|
    ensures LiveBackwards(slots)[p] == (slots[j].key, slots[j].value)
    ensures LiveBackwards(slots)[q] == (slots[i].key, slots[i].value)
    decreases |slots|
  {
    var n := |slots| - 1;
    var first := if slots[n].Live? then 1 else 0;
    if j == n {
      q := LiveListed(slots[..n], i);
      p, q := 0, q + 1;
    } else {
      p, q := LaterListedFirst(slots[..n], i, j);
      p, q := p + first, q + first;
    }
  }

  lemma {:induction false} LiveListed<V>(slots: seq<Slot<V>>, i: nat) returns (p: nat)
    requires i < |slots| && slots[i].Live?
    ensures p < |LiveBackwards(slots)| && LiveBackwards(slots)[p] == (slots[i].key, slots[i].value)
    decreases |slots|
  {
    var n := |slots| - 1;
    if i == n {
      p := 0;
    } else {
      p := LiveListed(slots[..n], i);
      p := p + if slots[n].Live? then 1 else 0;
    }
  }

  lemma NothingListed<V>(slots: seq<Slot<V>>)
    requires slots == [] && Unique(slots)
    ensures Lists([], Contents(slots))
  {
    assert Contents(slots) == map[];
  }

  lemma OneMoreListed<V>(s: Slot<V>, list: seq<(string, V)>, m: map<string, V>, m': map<string, V>)
    requires Lists(list, m)
    requires if s.Live? then s.key !in m && m' == m[s.key := s.value] else m' == m
    ensures Lists((if s.Live? then [(s.key, s.value)] else []) + list, m')
  {
  }
}
