/** The lexer's one-token cache over a stack of sources, as a state machine. A source is the list of
    tokens it still has, the last of which is its end of file. */
module TokenQueue {
  import opened HashTable

  datatype State<+T> = State(cache: Option<T>, sources: seq<seq<T>>)

  ghost predicate Valid<T>(st: State<T>) {
    forall i :: 0 <= i < |st.sources| ==> st.sources[i] != []
  }

  /** `lexer_get`: it looks for a source before it looks into the cache, and drops a source
      together with its end of file. */
  function Get<T>(st: State<T>): (r: (Option<T>, State<T>))
    requires Valid(st)
    ensures Valid(r.1)
  {
    if st.sources == [] then (None, st)
    else if st.cache.Some? then (st.cache, st.(cache := None))
    else
      var top := st.sources[0];
      (Some(top[0]), State(None, (if |top| == 1 then [] else [top[1..]]) + st.sources[1..]))
  }

  function Peek<T>(st: State<T>): (r: (Option<T>, State<T>))
    requires Valid(st)
    ensures Valid(r.1)
  {
    if st.cache.Some? then (st.cache, st)
    else
      var (t, st') := Get(st);
      (t, st'.(cache := t))
  }

  function Flatten<T>(xs: seq<seq<T>>): seq<T> {
    if xs == [] then [] else xs[0] + Flatten(xs[1..])
  }

  function Cached<T>(st: State<T>): seq<T> {
    if st.cache.Some? then [st.cache.value] else []
  }

  /** The tokens still to be delivered, without the end of file of the last source. */
  function Pending<T>(st: State<T>): seq<T>
    requires Valid(st)
  {
    if st.sources == [] then []
    else
      var all := Cached(st) + Flatten(st.sources);
      all[..|all| - 1]
  }

  lemma FlattenPop<T>(xs: seq<seq<T>>)
    requires xs != [] && xs[0] != []
    ensures var rest := (if |xs[0]| == 1 then [] else [xs[0][1..]]) + xs[1..];
            Flatten(xs) == [xs[0][0]] + Flatten(rest)
  {
    var top := xs[0];
    var rest := (if |top| == 1 then [] else [top[1..]]) + xs[1..];
    if |top| == 1 {
      assert rest == xs[1..];
    } else {
      assert rest[0] == top[1..] && rest[1..] == xs[1..];
      assert top == [top[0]] + top[1..];
    }
  }

  /** Every get delivers the next pending token and nothing else happens to the rest. */
  lemma GetDelivers<T>(st: State<T>)
    requires Valid(st) && Pending(st) != []
    ensures var (t, st') := Get(st);
            t == Some(Pending(st)[0]) && Pending(st') == Pending(st)[1..] && st'.sources != []
  {
    if st.cache.Some? {
      assert (Cached(st) + Flatten(st.sources))[1..] == Flatten(st.sources);
    } else {
      FlattenPop(st.sources);
    }
  }

  /** When only the end of file of the last source is left, nothing further is ever pending. */
  lemma GetAtEnd<T>(st: State<T>)
    requires Valid(st) && Pending(st) == []
    ensures Pending(Get(st).1) == [] && Get(st).1.sources == []
  {
    FlattenSize(st.sources);
  }

  lemma {:induction false} FlattenSize<T>(xs: seq<seq<T>>)
    requires forall i :: 0 <= i < |xs| ==> xs[i] != []
    ensures |Flatten(xs)| >= |xs|
  {
    if xs != [] { FlattenSize(xs[1..]); }
  }

  /** A peek shows the next pending token and changes nothing that a get delivers; peeking again
      shows the same and changes nothing at all. */
  lemma PeekKeeps<T>(st: State<T>)
    requires Valid(st)
    ensures var (t, st') := Peek(st);
            && Pending(st') == Pending(st)
            && (Pending(st) != [] ==> t == Some(Pending(st)[0]))
            && Peek(st') == (t, st')
  {
    if st.cache.None? && st.sources != [] {
      FlattenPop(st.sources);
      var (t, st') := Get(st);
      if st'.sources != [] {
        assert Cached(st'.(cache := t)) + Flatten(st'.sources) == Flatten(st.sources);
      }
    }
  }

  // ---------- runs ----------

  datatype Op = GetOp | PeekOp

  /** What the gets of a run of gets and peeks deliver. */
  function Run<T>(st: State<T>, ops: seq<Op>): (out: seq<Option<T>>)
    requires Valid(st)
    decreases ops
  {
    if ops == [] then []
    else if ops[0].GetOp? then [Get(st).0] + Run(Get(st).1, ops[1..])
    else Run(Peek(st).1, ops[1..])
  }

  function Gets(ops: seq<Op>): nat {
    if ops == [] then 0 else (if ops[0].GetOp? then 1 else 0) + Gets(ops[1..])
  }

  /** Peeks are transparent: whatever peeks come between them, the gets of a run deliver the pending
      tokens in order, as many as there are. */
  lemma {:induction false} PeeksAreTransparent<T>(st: State<T>, ops: seq<Op>)
    requires Valid(st)
    ensures var out := Run(st, ops);
            && |out| == Gets(ops)
            && forall k :: 0 <= k < |out| && k < |Pending(st)| ==> out[k] == Some(Pending(st)[k])
    decreases ops
  {
    if ops != [] {
      if ops[0].PeekOp? {
        PeekKeeps(st);
        PeeksAreTransparent(Peek(st).1, ops[1..]);
      } else {
        PeeksAreTransparent(Get(st).1, ops[1..]);
        if Pending(st) != [] { GetDelivers(st); }
      }
    }
  }

  /** Two runs with equally many gets deliver the same pending tokens. */
  lemma PeeksDoNotMatter<T>(st: State<T>, ops: seq<Op>, ops': seq<Op>)
    requires Valid(st) && Gets(ops) == Gets(ops') <= |Pending(st)|
    ensures Run(st, ops) == Run(st, ops')
  {
    PeeksAreTransparent(st, ops);
    PeeksAreTransparent(st, ops');
  }

  /** The end of file of the last source is the exception: when nothing else is left a get delivers
      it, but not once it has been peeked at, because no source is left by then. */
  lemma LastEofIsLost<T>(st: State<T>)
    requires Valid(st) && Pending(st) == []
    ensures Get(st).0.Some? <==> st.sources != []
    ensures st.sources != [] ==> Peek(st).0 == Get(st).0 == Some(st.sources[0][0])
    ensures Get(Peek(st).1).0 == None
  {
    if st.sources != [] {
      FlattenSize(st.sources);
      FlattenSize(st.sources[1..]);
    }
  }
}
