/** The symbol table: a tree of scopes with a moving current scope. */
module SymbolTables {
  import opened Tokens
  import opened HashTable
  import opened HashRuns
  import opened HashMaps
  import ScopeStack

  class Scope {
    const lookup: HashMap<Symbol>
    const upref: Scope?
    var subscope: seq<Scope>
    /** The enclosing scopes, innermost first. */
    ghost const path: seq<Scope>

    constructor (lookup: HashMap<Symbol>, upref: Scope?)
      ensures this.lookup == lookup && this.upref == upref && subscope == []
      ensures path == if upref == null then [] else [upref] + upref.path
      ensures (upref != null ==> upref.Rooted()) ==> Rooted()
    {
      this.lookup := lookup;
      this.upref := upref;
      subscope := [];
      path := if upref == null then [] else [upref] + upref.path;
    }

    /** The subscopes are distinct scopes of the table, and this scope is the `upref` of each. */
    ghost predicate Owns(scopes: set<Scope>)
      reads this
    {
      Distinct(subscope) && forall c <- subscope :: c in scopes && c.upref == this
    }

    /** Following `upref` ends at a scope without one. */
    ghost predicate Rooted()
      decreases |path|
    {
      if upref == null then path == [] else path == [upref] + upref.path && upref.Rooted()
    }
  }

  /** The scopes form a finite tree: every scope but the root is in exactly one list of subscopes,
      once, and that list belongs to its `upref`. */
  ghost predicate IsTree(scopes: set<Scope>, root: Scope)
    reads scopes
  {
    && root in scopes && root.upref == null
    && (forall s <- scopes :: s.Rooted() && (s != root ==> s.upref != null) && forall a <- s.path :: a in scopes)
    && (forall s <- scopes :: s.Owns(scopes))
    && (forall s <- scopes :: s.upref != null ==> s in s.upref.subscope)
  }

  /** The tables of a list of scopes. */
  ghost function Tables(ss: seq<Scope>): (st: seq<Table<Symbol>>)
    reads set s | s in ss :: s.lookup, set s | s in ss :: s.lookup.entries
    ensures |st| == |ss| && forall i :: 0 <= i < |ss| ==> st[i] == ss[i].lookup.Model()
  {
    if ss == [] then [] else [ss[0].lookup.Model()] + Tables(ss[1..])
  }

  class Symtab {
    const hash: Hash
    const global: Scope
    var current: Scope
    ghost var scopes: set<Scope>

    ghost predicate TreeValid()
      reads this, scopes
    {
      current in scopes && IsTree(scopes, global)
    }

    ghost predicate TablesValid()
      reads this, scopes, set s | s in scopes :: s.lookup, set s | s in scopes :: s.lookup.entries
    {
      && (forall s <- scopes :: s.lookup.Valid() && s.lookup.hash == hash)
      && (forall s <- scopes, s' <- scopes :: s.lookup.entries == s'.lookup.entries ==> s == s')
    }

    ghost predicate Valid()
      reads this, scopes, set s | s in scopes :: s.lookup, set s | s in scopes :: s.lookup.entries
    {
      TreeValid() && TablesValid()
    }

    /** Every object the table consists of. */
    ghost function Footprint(): set<object>
      reads this, scopes, set s | s in scopes :: s.lookup
    {
      {this} + (set s | s in scopes :: s as object)
      + (set s | s in scopes :: s.lookup as object) + (set s | s in scopes :: s.lookup.entries as object)
    }

    /** The stack of tables visible from the current scope. */
    ghost function Visible(): (st: ScopeStack.Stack)
      requires Valid()
      reads this, scopes, set s | s in scopes :: s.lookup, set s | s in scopes :: s.lookup.entries
      ensures ScopeStack.Sane(hash, st)
    {
      Tables([current] + current.path)
    }

    constructor (hash: Hash)
      ensures Valid() && this.hash == hash && current == global
      ensures Visible() == [Create()]
    {
      this.hash := hash;
      var map0 := new HashMap<Symbol>(hash);
      var root := new Scope(map0, null);
      global := root;
      current := root;
      scopes := {root};
    }

    method Enter()
      requires Valid()
      modifies this, current
      ensures Valid() && current.upref == old(current)
      ensures scopes == old(scopes) + {current} && fresh(current) && current.subscope == []
      ensures old(current).subscope == [current] + old(current.subscope)
      ensures Some((Visible(), 0)) == ScopeStack.Step(hash, old(Visible()), ScopeStack.Enter)
    {
      hide Inv, TablesValid, Visible, IsTree;
      RootedCurrent();
      var table := new HashMap<Symbol>(hash);
      var scope := new Scope(table, current);
      Push(scope);
    }

    lemma RootedCurrent()
      requires Valid()
      ensures current.Rooted() && forall s <- scopes :: s.lookup.Valid()
    {
    }

    /** Makes a new scope the first subscope of the current one, and current. */
    method Push(scope: Scope)
      requires Valid() && scope !in scopes && scope.subscope == [] && scope.upref == current && scope.Rooted()
      requires scope.lookup.Valid() && scope.lookup.hash == hash
      requires forall s <- scopes :: s.lookup.entries != scope.lookup.entries
      modifies this, current
      ensures Valid() && current == scope && scopes == old(scopes) + {scope} && scope.subscope == []
      ensures old(current).subscope == [scope] + old(current.subscope)
      ensures Visible() == [scope.lookup.Model()] + old(Visible())
    {
      hide TreeValid, TablesValid, Visible, Inv, HashMaps.HashMap.Valid, HashMaps.HashMap.Model;
      Attach(scope);
      Pushed();
    }

    /** Only the tree of scopes has changed, by one scope that is now current. */
    twostate lemma Pushed()
      requires old(Valid()) && TreeValid() && current.path == [old(current)] + old(current).path
      requires current !in old(scopes) && scopes == old(scopes) + {current}
      requires current.lookup.Valid() && current.lookup.hash == hash
      requires forall s <- old(scopes) :: s.lookup.entries != current.lookup.entries
      requires forall s <- old(scopes) :: unchanged(s.lookup) && unchanged(s.lookup.entries)
      ensures Valid() && Visible() == [current.lookup.Model()] + old(Visible())
    {
      hide Inv, IsTree, HashMaps.HashMap.Valid, HashMaps.HashMap.Model;
      assert TablesValid();
      ghost var outer := [old(current)] + old(current).path;
      assert forall s <- outer :: s in old(scopes) by { OuterPath(); }
      assert Tables(outer) == old(Visible());
      assert ([current] + current.path)[1..] == outer;
    }

    twostate lemma OuterPath()
      requires old(TreeValid())
      ensures forall s <- old(current).path :: s in old(scopes)
    {
    }

    method Attach(scope: Scope)
      requires TreeValid() && scope !in scopes && scope.subscope == [] && scope.upref == current && scope.Rooted()
      modifies this, current
      ensures TreeValid() && current == scope && scopes == old(scopes) + {scope} && scope.subscope == []
      ensures old(current).subscope == [scope] + old(current.subscope)
    {
      hide TreeValid;
      current.subscope := [scope] + current.subscope;
      current := scope;
      scopes := scopes + {scope};
      Attached();
    }

    /** One scope has been put in front of the subscopes of the scope that was current. */
    twostate predicate OneMore()
      reads this, scopes
    {
      && old(TreeValid()) && current !in old(scopes) && scopes == old(scopes) + {current}
      && current.upref == old(current) && current.Rooted() && current.subscope == []
      && old(current).subscope == [current] + old(current.subscope)
      && forall s <- old(scopes) :: s != old(current) ==> unchanged(s)
    }

    twostate lemma Attached()
      requires OneMore()
      ensures TreeValid()
    {
      hide OneMore, Scope.Owns, Scope.Rooted;
      AttachedRooted();
      AttachedListed();
      assert current in scopes && global in scopes && global.upref == null by { AttachedRoot(); }
      forall s | s in scopes
        ensures s.Owns(scopes)
      {
        AttachedOwns(s);
      }
    }

    twostate lemma AttachedRoot()
      requires OneMore()
      ensures current in scopes && global in scopes && global.upref == null
    {
    }

    twostate lemma AttachedRooted()
      requires OneMore()
      ensures forall s <- scopes ::
                s.Rooted() && (s != global ==> s.upref != null) && forall a <- s.path :: a in scopes
    {
      var was := old(current);
      assert current.path == [was] + was.path;
      assert forall a <- was.path :: a in old(scopes);
    }

    twostate lemma AttachedOwns(new s: Scope)
      requires OneMore() && s in scopes
      ensures s.Owns(scopes)
    {
      if s != current {
        assert old(s.Owns(scopes));
        if s == old(current) { assert s.subscope[1..] == old(s.subscope); }
      }
    }

    twostate lemma AttachedListed()
      requires OneMore()
      ensures forall s <- scopes :: s.upref != null ==> s in s.upref.subscope
    {
    }

    method Leave()
      requires Valid() && current != global
      modifies this`current
      ensures Valid() && current == old(current).upref
      ensures |old(Visible())| > 1 && Some((Visible(), 0)) == ScopeStack.Step(hash, old(Visible()), ScopeStack.Leave)
    {
      current := current.upref;
    }

    method Install(symbol: Symbol) returns (index: int)
      requires Valid()
      modifies current.lookup, current.lookup.entries
      ensures Valid()
      ensures Some((Visible(), index))
           == ScopeStack.Step(hash, old(Visible()), ScopeStack.Install(symbol.ident, symbol))
    {
      hide TreeValid, TablesValid, Visible, Inv, HashMaps.HashMap.Valid;
      CurrentTable();
      index := current.lookup.Insert(symbol.ident, symbol);
      OuterKept();
    }

    /** Returns if the probe does: the current table has a free slot, or holds the name. */
    method Remove(symbol: Symbol) returns (index: int)
      requires Valid()
      requires current.lookup.inUse < current.lookup.capacity || symbol.ident in Contents(current.lookup.Model().slots)
      modifies current.lookup.entries
      ensures Valid()
      ensures Some((Visible(), index)) == ScopeStack.Step(hash, old(Visible()), ScopeStack.Remove(symbol.ident))
      ensures var (was, now) := (old(current.lookup.entries[..]), current.lookup.entries[..]);
              if index == -1 then now == was
              else && 0 <= index < |was| && was[index].Live? && was[index].key == symbol.ident
                   && now == was[index := Tomb]
    {
      hide TreeValid, TablesValid, Visible, Inv, HashMaps.HashMap.Valid;
      CurrentTable();
      index := current.lookup.Remove(symbol.ident);
      OuterKept();
    }

    lemma CurrentTable()
      requires Valid()
      ensures current in scopes && current.lookup.Valid() && current.lookup.hash == hash
      ensures Visible() != [] && Visible()[0] == current.lookup.Model()
    {
      hide Inv;
    }

    /** An operation on the current table leaves every other table as it is. */
    twostate lemma OuterKept()
      requires old(Valid()) && unchanged(this) && current.lookup.Valid()
      requires forall s <- scopes :: unchanged(s)
      requires current.lookup.entries == old(current.lookup.entries) || fresh(current.lookup.entries)
      requires forall s <- scopes :: old(s.lookup.entries) != old(current.lookup.entries) ==>
                 unchanged(s.lookup) && unchanged(s.lookup.entries)
      ensures Valid() && Visible() == [current.lookup.Model()] + old(Visible())[1..]
    {
      hide Inv, HashMaps.HashMap.Valid;
      assert TreeValid();
      OuterScopes(current);
      ghost var (st, now) := (old(Visible()), Visible());
      forall i | 1 <= i < |st|
        ensures now[i] == st[i]
      {
        var s := current.path[i - 1];
        assert s in scopes && s != current;
      }
      assert now == [now[0]] + st[1..];
    }

    /** A scope is not among its own enclosing scopes, which belong to the table. */
    lemma OuterScopes(s: Scope)
      requires TreeValid() && s in scopes
      ensures forall i :: 0 <= i < |s.path| ==> s.path[i] != s && s.path[i] in scopes
    {
      forall i | 0 <= i < |s.path|
        ensures s.path[i] != s && s.path[i] in scopes
      {
        PathDepth(s, i);
        assert s.path[i] in s.path;
      }
    }

    /** From `scope` outward along `upref`. Returns if every probe on the way does. */
    method LookupFrom(scope: Scope?, name: string) returns (r: Slot<Symbol>)
      requires Valid() && (scope != null ==> scope in scopes)
      requires ScopeStack.Lookup(hash, VisibleFrom(scope), name).Some?
      ensures Some(r) == ScopeStack.Lookup(hash, VisibleFrom(scope), name)
      decreases if scope == null then 0 else 1 + |scope.path|
    {
      hide TreeValid, TablesValid, VisibleFrom, ScopeStack.Lookup, HashRuns.Retrieve, HashMaps.HashMap.Model;
      hide HashMaps.HashMap.Valid, NoExtension, Contents, Inv;
      LookupCases(scope, name);
      if scope == null { return Empty; }
      r := scope.lookup.Retrieve(name);
      if !r.Live? { r := LookupFrom(scope.upref, name); }
    }

    lemma LookupCases(scope: Scope?, name: string)
      requires Valid() && (scope != null ==> scope in scopes)
      requires ScopeStack.Lookup(hash, VisibleFrom(scope), name).Some?
      ensures scope == null ==> ScopeStack.Lookup(hash, VisibleFrom(scope), name) == Some(Empty)
      ensures scope != null ==>
                && scope.lookup.Valid() && scope.lookup.hash == hash
                && (scope.upref != null ==> scope.upref in scopes && |scope.upref.path| < |scope.path|)
                && var r := HashRuns.Retrieve(hash, scope.lookup.Model().slots, name);
                r.Some? && ScopeStack.Lookup(hash, VisibleFrom(scope), name)
                           == if r.value.Live? then r else ScopeStack.Lookup(hash, VisibleFrom(scope.upref), name)
    {
      ScopeStack.LookupStep(hash, VisibleFrom(scope), name);
      hide Inv, TreeValid, TablesValid, VisibleFrom, ScopeStack.Lookup, HashRuns.Retrieve, HashMaps.HashMap.Model;
      if scope == null { NoScope(); } else { VisibleStep(scope); }
    }

    lemma NoScope()
      requires Valid()
      ensures VisibleFrom(null) == []
    {
    }

    lemma VisibleStep(scope: Scope)
      requires Valid() && scope in scopes
      ensures scope.upref != null ==> scope.upref in scopes && |scope.upref.path| < |scope.path|
      ensures var st := VisibleFrom(scope);
              st != [] && st[0] == scope.lookup.Model() && st[1..] == VisibleFrom(scope.upref)
      ensures scope.lookup.Valid() && scope.lookup.hash == hash
    {
      hide Inv;
      assert ([scope] + scope.path)[1..] == scope.path;
      if scope.upref != null { assert scope.upref in scope.path; }
    }

    /** `symtab_destroy`, as far as the scopes go: all of them are freed, each once. */
    method Destroy() returns (freed: seq<Scope>)
      requires TreeValid()
      ensures multiset(freed) == multiset(scopes)
      ensures ChildrenFirst(freed) && SiblingsInOrder(scopes, freed)
    {
      hide IsTree, ChildrenFirst, SiblingsInOrder;
      ghost var height := Deepest(scopes);
      RootInTree(scopes, global);
      freed := DestroyScope(global, height);
      EveryScopeOnce(scopes, global, height);
      FreedChildrenFirst(scopes, global, height, global);
      FreedInOrder(scopes, global, height, global);
    }

    /** Frees the subscopes of a scope, first to last, and then the scope. */
    method DestroyScope(scope: Scope, ghost height: nat) returns (freed: seq<Scope>)
      requires TreeValid() && scope in scopes && Bounded(scopes, height)
      ensures freed == Freed(scopes, global, height, scope)
      decreases height - |scope.path|, 1
    {
      hide IsTree, FreedAll, Bounded;
      freed := [];
      var list := scope.subscope;
      while list != []
        invariant forall c <- list :: c in scope.subscope
        invariant Freed(scopes, global, height, scope)
               == freed + FreedAll(scopes, global, height, scope, list) + [scope]
        decreases |list|
      {
        var tmp := list[0];
        FreedFirst(scopes, global, height, scope, list);
        list := list[1..];
        var more := DestroyScope(tmp, height);
        freed := freed + more;
      }
      NoneFreed(scopes, global, height, scope);
      freed := freed + [scope];
    }

    ghost function VisibleFrom(scope: Scope?): (st: ScopeStack.Stack)
      requires Valid() && (scope != null ==> scope in scopes)
      reads this, scopes, set s | s in scopes :: s.lookup, set s | s in scopes :: s.lookup.entries
      ensures forall i :: 0 <= i < |st| ==> Inv(hash, st[i])
    {
      if scope == null then [] else Tables([scope] + scope.path)
    }
  }

  // ---------- destruction ----------

  ghost predicate Bounded(scopes: set<Scope>, height: nat) {
    forall s <- scopes :: |s.path| <= height
  }

  lemma {:induction false} Deepest(scopes: set<Scope>) returns (height: nat)
    ensures Bounded(scopes, height)
  {
    height := 0;
    if scopes != {} {
      var s :| s in scopes;
      var h := Deepest(scopes - {s});
      height := if h > |s.path| then h else |s.path|;
    }
  }

  lemma PathOf(scopes: set<Scope>, root: Scope, s: Scope, c: Scope)
    requires IsTree(scopes, root) && s in scopes && c in s.subscope
    ensures c in scopes && c.upref == s && c.path == [s] + s.path
  {
    assert s.Owns(scopes);
    assert c.Rooted();
  }

  /** The scopes freed by destroying `s`, in order. */
  ghost function Freed(scopes: set<Scope>, root: Scope, height: nat, s: Scope): seq<Scope>
    requires IsTree(scopes, root) && Bounded(scopes, height) && s in scopes
    reads scopes
    decreases height - |s.path|, 1, 0
  {
    FreedAll(scopes, root, height, s, s.subscope) + [s]
  }

  ghost function FreedAll(scopes: set<Scope>, root: Scope, height: nat, s: Scope, cs: seq<Scope>): seq<Scope>
    requires IsTree(scopes, root) && Bounded(scopes, height) && s in scopes
    requires forall c <- cs :: c in s.subscope
    reads scopes
    decreases height - |s.path|, 0, |cs|
  {
    if cs == [] then []
    else
      PathOf(scopes, root, s, cs[0]);
      Freed(scopes, root, height, cs[0]) + FreedAll(scopes, root, height, s, cs[1..])
  }

  lemma FreedFirst(scopes: set<Scope>, root: Scope, height: nat, s: Scope, cs: seq<Scope>)
    requires IsTree(scopes, root) && Bounded(scopes, height) && s in scopes
    requires cs != [] && forall c <- cs :: c in s.subscope
    ensures cs[0] in scopes && |s.path| < |cs[0].path| <= height
    ensures FreedAll(scopes, root, height, s, cs)
         == Freed(scopes, root, height, cs[0]) + FreedAll(scopes, root, height, s, cs[1..])
  {
    PathOf(scopes, root, s, cs[0]);
  }

  lemma NoneFreed(scopes: set<Scope>, root: Scope, height: nat, s: Scope)
    requires IsTree(scopes, root) && Bounded(scopes, height) && s in scopes
    ensures FreedAll(scopes, root, height, s, []) == []
  {
  }

  /** `x` is `a` or lies below it. */
  ghost predicate Under(a: Scope, x: Scope) {
    x == a || a in x.path
  }

  /** Below a scope means below exactly one of its subscopes. */
  lemma UnderSubscope(scopes: set<Scope>, root: Scope, s: Scope, x: Scope)
    requires IsTree(scopes, root) && s in scopes && x in scopes
    ensures s in x.path <==> exists c <- s.subscope :: Under(c, x)
  {
    if s in x.path {
      var i :| 0 <= i < |x.path| && x.path[i] == s;
      PathDepth(x, i);
      var c := if i == 0 then x else x.path[i - 1];
      if i > 0 {
        PathDepth(x, i - 1);
        assert x.path[i - 1] in x.path;
        assert c.path == x.path[i..];
      }
      assert c.upref == s;
      assert c in s.subscope && Under(c, x);
    }
    if c :| c in s.subscope && Under(c, x) {
      PathOf(scopes, root, s, c);
      if c in x.path {
        var i :| 0 <= i < |x.path| && x.path[i] == c;
        PathDepth(x, i);
        assert x.path[i + 1..][0] == s;
      }
    }
  }

  /** Two scopes of the same depth above a third are the same. */
  lemma SameDepth(a: Scope, b: Scope, x: Scope)
    requires x.Rooted() && Under(a, x) && Under(b, x) && |a.path| == |b.path|
    ensures a == b
  {
    if a in x.path {
      var i :| 0 <= i < |x.path| && x.path[i] == a;
      PathDepth(x, i);
    }
    if b in x.path {
      var j :| 0 <= j < |x.path| && x.path[j] == b;
      PathDepth(x, j);
    }
  }

  /** Destroying a scope frees what lies under it, once, and nothing else. */
  lemma {:induction false} FreedOnce(scopes: set<Scope>, root: Scope, height: nat, s: Scope, x: Scope)
    requires IsTree(scopes, root) && Bounded(scopes, height) && s in scopes && x in scopes
    ensures multiset(Freed(scopes, root, height, s))[x] == if Under(s, x) then 1 else 0
    decreases height - |s.path|, 1, 0
  {
    assert s.Owns(scopes);
    FreedAllOnce(scopes, root, height, s, s.subscope, x);
    UnderSubscope(scopes, root, s, x);
    if s in x.path {
      var i :| 0 <= i < |x.path| && x.path[i] == s;
      PathDepth(x, i);
    }
  }

  lemma {:induction false} FreedAllOnce(scopes: set<Scope>, root: Scope, height: nat,
                                        s: Scope, cs: seq<Scope>, x: Scope)
    requires IsTree(scopes, root) && Bounded(scopes, height) && s in scopes && x in scopes
    requires Distinct(cs) && forall c <- cs :: c in s.subscope
    ensures multiset(FreedAll(scopes, root, height, s, cs))[x] == if exists c <- cs :: Under(c, x) then 1 else 0
    decreases height - |s.path|, 0, |cs|
  {
    if cs != [] {
      PathOf(scopes, root, s, cs[0]);
      FreedOnce(scopes, root, height, cs[0], x);
      FreedAllOnce(scopes, root, height, s, cs[1..], x);
      forall c | c in cs[1..] && Under(c, x)
        ensures !Under(cs[0], x)
      {
        PathOf(scopes, root, s, c);
        if Under(cs[0], x) { SameDepth(c, cs[0], x); }
      }
    }
  }

  lemma {:induction false} FreedWithin(scopes: set<Scope>, root: Scope, height: nat, s: Scope)
    requires IsTree(scopes, root) && Bounded(scopes, height) && s in scopes
    ensures forall x <- Freed(scopes, root, height, s) :: x in scopes
    decreases height - |s.path|, 1, 0
  {
    FreedAllWithin(scopes, root, height, s, s.subscope);
  }

  lemma {:induction false} FreedAllWithin(scopes: set<Scope>, root: Scope, height: nat, s: Scope, cs: seq<Scope>)
    requires IsTree(scopes, root) && Bounded(scopes, height) && s in scopes
    requires forall c <- cs :: c in s.subscope
    ensures forall x <- FreedAll(scopes, root, height, s, cs) :: x in scopes
    decreases height - |s.path|, 0, |cs|
  {
    if cs != [] {
      PathOf(scopes, root, s, cs[0]);
      FreedWithin(scopes, root, height, cs[0]);
      FreedAllWithin(scopes, root, height, s, cs[1..]);
    }
  }

  /** Every scope lies under the root, so destroying the root frees every scope exactly once. */
  lemma EveryScopeOnce(scopes: set<Scope>, root: Scope, height: nat)
    requires IsTree(scopes, root) && Bounded(scopes, height)
    ensures multiset(Freed(scopes, root, height, root)) == multiset(scopes)
  {
    var freed := Freed(scopes, root, height, root);
    FreedWithin(scopes, root, height, root);
    forall x | x in scopes
      ensures multiset(freed)[x] == 1
    {
      UnderRoot(scopes, root, x);
      FreedOnce(scopes, root, height, root, x);
    }
  }

  lemma {:induction false} UnderRoot(scopes: set<Scope>, root: Scope, x: Scope)
    requires IsTree(scopes, root) && x in scopes
    ensures Under(root, x)
    decreases |x.path|
  {
    if x != root {
      assert x.Rooted();
      assert x.upref in x.path;
      UnderRoot(scopes, root, x.upref);
    }
  }

  lemma RootInTree(scopes: set<Scope>, root: Scope)
    requires IsTree(scopes, root)
    ensures root in scopes
  {
  }

  // ---------- the order of destruction ----------

  /** Every scope stands before the scopes that enclose it. */
  ghost predicate ChildrenFirst(freed: seq<Scope>) {
    forall i, j :: 0 <= i < |freed| && 0 <= j < |freed| && freed[j] in freed[i].path ==> i < j
  }

  /** What lies under an earlier subscope stands before what lies under a later one. */
  ghost predicate SiblingsInOrder(scopes: set<Scope>, freed: seq<Scope>)
    reads scopes
  {
    forall p: Scope, a, b, i, j |
      p in scopes && 0 <= a < b < |p.subscope| && 0 <= i < |freed| && 0 <= j < |freed| ::
      Under(p.subscope[a], freed[i]) && Under(p.subscope[b], freed[j]) ==> i < j
  }

  /** Of two scopes above a third, the outer one is above the inner one. */
  lemma Comparable(a: Scope, b: Scope, x: Scope)
    requires x.Rooted() && Under(a, x) && Under(b, x) && |a.path| <= |b.path|
    ensures Under(a, b)
  {
    if b in x.path {
      var j :| 0 <= j < |x.path| && x.path[j] == b;
      PathDepth(x, j);
      if a in x.path {
        var i :| 0 <= i < |x.path| && x.path[i] == a;
        PathDepth(x, i);
        if i > j { assert x.path[j + 1..][i - j - 1] == a; }
      }
    } else if a in x.path {
      var i :| 0 <= i < |x.path| && x.path[i] == a;
      PathDepth(x, i);
    }
  }

  /** What is above a scope above `x` is above `x`. */
  lemma UnderThrough(a: Scope, b: Scope, x: Scope)
    requires x.Rooted() && Under(a, b) && Under(b, x)
    ensures Under(a, x)
  {
    if b in x.path && a != b {
      var j :| 0 <= j < |x.path| && x.path[j] == b;
      PathDepth(x, j);
      var i :| 0 <= i < |b.path| && b.path[i] == a;
      assert x.path[j + 1..][i] == x.path[j + 1 + i];
    }
  }

  lemma TreeScope(scopes: set<Scope>, root: Scope, s: Scope)
    requires IsTree(scopes, root) && s in scopes
    ensures s.Rooted() && Distinct(s.subscope) && forall i :: 0 <= i < |s.subscope| ==> s.subscope[i] in scopes
  {
    assert s.Owns(scopes);
  }

  /** What is freed with `s` is in the tree and lies under `s`. */
  lemma FreedUnder(scopes: set<Scope>, root: Scope, height: nat, s: Scope, x: Scope)
    requires IsTree(scopes, root) && Bounded(scopes, height) && s in scopes
    requires x in Freed(scopes, root, height, s)
    ensures x in scopes && x.Rooted() && Under(s, x)
  {
    hide IsTree, Freed, Bounded;
    FreedWithin(scopes, root, height, s);
    FreedOnce(scopes, root, height, s, x);
    TreeScope(scopes, root, x);
  }

  lemma FreedAllUnder(scopes: set<Scope>, root: Scope, height: nat, s: Scope, cs: seq<Scope>, x: Scope)
    returns (c: Scope)
    requires IsTree(scopes, root) && Bounded(scopes, height) && s in scopes
    requires Distinct(cs) && forall c <- cs :: c in s.subscope
    requires x in FreedAll(scopes, root, height, s, cs)
    ensures x in scopes && x.Rooted() && c in cs && Under(c, x)
    ensures c in scopes && c.path == [s] + s.path
  {
    hide IsTree, FreedAll, Bounded;
    FreedAllWithin(scopes, root, height, s, cs);
    FreedAllOnce(scopes, root, height, s, cs, x);
    TreeScope(scopes, root, x);
    c :| c in cs && Under(c, x);
    PathOf(scopes, root, s, c);
  }

  lemma NotAboveItself(s: Scope, x: Scope)
    requires s.Rooted() && x.Rooted() && Under(s, x)
    ensures x !in s.path
  {
    if x in s.path {
      var i :| 0 <= i < |s.path| && s.path[i] == x;
      PathDepth(s, i);
      if s in x.path {
        var j :| 0 <= j < |x.path| && x.path[j] == s;
        PathDepth(x, j);
      }
    }
  }

  /** Destroying a scope frees every scope under it before the scopes that enclose that one. */
  lemma {:induction false} FreedChildrenFirst(scopes: set<Scope>, root: Scope, height: nat, s: Scope)
    requires IsTree(scopes, root) && Bounded(scopes, height) && s in scopes
    ensures ChildrenFirst(Freed(scopes, root, height, s))
    decreases height - |s.path|, 1, 0
  {
    hide IsTree, Bounded;
    var cs := s.subscope;
    TreeScope(scopes, root, s);
    var all := FreedAll(scopes, root, height, s, cs);
    var freed := all + [s];
    FreedAllChildrenFirst(scopes, root, height, s, cs);
    assert freed == Freed(scopes, root, height, s) by { FreedIs(scopes, root, height, s); }
    forall i, j | 0 <= i < |freed| && 0 <= j < |freed| && freed[j] in freed[i].path
      ensures i < j
    {
      if i == |all| {
        FreedUnder(scopes, root, height, s, freed[j]);
        NotAboveItself(s, freed[j]);
      } else if j < |all| {
        assert all[i] == freed[i] && all[j] == freed[j];
      }
    }
  }

  lemma FreedIs(scopes: set<Scope>, root: Scope, height: nat, s: Scope)
    requires IsTree(scopes, root) && Bounded(scopes, height) && s in scopes
    ensures forall i :: 0 <= i < |s.subscope| ==> s.subscope[i] in s.subscope
    ensures Freed(scopes, root, height, s) == FreedAll(scopes, root, height, s, s.subscope) + [s]
  {
  }

  lemma {:induction false} FreedAllChildrenFirst(scopes: set<Scope>, root: Scope, height: nat, s: Scope, cs: seq<Scope>)
    requires IsTree(scopes, root) && Bounded(scopes, height) && s in scopes
    requires Distinct(cs) && forall c <- cs :: c in s.subscope
    ensures ChildrenFirst(FreedAll(scopes, root, height, s, cs))
    decreases height - |s.path|, 0, |cs|
  {
    hide IsTree, Bounded, Freed;
    if cs != [] {
      FreedFirst(scopes, root, height, s, cs);
      PathOf(scopes, root, s, cs[0]);
      FreedChildrenFirst(scopes, root, height, cs[0]);
      FreedAllChildrenFirst(scopes, root, height, s, cs[1..]);
      var a: seq<Scope> := Freed(scopes, root, height, cs[0]);
      var b: seq<Scope> := FreedAll(scopes, root, height, s, cs[1..]);
      forall i, j | 0 <= i < |a| + |b| && 0 <= j < |a| + |b| && (a + b)[j] in (a + b)[i].path
        ensures i < j
      {
        if i >= |a| && j < |a| {
          ApartInTree(scopes, root, height, s, cs, b[i - |a|], a[j]);
        } else if i >= |a| {
          assert b[i - |a|] == (a + b)[i] && b[j - |a|] == (a + b)[j];
        } else if j < |a| {
          assert a[i] == (a + b)[i] && a[j] == (a + b)[j];
        }
      }
    }
  }

  /** What lies under later subscopes is not below anything under the first. */
  lemma ApartInTree(scopes: set<Scope>, root: Scope, height: nat, s: Scope, cs: seq<Scope>, x: Scope, y: Scope)
    requires IsTree(scopes, root) && Bounded(scopes, height) && s in scopes
    requires cs != [] && Distinct(cs) && forall c <- cs :: c in s.subscope
    requires cs[0] in scopes
    requires x in FreedAll(scopes, root, height, s, cs[1..]) && y in Freed(scopes, root, height, cs[0])
    ensures y !in x.path
  {
    hide IsTree, Bounded, Freed, FreedAll;
    var c := FreedAllUnder(scopes, root, height, s, cs[1..], x);
    FreedUnder(scopes, root, height, cs[0], y);
    PathOf(scopes, root, s, cs[0]);
    if y in x.path {
      UnderThrough(cs[0], y, x);
      SameDepth(c, cs[0], x);
    }
  }

  // ---------- the order of siblings ----------

  lemma {:induction false} FreedInOrder(scopes: set<Scope>, root: Scope, height: nat, s: Scope)
    requires IsTree(scopes, root) && Bounded(scopes, height) && s in scopes
    ensures SiblingsInOrder(scopes, Freed(scopes, root, height, s))
    decreases height - |s.path|, 1, 0
  {
    hide IsTree, Bounded, Distinct;
    TreeScope(scopes, root, s);
    FreedIs(scopes, root, height, s);
    var all := FreedAll(scopes, root, height, s, s.subscope);
    var freed := all + [s];
    FreedAllInOrder(scopes, root, height, s, 0);
    assert s.subscope[0..] == s.subscope;
    forall p: Scope, a, b, i, j
      | p in scopes && 0 <= a < b < |p.subscope| && 0 <= i < |freed| && 0 <= j < |freed|
        && Under(p.subscope[a], freed[i]) && Under(p.subscope[b], freed[j])
      ensures i < j
    {
      if i == |all| {
        FreedUnder(scopes, root, height, s, freed[j]);
        UnderThrough(p.subscope[a], s, freed[j]);
        OneSubscope(scopes, root, p, a, b, freed[j]);
      } else if j < |all| {
        assert all[i] == freed[i] && all[j] == freed[j];
      }
    }
  }

  /** Nothing lies under two subscopes of one scope. */
  lemma OneSubscope(scopes: set<Scope>, root: Scope, p: Scope, a: nat, b: nat, x: Scope)
    requires IsTree(scopes, root) && p in scopes && a < b < |p.subscope| && x.Rooted()
    requires Under(p.subscope[a], x)
    ensures !Under(p.subscope[b], x)
  {
    hide IsTree;
    TreeScope(scopes, root, p);
    PathOf(scopes, root, p, p.subscope[a]);
    PathOf(scopes, root, p, p.subscope[b]);
    if Under(p.subscope[b], x) {
      SameDepth(p.subscope[a], p.subscope[b], x);
      DistinctAt(p.subscope, a, b);
    }
  }

  lemma {:induction false} DistinctAt<T>(xs: seq<T>, a: nat, b: nat)
    requires Distinct(xs) && a < b < |xs|
    ensures xs[a] != xs[b]
    decreases a
  {
    if a == 0 {
      assert xs[b] == xs[1..][b - 1];
    } else {
      DistinctAt(xs[1..], a - 1, b - 1);
    }
  }

  lemma {:induction false} DistinctTail<T>(xs: seq<T>, k: nat)
    requires Distinct(xs) && k <= |xs|
    ensures Distinct(xs[k..])
    decreases k
  {
    if k == 0 {
      assert xs[0..] == xs;
    } else {
      DistinctTail(xs[1..], k - 1);
      assert xs[1..][k - 1..] == xs[k..];
    }
  }

  lemma {:induction false} FreedAllInOrder(scopes: set<Scope>, root: Scope, height: nat, s: Scope, k: nat)
    requires IsTree(scopes, root) && Bounded(scopes, height) && s in scopes && k <= |s.subscope|
    ensures SiblingsInOrder(scopes, FreedAll(scopes, root, height, s, s.subscope[k..]))
    decreases height - |s.path|, 0, |s.subscope| - k
  {
    hide IsTree, Bounded, Freed, Distinct;
    var cs := s.subscope[k..];
    if k < |s.subscope| {
      FreedFirst(scopes, root, height, s, cs);
      assert cs[1..] == s.subscope[k + 1..];
      FreedInOrder(scopes, root, height, cs[0]);
      FreedAllInOrder(scopes, root, height, s, k + 1);
      var u: seq<Scope> := Freed(scopes, root, height, cs[0]);
      var v: seq<Scope> := FreedAll(scopes, root, height, s, cs[1..]);
      var freed := u + v;
      forall p: Scope, a, b, i, j
        | p in scopes && 0 <= a < b < |p.subscope| && 0 <= i < |freed| && 0 <= j < |freed|
          && Under(p.subscope[a], freed[i]) && Under(p.subscope[b], freed[j])
        ensures i < j
      {
        if i >= |u| && j < |u| {
          NotSwapped(scopes, root, height, s, k, p, a, b, v[i - |u|], u[j]);
        } else if i >= |u| {
          assert v[i - |u|] == freed[i] && v[j - |u|] == freed[j];
        } else if j < |u| {
          assert u[i] == freed[i] && u[j] == freed[j];
        }
      }
    }
  }

  /** `x` is freed with a later subscope than the one `y` is freed with, and no pair of siblings says
      otherwise. */
  lemma NotSwapped(scopes: set<Scope>, root: Scope, height: nat, s: Scope, k: nat, p: Scope, a: nat, b: nat,
                   x: Scope, y: Scope)
    requires IsTree(scopes, root) && Bounded(scopes, height) && s in scopes && k < |s.subscope|
    requires s.subscope[k] in scopes && forall c <- s.subscope[k + 1..] :: c in s.subscope
    requires x in FreedAll(scopes, root, height, s, s.subscope[k + 1..])
    requires y in Freed(scopes, root, height, s.subscope[k])
    requires p in scopes && a < b < |p.subscope|
    ensures !(Under(p.subscope[a], x) && Under(p.subscope[b], y))
  {
    hide IsTree, Bounded, Freed, FreedAll, Under, Distinct;
    var first := s.subscope[k];
    TreeScope(scopes, root, s);
    TreeScope(scopes, root, p);
    DistinctTail(s.subscope, k + 1);
    var c := FreedAllUnder(scopes, root, height, s, s.subscope[k + 1..], x);
    FreedUnder(scopes, root, height, first, y);
    PathOf(scopes, root, s, first);
    PathOf(scopes, root, p, p.subscope[a]);
    PathOf(scopes, root, p, p.subscope[b]);
    var m :| 0 <= m < |s.subscope[k + 1..]| && s.subscope[k + 1..][m] == c;
    assert c == s.subscope[k + 1 + m];
    Swapped(scopes, root, s, k, k + 1 + m, p, a, b, x, y);
  }

  lemma Swapped(scopes: set<Scope>, root: Scope, s: Scope, k: nat, l: nat, p: Scope, a: nat, b: nat,
                x: Scope, y: Scope)
    requires IsTree(scopes, root) && s in scopes && p in scopes && x.Rooted() && y.Rooted()
    requires k < l < |s.subscope| && a < b < |p.subscope|
    requires Under(s.subscope[l], x) && Under(s.subscope[k], y)
    ensures !(Under(p.subscope[a], x) && Under(p.subscope[b], y))
  {
    hide IsTree, Under, Distinct;
    TreeScope(scopes, root, s);
    TreeScope(scopes, root, p);
    PathOf(scopes, root, s, s.subscope[k]);
    PathOf(scopes, root, s, s.subscope[l]);
    PathOf(scopes, root, p, p.subscope[a]);
    PathOf(scopes, root, p, p.subscope[b]);
    if !(Under(p.subscope[a], x) && Under(p.subscope[b], y)) { return; }
    if |p.path| < |s.path| {
      // `s` is above both, and below one subscope of `p`
      SubscopeAbove(scopes, root, s, l, x);
      SubscopeAbove(scopes, root, s, k, y);
      Comparable(p.subscope[a], s, x);
      UnderThrough(p.subscope[a], s, y);
      OneSubscope(scopes, root, p, a, b, y);
    } else if |p.path| > |s.path| {
      SubscopeAbove(scopes, root, p, a, x);
      SubscopeAbove(scopes, root, p, b, y);
      Comparable(s.subscope[l], p, x);
      UnderThrough(s.subscope[l], p, y);
      OneSubscope(scopes, root, s, k, l, y);
    } else {
      SameDepth(p.subscope[a], s.subscope[l], x);
      SameDepth(p.subscope[b], s.subscope[k], y);
      SameOwner(scopes, root, p, s, a, l);
      SubscopeIndex(s.subscope, a, l);
      SubscopeIndex(s.subscope, b, k);
    }
  }

  lemma SubscopeAbove(scopes: set<Scope>, root: Scope, s: Scope, k: nat, x: Scope)
    requires IsTree(scopes, root) && s in scopes && k < |s.subscope| && x.Rooted() && Under(s.subscope[k], x)
    ensures Under(s, x)
  {
    PathOf(scopes, root, s, s.subscope[k]);
    UnderThrough(s, s.subscope[k], x);
  }

  lemma SameOwner(scopes: set<Scope>, root: Scope, p: Scope, s: Scope, a: nat, l: nat)
    requires IsTree(scopes, root) && p in scopes && s in scopes && a < |p.subscope| && l < |s.subscope|
    requires p.subscope[a] == s.subscope[l]
    ensures p == s
  {
    PathOf(scopes, root, p, p.subscope[a]);
    PathOf(scopes, root, s, s.subscope[l]);
  }

  lemma SubscopeIndex<T>(xs: seq<T>, a: nat, b: nat)
    requires Distinct(xs) && a < |xs| && b < |xs| && xs[a] == xs[b]
    ensures a == b
  {
    if a < b { DistinctAt(xs, a, b); }
    if b < a { DistinctAt(xs, b, a); }
  }

  lemma {:induction false} PathDepth(s: Scope, i: nat)
    requires s.Rooted() && i < |s.path|
    ensures |s.path[i].path| == |s.path| - 1 - i && s.path[i].Rooted()
    ensures s.path[i].path == s.path[i + 1..]
    decreases i
  {
    if i > 0 { PathDepth(s.upref, i - 1); }
  }

  predicate Distinct<T(==)>(xs: seq<T>) {
    xs == [] || (xs[0] !in xs[1..] && Distinct(xs[1..]))
  }
}
