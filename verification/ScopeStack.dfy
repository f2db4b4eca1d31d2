/** What the scopes visible from one point amount to: a stack of tables, innermost first. */
module ScopeStack {
  import opened Tokens
  import opened HashTable
  import opened HashRuns

  type Stack = seq<Table<Symbol>>

  ghost predicate Sane(h: Hash, st: Stack) {
    st != [] && forall i :: 0 <= i < |st| ==> Inv(h, st[i])
  }

  /** `scope_lookup`: the first scope outward with an answer; `None` when a probe never ends. */
  function Lookup(h: Hash, st: Stack, name: string): (r: Option<Slot<Symbol>>)
    requires forall i :: 0 <= i < |st| ==> |st[i].slots| > 0
  {
    if st == [] then Some(Empty)
    else
      var r := Retrieve(h, st[0].slots, name);
      if r.None? || r.value.Live? then r else Lookup(h, st[1..], name)
  }

  lemma LookupStep(h: Hash, st: Stack, name: string)
    requires forall i :: 0 <= i < |st| ==> |st[i].slots| > 0
    ensures st == [] ==> Lookup(h, st, name) == Some(Empty)
    ensures st != [] ==>
              var r := Retrieve(h, st[0].slots, name);
              Lookup(h, st, name) == if r.None? || r.value.Live? then r else Lookup(h, st[1..], name)
  {
  }

  /** The finite maps the tables stand for, innermost first. */
  ghost function Maps(h: Hash, st: Stack): (ms: seq<map<string, Symbol>>)
    requires forall i :: 0 <= i < |st| ==> Inv(h, st[i])
    ensures |ms| == |st| && forall i :: 0 <= i < |st| ==> Inv(h, st[i]) && ms[i] == Contents(st[i].slots)
  {
    if st == [] then []
    else
      assert Inv(h, st[0]);
      [Contents(st[0].slots)] + Maps(h, st[1..])
  }

  lemma MapsAre(h: Hash, st: Stack, ms: seq<map<string, Symbol>>)
    requires forall i :: 0 <= i < |st| ==> Inv(h, st[i])
    requires |ms| == |st| && forall i :: 0 <= i < |st| ==> Inv(h, st[i]) && ms[i] == Contents(st[i].slots)
    ensures ms == Maps(h, st)
  {
    hide Inv;
  }

  /** The innermost binding of `name` in a stack of maps. */
  function Innermost(ms: seq<map<string, Symbol>>, name: string): Option<Symbol> {
    if ms == [] then None
    else if name in ms[0] then Some(ms[0][name])
    else Innermost(ms[1..], name)
  }

  /** No visible name properly extends `name`, and no visible table is full. */
  ghost predicate Clear(h: Hash, st: Stack, name: string) {
    forall i :: 0 <= i < |st| ==>
      Inv(h, st[i]) && st[i].inUse < |st[i].slots| && NoExtension(Contents(st[i].slots), name)
  }

  /** What a lookup of `name` answers when the innermost binding is `b`. */
  function Answer(name: string, b: Option<Symbol>): Slot<Symbol> {
    match b
    case Some(sym) => Live(name, sym)
    case None => Empty
  }

  /** Lookup answers with the innermost binding, in tables with a free slot, for a name that no
      name bound on the way properly extends. */
  lemma {:induction false} LookupIsInnermost(h: Hash, st: Stack, name: string)
    requires Clear(h, st, name)
    ensures Lookup(h, st, name) == Some(Answer(name, Innermost(Maps(h, st), name)))
  {
    hide Retrieve, NoExtension, Contents;
    if st != [] {
      assert Inv(h, st[0]);
      FirstAnswers(h, st[0], name);
      if name !in Contents(st[0].slots) {
        LookupIsInnermost(h, st[1..], name);
        MapsAre(h, st[1..], Maps(h, st)[1..]);
      }
    }
  }

  lemma FirstAnswers(h: Hash, t: Table<Symbol>, name: string)
    requires Inv(h, t) && t.inUse < |t.slots| && NoExtension(Contents(t.slots), name)
    ensures var m := Contents(t.slots);
            Retrieve(h, t.slots, name) == Some(if name in m then Live(name, m[name]) else Empty)
  {
    LookupExact(h, t, name);
  }

  // ---------- runs ----------

  datatype Op = Enter | Leave | Install(key: string, sym: Symbol) | Remove(key: string)

  /** One operation, and the index or -1 that an install or a removal returns; `None` when a removal
      never ends. Leaving the last scope is not asked for. */
  ghost function Step(h: Hash, st: Stack, op: Op): (r: Option<(Stack, int)>)
    requires Sane(h, st) && (op.Leave? ==> |st| > 1)
    ensures r.Some? ==> Sane(h, r.value.0)
  {
    match op
    case Enter =>
      FreshIsEmpty<Symbol>(h, HashTable.DEFAULT);
      Some(([Create()] + st, 0))
    case Leave => Some((st[1..], 0))
    case Install(k, s) =>
      var (t, code) := Insert(h, st[0], k, s);
      Some(([t] + st[1..], code))
    case Remove(k) =>
      var r := HashTable.Remove(h, st[0], k);
      if r.None? then None else Some(([r.value.0] + st[1..], r.value.1))
  }

  /** The same operation on a stack of maps: the first install of a name in a scope wins, and an install
      answered with -1 does nothing. */
  function MapStep(ms: seq<map<string, Symbol>>, op: Op, code: int): (ms': seq<map<string, Symbol>>)
    requires ms != []
  {
    match op
    case Enter => [map[]] + ms
    case Leave => ms[1..]
    case Install(k, s) => if k in ms[0] || code == -1 then ms else [ms[0][k := s]] + ms[1..]
    case Remove(k) => [ms[0] - {k}] + ms[1..]
  }

  function DepthAfter(op: Op, d: nat): nat {
    match op
    case Enter => d + 1
    case Leave => if d == 0 then 0 else d - 1
    case _ => d
  }

  /** The nesting depth a run ends at, from depth `d`; `None` if it leaves a scope it did not enter. */
  function Depth(ops: seq<Op>, d: nat): Option<nat> {
    if ops == [] then Some(d)
    else if ops[0].Leave? && d == 0 then None
    else Depth(ops[1..], DepthAfter(ops[0], d))
  }

  /** A run, with what each operation returned. */
  ghost function Run(h: Hash, st: Stack, ops: seq<Op>, d: nat): (r: Option<(Stack, seq<int>)>)
    requires Sane(h, st) && d < |st| && Depth(ops, d).Some?
    ensures r.Some? ==> Sane(h, r.value.0) && |r.value.1| == |ops|
    decreases ops
  {
    if ops == [] then Some((st, []))
    else
      StepDepth(h, st, ops[0], d);
      var s := Step(h, st, ops[0]);
      if s.None? then None
      else
        var r := Run(h, s.value.0, ops[1..], DepthAfter(ops[0], d));
        if r.None? then None else Some((r.value.0, [s.value.1] + r.value.1))
  }

  lemma StepDepth(h: Hash, st: Stack, op: Op, d: nat)
    requires Sane(h, st) && d < |st| && (op.Leave? ==> d > 0)
    ensures var s := Step(h, st, op); s.Some? ==> |s.value.0| - DepthAfter(op, d) == |st| - d
  {
    hide Inv;
  }

  function MapRun(ms: seq<map<string, Symbol>>, ops: seq<Op>, codes: seq<int>, d: nat): seq<map<string, Symbol>>
    requires d < |ms| && Depth(ops, d).Some? && |codes| == |ops|
    decreases ops
  {
    if ops == [] then ms
    else MapRun(MapStep(ms, ops[0], codes[0]), ops[1..], codes[1..], DepthAfter(ops[0], d))
  }

  lemma StepRefinesMaps(h: Hash, st: Stack, op: Op)
    requires Sane(h, st) && (op.Leave? ==> |st| > 1)
    ensures var s := Step(h, st, op); s.Some? ==> Maps(h, s.value.0) == MapStep(Maps(h, st), op, s.value.1)
  {
    hide Inv, Contents, Unique, Create;
    FirstScope(h);
    var s := Step(h, st, op);
    if s.Some? { MapsAre(h, s.value.0, MapStep(Maps(h, st), op, s.value.1)); }
  }

  lemma FirstScope(h: Hash)
    ensures Inv(h, Create<Symbol>()) && Contents(Create<Symbol>().slots) == map[]
  {
    FreshIsEmpty<Symbol>(h, HashTable.DEFAULT);
  }

  /** Over every run of enters, leaves, installs and removes, the visible tables stand for the stack of
      maps that the same run makes of the same stack of maps. */
  lemma {:induction false} RunRefinesMaps(h: Hash, st: Stack, ops: seq<Op>, d: nat)
    requires Sane(h, st) && d < |st| && Depth(ops, d).Some?
    ensures var r := Run(h, st, ops, d);
            r.Some? ==> Maps(h, r.value.0) == MapRun(Maps(h, st), ops, r.value.1, d)
    decreases ops
  {
    hide Step, MapStep, Maps, Inv;
    if ops != [] {
      var s := Step(h, st, ops[0]);
      StepDepth(h, st, ops[0], d);
      StepRefinesMaps(h, st, ops[0]);
      if s.Some? {
        RunRefinesMaps(h, s.value.0, ops[1..], DepthAfter(ops[0], d));
      }
    }
  }

  /** The one scope of a new symbol table. */
  lemma CreatedStack(h: Hash)
    ensures Sane(h, [Create()]) && Named(h, [Create()]) && Maps(h, [Create()]) == [map[]]
  {
    FreshIsEmpty<Symbol>(h, HashTable.DEFAULT);
    MapsAre(h, [Create()], [map[]]);
  }

  /** Over every run from a new symbol table, lookups answer with the innermost binding of the stack of
      maps that the run makes, for names that no visible name properly extends, in tables with a free
      slot. */
  lemma CreatedRunLooksUp(h: Hash, ops: seq<Op>, name: string)
    requires Depth(ops, 0).Some?
    ensures Sane(h, [Create()])
    ensures var r := Run(h, [Create()], ops, 0);
            r.Some? && Clear(h, r.value.0, name) ==>
              Lookup(h, r.value.0, name) == Some(Answer(name, Innermost(MapRun([map[]], ops, r.value.1, 0), name)))
  {
    CreatedStack(h);
    hide Run, Clear, Maps, Inv;
    var r := Run(h, [Create()], ops, 0);
    RunRefinesMaps(h, [Create()], ops, 0);
    if r.Some? && Clear(h, r.value.0, name) { LookupIsInnermost(h, r.value.0, name); }
  }

  lemma StepKeepsOuter(h: Hash, st: Stack, op: Op, d: nat)
    requires Sane(h, st) && d < |st| && (op.Leave? ==> d > 0) && (d > 0 || op.Enter?)
    ensures var s := Step(h, st, op); s.Some? ==> s.value.0[DepthAfter(op, d)..] == st[d..]
  {
    hide Inv;
  }

  /** A run inside `d` scopes of its own touches only those: every scope further out keeps its very
      table, whatever is installed and removed. At depth 0 the outer scope is the current one, and
      the operations at that depth are all enters. */
  lemma {:induction false} RunKeepsOuter(h: Hash, st: Stack, ops: seq<Op>, d: nat)
    requires Sane(h, st) && d < |st| && Depth(ops, d).Some?
    requires Nested(ops, d)
    ensures var r := Run(h, st, ops, d);
            var e := Depth(ops, d).value;
            r.Some? ==> |r.value.0| == |st| - d + e && r.value.0[e..] == st[d..]
    decreases ops
  {
    hide Sane, Step;
    if ops != [] {
      var s := Step(h, st, ops[0]);
      StepDepth(h, st, ops[0], d);
      StepKeepsOuter(h, st, ops[0], d);
      if s.Some? {
        RunKeepsOuter(h, s.value.0, ops[1..], DepthAfter(ops[0], d));
      }
    }
  }

  /** Installs and removes happen inside scopes the run has entered. */
  predicate Nested(ops: seq<Op>, d: nat)
    requires Depth(ops, d).Some?
    decreases ops
  {
    ops == [] || ((ops[0].Install? || ops[0].Remove? ==> d > 0) && Nested(ops[1..], DepthAfter(ops[0], d)))
  }

  /** After a balanced run of enters and leaves with any installs and removes inside, every lookup
      from the outer scope answers what it answered before. */
  lemma BalancedRunKeepsLookups(h: Hash, st: Stack, ops: seq<Op>, name: string)
    requires Sane(h, st) && Depth(ops, 0) == Some(0) && Nested(ops, 0)
    ensures var r := Run(h, st, ops, 0);
            r.Some? ==> r.value.0 == st && Lookup(h, r.value.0, name) == Lookup(h, st, name)
  {
    RunKeepsOuter(h, st, ops, 0);
    var r := Run(h, st, ops, 0);
    if r.Some? { assert r.value.0[0..] == r.value.0 && st[0..] == st; }
  }

  // ---------- what the parser is answered ----------

  /** Every symbol is bound to its own name, as `symtab_install` binds it. */
  ghost predicate Named(h: Hash, st: Stack) {
    (forall i :: 0 <= i < |st| ==> Inv(h, st[i])) &&
    forall i, k :: 0 <= i < |st| && k in Contents(st[i].slots) ==> Contents(st[i].slots)[k].ident == k
  }

  predicate InstallsNamed(ops: seq<Op>) {
    forall op <- ops :: op.Install? ==> op.key == op.sym.ident
  }

  lemma StepKeepsNames(h: Hash, st: Stack, op: Op)
    requires Sane(h, st) && Named(h, st) && (op.Leave? ==> |st| > 1) && (op.Install? ==> op.key == op.sym.ident)
    ensures var s := Step(h, st, op); s.Some? ==> Named(h, s.value.0)
  {
    hide Unique, Chained, Contents;
    FreshIsEmpty<Symbol>(h, HashTable.DEFAULT);
  }

  lemma {:induction false} RunKeepsNames(h: Hash, st: Stack, ops: seq<Op>, d: nat)
    requires Sane(h, st) && d < |st| && Depth(ops, d).Some? && Named(h, st) && InstallsNamed(ops)
    ensures var r := Run(h, st, ops, d); r.Some? ==> Named(h, r.value.0)
    decreases ops
  {
    hide Sane, Named, Step;
    if ops != [] {
      var s := Step(h, st, ops[0]);
      StepDepth(h, st, ops[0], d);
      StepKeepsNames(h, st, ops[0]);
      if s.Some? {
        RunKeepsNames(h, s.value.0, ops[1..], DepthAfter(ops[0], d));
      }
    }
  }

  /** Lookups of the given names return, and `env` has the symbols they answer with. */
  ghost predicate Answers(h: Hash, st: Stack, names: set<string>, env: Env) {
    (forall i :: 0 <= i < |st| ==> |st[i].slots| > 0) && env.Keys <= names &&
    forall n :: n in names ==>
      var r := Lookup(h, st, n);
      r.Some? && (n in env <==> r.value.Live?) && (n in env ==> r.value.value == env[n])
  }

  /** After every run from a new symbol table, in which symbols are installed under their own names, the
      parser is answered each name with a symbol of that very name, as long as no visible name
      properly extends it and no visible table is full. */
  lemma ScopesAnswerExactly(h: Hash, ops: seq<Op>, names: set<string>, env: Env)
    requires Depth(ops, 0).Some? && InstallsNamed(ops)
    ensures Sane(h, [Create()])
    ensures var r := Run(h, [Create()], ops, 0);
            r.Some? && Answers(h, r.value.0, names, env) && (forall n :: n in names ==> Clear(h, r.value.0, n)) ==>
              ExactEnv(env)
  {
    CreatedStack(h);
    hide Run, Inv, Answers;
    RunKeepsNames(h, [Create()], ops, 0);
    var r := Run(h, [Create()], ops, 0);
    if r.Some? && Answers(h, r.value.0, names, env) && forall n :: n in names ==> Clear(h, r.value.0, n) {
      NamedAnswerExactly(h, r.value.0, names, env);
    }
  }

  lemma NamedAnswerExactly(h: Hash, st: Stack, names: set<string>, env: Env)
    requires Named(h, st) && Answers(h, st, names, env) && forall n :: n in names ==> Clear(h, st, n)
    ensures ExactEnv(env)
  {
    hide Inv, Lookup, Contents, Clear;
    forall n | n in env
      ensures env[n].ident == n
    {
      LookupIsInnermost(h, st, n);
      InnermostNamed(h, st, n);
    }
  }

  lemma {:induction false} InnermostNamed(h: Hash, st: Stack, name: string)
    requires Named(h, st)
    ensures var b := Innermost(Maps(h, st), name); b.Some? ==> b.value.ident == name
  {
    hide Inv, Contents;
    if st != [] {
      InnermostNamed(h, st[1..], name);
      MapsAre(h, st[1..], Maps(h, st)[1..]);
    }
  }
}
