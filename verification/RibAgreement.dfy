/**
 * What a consumer of the change queue ends up with, over every run of producer calls, refreshes and
 * reads, whatever entries popitem picks.
 */
module RibAgreement {
  import opened Types
  import opened RibQueue
  import opened RibInvariant

  // ---------- every reachable state ----------

  lemma RefreshEstablishes<A>(v: Variant, c: Config<A>, lists: RefreshLists)
    requires Valid(v, c.state, None) && Splits(v, c.state.rib, lists)
    ensures Invariant(v, Config(Refresh(c.state, lists), map[], Live(v, c.state.rib), None))
  {
    var s := c.state;
    var s' := Refresh(s, lists);
    forall p ensures Exempt(v, s', map[], None, p) || Matches(v, s', Settled(v, s', map[], p), p) {
      if p in s.rib && Announced(v, s.rib[p]) {
        assert Queued(s'.refreshing, p, s.rib[p].value);
        SettledByRefresh(v, s', map[], p, s.rib[p].value);
      }
    }
    forall h | h in lists ensures h in s.attrs {
      assert Queued(s'.refreshing, lists[h][0], h);
    }
    var live := Live(v, s.rib);
    assert forall p :: p in live ==> Queued(s'.refreshing, p, live[p]);
  }

  lemma UpdateKeepsInvariant<A>(v: Variant, hash: A -> Hash, c: Config<A>, a: A, ps: seq<Prefix>)
    requires Invariant(v, c) && !c.state.locked
    ensures Invariant(v, c.(state := Update(v, hash, c.state, a, ps)))
  {
    var h := hash(a);
    RegisterKeeps(v, c.state, c.table, h, a);
    AtomicsKeep(v, Register(c.state, h, a), c.table, ps, Some(h));
  }

  lemma WithdrawKeepsInvariant<A>(v: Variant, hash: A -> Hash, c: Config<A>, ps: seq<Prefix>)
    requires Invariant(v, c) && !c.state.locked
    ensures Invariant(v, Step(v, hash, c, DoWithdraw(ps)))
  {
    AtomicsKeep(v, c.state, c.table, ps, None);
  }

  lemma StepKeepsInvariant<A>(v: Variant, hash: A -> Hash, c: Config<A>, op: Op<A>)
    requires Invariant(v, c) && Legal(v, c, op)
    ensures Invariant(v, Step(v, hash, c, op))
  {
    match op
    case DoUpdate(a, ps) => if !c.state.locked { UpdateKeepsInvariant(v, hash, c, a, ps); }
    case DoWithdraw(ps) => if !c.state.locked { WithdrawKeepsInvariant(v, hash, c, ps); }
    case DoRefresh(lists) => if !c.state.locked { RefreshEstablishes(v, c, lists); }
    case DoGet(pick) => GetKeepsInvariant(v, c, pick);
  }

  lemma {:induction false} RunKeepsInvariant<A>(v: Variant, hash: A -> Hash, c: Config<A>, ops: seq<Op<A>>)
    requires Invariant(v, c) && LegalRun(v, hash, c, ops)
    ensures Invariant(v, Run(v, hash, c, ops))
    decreases |ops|
  {
    if ops != [] {
      StepKeepsInvariant(v, hash, c, ops[0]);
      RunKeepsInvariant(v, hash, Step(v, hash, c, ops[0]), ops[1..]);
    }
  }

  lemma StartIsInvariant<A>(v: Variant)
    ensures Invariant<A>(v, Start())
  {}

  ghost predicate Reachable<A>(v: Variant, hash: A -> Hash, ops: seq<Op<A>>, c: Config<A>) {
    LegalRun(v, hash, Start(), ops) && Run(v, hash, Start(), ops) == c
  }

  /** The two views of what is unsent, the table and the attribute store agree in every reachable state. */
  lemma ViewsAgree<A>(v: Variant, hash: A -> Hash, ops: seq<Op<A>>, c: Config<A>)
    requires Reachable(v, hash, ops, c)
    ensures Invariant(v, c) && (v.Intended? ==> !c.state.locked)
  {
    StartIsInvariant<A>(v);
    RunKeepsInvariant(v, hash, Start(), ops);
  }

  // ---------- an independent reading of the producer's calls ----------

  function Assign<T>(m: map<Prefix, T>, ps: seq<Prefix>, x: T): map<Prefix, T> {
    map p | p in m.Keys + (set q | q in ps) :: if p in ps then x else m[p]
  }

  function Say<A>(before: map<Prefix, Option<A>>, op: Op<A>): map<Prefix, Option<A>> {
    match op
    case DoUpdate(a, ps) => Assign(before, ps, Some(a))
    case DoWithdraw(ps) => Assign(before, ps, None)
    case DoRefresh(_) => before
    case DoGet(_) => before
  }

  /** The last thing the producer said about each prefix: its attributes, or that it is withdrawn. */
  function LastSaid<A>(before: map<Prefix, Option<A>>, ops: seq<Op<A>>): map<Prefix, Option<A>>
    decreases |ops|
  {
    if ops == [] then before
    else
      LastSaid(Say(before, ops[0]), ops[1..])
  }

  function HashOf<A>(hash: A -> Hash, said: Option<A>): Path {
    if said.Some? then Some(hash(said.value)) else None
  }

  function Hashed<A>(hash: A -> Hash, said: map<Prefix, Option<A>>): map<Prefix, Path> {
    map p | p in said :: HashOf(hash, said[p])
  }

  lemma AssignFirst<T>(m: map<Prefix, T>, ps: seq<Prefix>, x: T)
    requires ps != []
    ensures Assign(m[ps[0] := x], ps[1..], x) == Assign(m, ps, x)
  {
    assert ps == [ps[0]] + ps[1..];
  }

  lemma {:induction false} AtomicsAssign<A>(v: Variant, s: State<A>, ps: seq<Prefix>, path: Path)
    ensures var r := AtomicUpdates(v, s, ps, path);
      !r.raised ==> r.state.rib == Assign(s.rib, ps, path)
    decreases |ps|
  {
    if ps != [] {
      var first := AtomicUpdate(v, s, ps[0], path);
      if !first.raised {
        AtomicsAssign(v, first.state, ps[1..], path);
        AssignFirst(s.rib, ps, path);
      }
    }
  }

  lemma {:induction false} LockStaysHeld<A>(v: Variant, hash: A -> Hash, c: Config<A>, ops: seq<Op<A>>)
    requires LegalRun(v, hash, c, ops) && c.state.locked
    ensures Run(v, hash, c, ops).state.locked
    decreases |ops|
  {
    if ops != [] { LockStaysHeld(v, hash, Step(v, hash, c, ops[0]), ops[1..]); }
  }

  lemma HashedAssign<A>(hash: A -> Hash, said: map<Prefix, Option<A>>, ps: seq<Prefix>, x: Option<A>)
    ensures Hashed(hash, Assign(said, ps, x)) == Assign(Hashed(hash, said), ps, HashOf(hash, x))
  {}

  lemma UpdateSays<A>(v: Variant, hash: A -> Hash, s: State<A>, a: A, ps: seq<Prefix>, said: map<Prefix, Option<A>>)
    requires !s.locked && s.rib == Hashed(hash, said)
    ensures var s' := Update(v, hash, s, a, ps);
      s'.locked || s'.rib == Hashed(hash, Assign(said, ps, Some(a)))
  {
    HashedAssign(hash, said, ps, Some(a));
    AtomicsAssign(v, Register(s, hash(a), a), ps, Some(hash(a)));
  }

  lemma WithdrawSays<A>(v: Variant, hash: A -> Hash, s: State<A>, ps: seq<Prefix>, said: map<Prefix, Option<A>>)
    requires !s.locked && s.rib == Hashed(hash, said)
    ensures var s' := Withdraw(v, s, ps);
      s'.locked || s'.rib == Hashed(hash, Assign(said, ps, None))
  {
    HashedAssign(hash, said, ps, None);
    AtomicsAssign(v, s, ps, None);
  }

  lemma StepSays<A>(v: Variant, hash: A -> Hash, c: Config<A>, op: Op<A>, said: map<Prefix, Option<A>>)
    requires Legal(v, c, op) && c.state.rib == Hashed(hash, said)
    ensures var s' := Step(v, hash, c, op).state;
      s'.locked || s'.rib == Hashed(hash, Say(said, op))
  {
    if !c.state.locked {
      match op
      case DoUpdate(a, ps) => UpdateSays(v, hash, c.state, a, ps, said);
      case DoWithdraw(ps) => WithdrawSays(v, hash, c.state, ps, said);
      case DoRefresh(_) =>
      case DoGet(pick) => GetLeavesRib(v, c.state, pick);
    } else if op.DoGet? {
      GetLeavesRib(v, c.state, op.pick);
    }
  }

  /** Unless a withdraw has raised, the table holds the last thing said about every prefix. */
  lemma {:induction false} RibIsLastSaid<A>(v: Variant, hash: A -> Hash, c: Config<A>, ops: seq<Op<A>>,
                                            said: map<Prefix, Option<A>>)
    requires LegalRun(v, hash, c, ops) && c.state.rib == Hashed(hash, said)
    ensures var end := Run(v, hash, c, ops).state;
      !end.locked ==> end.rib == Hashed(hash, LastSaid(said, ops))
    decreases |ops|
  {
    if ops != [] {
      var c' := Step(v, hash, c, ops[0]);
      StepSays(v, hash, c, ops[0], said);
      if c'.state.locked {
        LockStaysHeld(v, hash, c', ops[1..]);
      } else {
        RibIsLastSaid(v, hash, c', ops[1..], Say(said, ops[0]));
      }
    }
  }

  // ---------- attributes behind the hashes ----------

  /** Hashing tells the attributes the producer uses apart. */
  ghost predicate Separates<A>(hash: A -> Hash, used: set<A>) {
    forall a, b :: a in used && b in used && hash(a) == hash(b) ==> a == b
  }

  ghost predicate UsesOnly<A>(ops: seq<Op<A>>, used: set<A>) {
    forall i :: 0 <= i < |ops| && ops[i].DoUpdate? ==> ops[i].a in used
  }

  ghost predicate StoreIsHashed<A>(hash: A -> Hash, s: State<A>, used: set<A>) {
    forall h :: h in s.attrs ==> s.attrs[h] in used && hash(s.attrs[h]) == h
  }

  lemma {:induction false} AtomicsLeaveStore<A>(v: Variant, s: State<A>, ps: seq<Prefix>, path: Path)
    ensures AtomicUpdates(v, s, ps, path).state.attrs == s.attrs
    decreases |ps|
  {
    if ps != [] {
      var first := AtomicUpdate(v, s, ps[0], path);
      if !first.raised { AtomicsLeaveStore(v, first.state, ps[1..], path); }
    }
  }

  lemma {:induction false} RunKeepsStore<A>(v: Variant, hash: A -> Hash, c: Config<A>, ops: seq<Op<A>>, used: set<A>)
    requires LegalRun(v, hash, c, ops) && UsesOnly(ops, used) && StoreIsHashed(hash, c.state, used)
    ensures StoreIsHashed(hash, Run(v, hash, c, ops).state, used)
    decreases |ops|
  {
    if ops != [] {
      match ops[0] {
        case DoUpdate(a, ps) => AtomicsLeaveStore(v, Register(c.state, hash(a), a), ps, Some(hash(a)));
        case DoWithdraw(ps) => AtomicsLeaveStore(v, c.state, ps, None);
        case DoRefresh(_) =>
        case DoGet(_) =>
      }
      RunKeepsStore(v, hash, Step(v, hash, c, ops[0]), ops[1..], used);
    }
  }

  /** The first attributes with this hash that an update brings. */
  function FirstWith<A>(hash: A -> Hash, ops: seq<Op<A>>, h: Hash): Option<A> {
    if ops == [] then None
    else if ops[0].DoUpdate? && hash(ops[0].a) == h then Some(ops[0].a)
    else FirstWith(hash, ops[1..], h)
  }

  lemma StepStores<A>(v: Variant, hash: A -> Hash, c: Config<A>, op: Op<A>)
    requires Legal(v, c, op)
    ensures Step(v, hash, c, op).state.attrs ==
      if op.DoUpdate? && !c.state.locked && hash(op.a) !in c.state.attrs then c.state.attrs[hash(op.a) := op.a]
      else c.state.attrs
  {
    match op
    case DoUpdate(a, ps) => AtomicsLeaveStore(v, Register(c.state, hash(a), a), ps, Some(hash(a)));
    case DoWithdraw(ps) => AtomicsLeaveStore(v, c.state, ps, None);
    case DoRefresh(_) =>
    case DoGet(pick) => GetLeavesRib(v, c.state, pick);
  }

  lemma {:induction false} LockedStoresNothing<A>(v: Variant, hash: A -> Hash, c: Config<A>, ops: seq<Op<A>>)
    requires LegalRun(v, hash, c, ops) && c.state.locked
    ensures Run(v, hash, c, ops).state.attrs == c.state.attrs
    decreases |ops|
  {
    if ops != [] {
      StepStores(v, hash, c, ops[0]);
      LockedStoresNothing(v, hash, Step(v, hash, c, ops[0]), ops[1..]);
    }
  }

  /** When hashes collide the first attributes stay: those stored for a hash never change. */
  lemma {:induction false} StoreKeepsFirst<A>(v: Variant, hash: A -> Hash, c: Config<A>, ops: seq<Op<A>>, h: Hash)
    requires LegalRun(v, hash, c, ops) && h in Run(v, hash, c, ops).state.attrs
    ensures h in c.state.attrs ==> Run(v, hash, c, ops).state.attrs[h] == c.state.attrs[h]
    ensures h !in c.state.attrs ==> Some(Run(v, hash, c, ops).state.attrs[h]) == FirstWith(hash, ops, h)
    decreases |ops|
  {
    if ops != [] {
      StepStores(v, hash, c, ops[0]);
      StoreKeepsFirst(v, hash, Step(v, hash, c, ops[0]), ops[1..], h);
      if c.state.locked { LockedStoresNothing(v, hash, c, ops); }
    }
  }

  lemma {:induction false} LastSaidIsUsed<A>(said: map<Prefix, Option<A>>, ops: seq<Op<A>>, used: set<A>)
    requires UsesOnly(ops, used)
    requires forall p :: p in said && said[p].Some? ==> said[p].value in used
    ensures var end := LastSaid(said, ops);
      forall p :: p in end && end[p].Some? ==> end[p].value in used
    decreases |ops|
  {
    if ops != [] {
      LastSaidIsUsed(Say(said, ops[0]), ops[1..], used);
      assert LastSaid(said, ops) == LastSaid(Say(said, ops[0]), ops[1..]);
    }
  }

  // ---------- the consumer's table ----------

  /** What a consumer should hold: the routes last announced and not since withdrawn. */
  function Expected<A>(said: map<Prefix, Option<A>>): Table<A> {
    map p | p in said && said[p].Some? :: Attributes(said[p].value)
  }

  ghost predicate Drained<A>(s: State<A>) {
    s.refreshing.None? && s.byPath == map[]
  }

  lemma DrainedIsSettled<A>(v: Variant, s: State<A>, torn: Option<Prefix>, t: Table<A>, p: Prefix)
    requires Valid(v, s, torn) && Drained(s)
    ensures Settled(v, s, t, p) == Lookup(t, p)
    ensures p in s.pending ==> v.AsWritten? && (s.pending[p].None? || Some(p) == torn)
  {}

  /** In every reachable state, reading everything would give the consumer the expected entry of p. */
  lemma SettledIsExpected<A>(hash: A -> Hash, ops: seq<Op<A>>, c: Config<A>, used: set<A>, p: Prefix)
    requires Reachable(Intended, hash, ops, c) && UsesOnly(ops, used) && Separates(hash, used)
    ensures Settled(Intended, c.state, c.table, p) == Lookup(Expected(LastSaid(map[], ops)), p)
  {
    ViewsAgree(Intended, hash, ops, c);
    RibIsLastSaid(Intended, hash, Start(), ops, map[]);
    RunKeepsStore(Intended, hash, Start(), ops, used);
    LastSaidIsUsed<A>(map[], ops, used);
    assert Matches(Intended, c.state, Settled(Intended, c.state, c.table, p), p);
  }

  /**
   * Eventual agreement. Whatever the producer did, whenever refreshes were asked for and whichever
   * entries the reads picked: a consumer that is told nothing is left holds exactly the live table.
   */
  lemma NothingLeftMeansAgreement<A>(hash: A -> Hash, ops: seq<Op<A>>, c: Config<A>, used: set<A>, pick: Hash)
    requires Reachable(Intended, hash, ops, c) && UsesOnly(ops, used) && Separates(hash, used)
    requires Pickable(c.state, pick) && Get(Intended, c.state, pick).1.NothingLeft?
    ensures c.table == Expected(LastSaid(map[], ops))
  {
    ViewsAgree(Intended, hash, ops, c);
    var want := Expected(LastSaid(map[], ops));
    forall p ensures Lookup(c.table, p) == Lookup(want, p) {
      SettledIsExpected(hash, ops, c, used, p);
      DrainedIsSettled(Intended, c.state, c.torn, c.table, p);
    }
    assert forall p :: (p in c.table) == Lookup(c.table, p).Some?;
    assert forall p :: (p in want) == Lookup(want, p).Some?;
  }

  /**
   * When end-of-RIB is handed out the table is exactly the live table as it was when the last refresh was
   * asked for, whatever updates and withdraws arrived since.
   */
  lemma EndOfRibMeansSnapshot<A>(v: Variant, hash: A -> Hash, ops: seq<Op<A>>, c: Config<A>, pick: Hash)
    requires Reachable(v, hash, ops, c)
    requires Pickable(c.state, pick) && Get(v, c.state, pick).1.EndOfRib?
    ensures c.table.Keys == c.snapshot.Keys
    ensures forall p :: p in c.snapshot ==>
      c.snapshot[p] in c.state.attrs && c.table[p] == RefreshLabel(v, c.state, c.snapshot[p])
  {
    ViewsAgree(v, hash, ops, c);
    assert forall p, h :: !Queued(c.state.refreshing, p, h);
  }
}
