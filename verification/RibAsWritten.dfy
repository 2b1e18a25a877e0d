/** Where BGPribdb.py as written falls short of its own comments, and exactly when it does not. */
module RibAsWritten {
  import opened Types
  import opened RibQueue
  import opened RibInvariant
  import opened RibAgreement
  import opened RibDrain

  /**
   * "UNLESS the RIB is unchanged schedule update sending": as written atomic_update does that exactly for a
   * change of the table whose path list exists. A duplicate is scheduled again, a missing list raises.
   */
  lemma AtomicUpdateMeetsComment<A>(s: State<A>, p: Prefix, path: Path)
    ensures AtomicUpdate(AsWritten, s, p, path) == AtomicUpdate(Intended, s, p, path) <==>
      path in s.byPath && !(p in s.rib && s.rib[p] == path)
  {
    var written := AtomicUpdate(AsWritten, s, p, path);
    if path in s.byPath && p in s.rib && s.rib[p] == path {
      assert |written.state.byPath[path]| == |s.byPath[path]| + 1;
    }
  }

  lemma {:induction false} AtomicsRaise<A>(s: State<A>, ps: seq<Prefix>, path: Path)
    ensures AtomicUpdates(AsWritten, s, ps, path).raised <==> ps != [] && path !in s.byPath
    decreases |ps|
  {
    if ps != [] && path in s.byPath {
      AtomicsRaise(AtomicUpdate(AsWritten, s, ps[0], path).state, ps[1..], path);
    }
  }

  /**
   * A withdraw raises, and leaves the lock held for ever, exactly when the list of withdraws is gone; the
   * first prefix is then withdrawn in the table but never queued. An update never raises.
   */
  lemma WithdrawRaises<A>(s: State<A>, hash: A -> Hash, a: A, ps: seq<Prefix>)
    requires !s.locked
    ensures Withdraw(AsWritten, s, ps).locked <==> ps != [] && None !in s.byPath
    ensures Withdraw(AsWritten, s, ps).locked ==>
      Withdraw(AsWritten, s, ps) == s.(rib := s.rib[ps[0] := None], locked := true)
    ensures !Update(AsWritten, hash, s, a, ps).locked
  {
    AtomicsRaise(s, ps, None);
    AtomicsRaise(Register(s, hash(a), a), ps, Some(hash(a)));
  }

  lemma NoWithdrawIsDelivered<A>(s: State<A>, pick: Hash)
    requires Pickable(s, pick)
    ensures var reply := Get(AsWritten, s, pick).1; !(reply.Batch? && reply.tag.Withdrawn?)
  {}

  lemma StepKeepsKeys<A>(hash: A -> Hash, c: Config<A>, op: Op<A>)
    requires Legal(AsWritten, c, op) && (op.DoRefresh? ==> c.state.locked)
    ensures c.table.Keys <= Step(AsWritten, hash, c, op).table.Keys
    ensures c.state.locked ==> var s := Step(AsWritten, hash, c, op).state; s.locked && s.rib == c.state.rib
  {
    if op.DoGet? {
      NoWithdrawIsDelivered(c.state, op.pick);
      GetLeavesRib(AsWritten, c.state, op.pick);
    }
  }

  /**
   * As written a prefix leaves the consumer's table only by a refresh; and once a withdraw has raised, a
   * refresh never returns either, so that nothing leaves the table and the routes never change again.
   */
  lemma {:induction false} TableOnlyGrows<A>(hash: A -> Hash, c: Config<A>, ops: seq<Op<A>>)
    requires LegalRun(AsWritten, hash, c, ops)
    requires c.state.locked || forall i :: 0 <= i < |ops| ==> !ops[i].DoRefresh?
    ensures var end := Run(AsWritten, hash, c, ops);
      c.table.Keys <= end.table.Keys && (c.state.locked ==> end.state.locked && end.state.rib == c.state.rib)
    decreases |ops|
  {
    if ops != [] {
      StepKeepsKeys(hash, c, ops[0]);
      TableOnlyGrows(hash, Step(AsWritten, hash, c, ops[0]), ops[1..]);
    }
  }

  /** "Nothing left" is reported truthfully exactly when no path but the list of withdraws was queued. */
  lemma NothingLeftIsTrue<A>(s: State<A>, pick: Hash)
    requires HashesResolve(s) && Pickable(s, pick) && Get(AsWritten, s, pick).1.NothingLeft?
    ensures Drained(Get(AsWritten, s, pick).0) <==> forall path :: path in s.byPath ==> path.None?
  {
    GetCounts(AsWritten, s, pick);
    if forall path :: path in s.byPath ==> path.None? {
      assert (s.byPath - {None}).Keys == {};
    }
  }

  /**
   * Outside a refresh, lock held or not: as written the path a consumer routes by is wrong exactly if it waits
   * for an announcement of another, holds a route whose withdraw sits in update_requests or has raised, or
   * holds none where the hash in the table is zero. A bare hash counts as its path here.
   */
  lemma PathShortfall<A>(hash: A -> Hash, ops: seq<Op<A>>, c: Config<A>, p: Prefix)
    requires Reachable(AsWritten, hash, ops, c) && c.state.refreshing.None?
    ensures !Matches(AsWritten, c.state, Lookup(c.table, p), p) <==>
      if Waiting(c.state, p) then
        !(p in c.table && Denotes(AsWritten, c.state, c.table[p], c.state.pending[p].value))
      else if p in c.table then p in c.state.pending || c.torn == Some(p)
      else p in c.state.rib && c.state.rib[p] == Some(0)
  {
    ViewsAgree(AsWritten, hash, ops, c);
    assert Exempt(AsWritten, c.state, c.table, c.torn, p)
        || Matches(AsWritten, c.state, Settled(AsWritten, c.state, c.table, p), p);
  }

  /** A refresh as written announces every live route exactly if no live hash is zero. */
  lemma RefreshCoversLive(rib: map<Prefix, Path>)
    ensures Live(AsWritten, rib) == Live(Intended, rib) <==> forall p :: p in rib ==> rib[p] != Some(0)
  {
    if p :| p in rib && rib[p] == Some(0) {
      assert p in Live(Intended, rib) && p !in Live(AsWritten, rib);
    }
  }

  // ---------- runs that lose a withdraw ----------

  const P := Prefix(24, 0xC0000200)

  /** Step i of the run takes configuration i to configuration i + 1. */
  ghost predicate Traces<A>(hash: A -> Hash, ops: seq<Op<A>>, at: nat -> Config<A>, i: nat)
    requires i < |ops|
  {
    Legal(AsWritten, at(i), ops[i]) && Step(AsWritten, hash, at(i), ops[i]) == at(i + 1)
  }

  lemma {:induction false} TraceRuns<A>(hash: A -> Hash, ops: seq<Op<A>>, at: nat -> Config<A>)
    requires forall i :: 0 <= i < |ops| ==> Traces(hash, ops, at, i)
    ensures LegalRun(AsWritten, hash, at(0), ops) && Run(AsWritten, hash, at(0), ops) == at(|ops|)
    decreases |ops|
  {
    if ops != [] {
      var next := (i: nat) => at(i + 1);
      assert Traces(hash, ops, at, 0);
      forall i | 0 <= i < |ops[1..]| ensures Traces(hash, ops[1..], next, i) {
        assert Traces(hash, ops, at, i + 1);
      }
      TraceRuns(hash, ops[1..], next);
    }
  }

  lemma OneAtomic<A>(s: State<A>, path: Path)
    ensures AtomicUpdates(AsWritten, s, [P], path) == AtomicUpdate(AsWritten, s, P, path)
  {
    var first := AtomicUpdate(AsWritten, s, P, path);
    assert [P][1..] == [];
    assert AtomicUpdates(AsWritten, first.state, [], path) == Attempt(first.state, false);
  }

  function AfterAnnounce<A>(a: A, h: Hash): State<A> {
    State(map[P := Some(h)], map[h := a], map[P := Some(h)], map[None := [], Some(h) := [P]], None, false)
  }

  lemma Announce<A>(hash: A -> Hash, a: A)
    ensures Update(AsWritten, hash, Initial(), a, [P]) == AfterAnnounce(a, hash(a))
  {
    OneAtomic(Register(Initial(), hash(a), a), Some(hash(a)));
    assert [] + [P] == [P];
  }

  /** The first read of any run throws the list of withdraws away. */
  function Opened<A>(a: A, h: Hash): State<A> {
    AfterAnnounce(a, h).(byPath := map[Some(h) := [P]])
  }

  lemma FirstRead<A>(a: A, h: Hash)
    ensures Get(AsWritten, AfterAnnounce(a, h), h) == (Opened(a, h), NothingLeft)
  {
    var byPath: map<Path, seq<Prefix>> := map[None := [], Some(h) := [P]];
    assert byPath - {None} == map[Some(h) := [P]];
  }

  function Torn<A>(s: State<A>): State<A> {
    s.(rib := s.rib[P := None], locked := true)
  }

  lemma WithdrawTears<A>(hash: A -> Hash, a: A, s: State<A>)
    requires !s.locked && None !in s.byPath
    ensures Withdraw(AsWritten, s, [P]) == Torn(s)
  {
    WithdrawRaises(s, hash, a, [P]);
  }

  lemma SecondRead<A>(a: A, h: Hash)
    ensures Get(AsWritten, Opened(a, h), h) ==
      (Opened(a, h).(byPath := map[], pending := map[]), Batch(Attributes(a), [P]))
  {
    var s := Opened(a, h);
    GroomExact(s.rib, s.pending, Some(h), [P]);
    assert [P][1..] == [];
    assert s.byPath - {Some(h)} == map[];
    assert s.pending - {P} == map[];
    assert [P] + [] == [P];
  }

  lemma TornRead<A>(a: A, h: Hash)
    ensures Get(AsWritten, Torn(Opened(a, h)), h) == (Torn(Opened(a, h)).(byPath := map[]), Batch(Attributes(a), []))
  {
    var s := Torn(Opened(a, h));
    assert Groom(s.rib, s.pending, Some(h), [P]) == ([], s.pending) by { assert [P][1..] == []; }
    assert s.byPath - {Some(h)} == map[];
  }

  /** Announce, read twice, withdraw: the ordinary way to lose a withdraw. */
  function TornRun<A>(a: A, h: Hash): seq<Op<A>> {
    [DoUpdate(a, [P]), DoGet(h), DoGet(h), DoWithdraw([P])]
  }

  /** The table, queue and consumer after the first i steps of that run. */
  function TornConfig<A>(a: A, h: Hash, i: nat): Config<A> {
    var read := Opened(a, h).(byPath := map[], pending := map[]);
    var held: Table<A> := map[P := Attributes(a)];
    if i == 0 then Start()
    else if i == 1 then Config(AfterAnnounce(a, h), map[], map[], None)
    else if i == 2 then Config(Opened(a, h), map[], map[], None)
    else if i == 3 then Config(read, held, map[], None)
    else Config(Torn(read), held, map[], Some(P))
  }

  /** The queue is empty, nothing is pending, the lock is held, and the consumer keeps a withdrawn route for good. */
  lemma WithdrawIsTorn<A>(hash: A -> Hash, a: A)
    ensures var c := TornConfig(a, hash(a), 4);
      && Reachable(AsWritten, hash, TornRun(a, hash(a)), c)
      && c.state.locked && Drained(c.state) && c.state.pending == map[]
      && c.state.rib == map[P := None] && c.table.Keys == {P}
  {
    var h := hash(a);
    var ops, at := TornRun(a, h), (i: nat) => TornConfig(a, h, i);
    Announce(hash, a);
    FirstRead(a, h);
    SecondRead(a, h);
    WithdrawTears(hash, a, TornConfig(a, h, 3).state);
    assert Apply(map[], Batch(Attributes(a), [P])) == map[P := Attributes(a)];
    assert Traces(hash, ops, at, 0);
    assert Traces(hash, ops, at, 1);
    assert Traces(hash, ops, at, 2);
    assert Traces(hash, ops, at, 3);
    TraceRuns(hash, ops, at);
  }

  /** The same calls with the withdraw before the second read. */
  function TornEarlyRun<A>(a: A, h: Hash): seq<Op<A>> {
    [DoUpdate(a, [P]), DoGet(h), DoWithdraw([P]), DoGet(h)]
  }

  function TornEarlyConfig<A>(a: A, h: Hash, i: nat): Config<A> {
    if i <= 2 then TornConfig(a, h, i)
    else if i == 3 then Config(Torn(Opened(a, h)), map[], map[], Some(P))
    else Config(Torn(Opened(a, h)).(byPath := map[]), map[], map[], Some(P))
  }

  /** The stale announcement is then dropped from its list and stays in update_requests for good. */
  lemma AnnouncementIsStranded<A>(hash: A -> Hash, a: A)
    ensures var c := TornEarlyConfig(a, hash(a), 4);
      && Reachable(AsWritten, hash, TornEarlyRun(a, hash(a)), c)
      && c.state.byPath == map[] && c.state.pending == map[P := Some(hash(a))] && c.state.rib == map[P := None]
  {
    var h := hash(a);
    var ops, at := TornEarlyRun(a, h), (i: nat) => TornEarlyConfig(a, h, i);
    Announce(hash, a);
    FirstRead(a, h);
    WithdrawTears(hash, a, Opened(a, h));
    TornRead(a, h);
    assert Apply<A>(map[], Batch(Attributes(a), [])) == map[];
    assert Traces(hash, ops, at, 0);
    assert Traces(hash, ops, at, 1);
    assert Traces(hash, ops, at, 2);
    assert Traces(hash, ops, at, 3);
    TraceRuns(hash, ops, at);
  }

  /** Announce, refresh, read it all, withdraw, read until told nothing is left: no call ever raises. */
  function LosingRun<A>(a: A, h: Hash): seq<Op<A>> {
    [DoUpdate(a, [P]), DoRefresh(map[h := [P]]), DoGet(h), DoGet(h), DoWithdraw([P]), DoGet(h), DoGet(h)]
  }

  function LosingConfig<A>(a: A, h: Hash, i: nat): Config<A> {
    var refreshed := AfterAnnounce(a, h).(
      byPath := map[None := []], pending := map[], refreshing := Some(map[h := [P]]));
    var ended := refreshed.(refreshing := None);
    var withdrawn := ended.(rib := map[P := None], pending := map[P := None], byPath := map[None := [P]]);
    if i == 0 then Start()
    else if i == 1 then Config(AfterAnnounce(a, h), map[], map[], None)
    else if i == 2 then Config(refreshed, map[], map[P := h], None)
    else if i == 3 then Config(refreshed.(refreshing := Some(map[])), map[P := RawHash(h)], map[P := h], None)
    else if i == 4 then Config(ended, map[P := RawHash(h)], map[P := h], None)
    else if i == 5 then Config(withdrawn, map[P := RawHash(h)], map[P := h], None)
    else Config(withdrawn.(byPath := map[]), map[P := RawHash(h)], map[P := h], None)
  }

  /** Step i of the losing run does what LosingConfig says. */
  ghost predicate Loses<A>(hash: A -> Hash, a: A, i: nat)
    requires i < 7
  {
    Traces(hash, LosingRun(a, hash(a)), (j: nat) => LosingConfig(a, hash(a), j), i)
  }

  lemma LosingRefresh<A>(hash: A -> Hash, a: A)
    requires hash(a) != 0
    ensures Loses(hash, a, 0) && Loses(hash, a, 1)
  {
    Announce(hash, a);
  }

  lemma LosingRefreshItem<A>(hash: A -> Hash, a: A)
    ensures Loses(hash, a, 2)
  {
    var h := hash(a);
    var c := LosingConfig(a, h, 2);
    var lists: RefreshLists := map[h := [P]];
    assert lists - {h} == map[];
    assert Apply(c.table, Batch(RawHash(h), [P])) == map[P := RawHash(h)];
  }

  lemma LosingWithdraw<A>(hash: A -> Hash, a: A)
    ensures Loses(hash, a, 3) && Loses(hash, a, 4)
  {
    OneAtomic(LosingConfig(a, hash(a), 4).state, None);
    assert [] + [P] == [P];
  }

  lemma LosingLostList<A>(hash: A -> Hash, a: A)
    ensures Loses(hash, a, 5) && Loses(hash, a, 6)
  {
    var byPath: map<Path, seq<Prefix>> := map[None := [P]];
    assert byPath - {None} == map[];
  }

  /** The last read reports "nothing left", and the consumer still holds a route that has been withdrawn. */
  lemma WithdrawIsLost<A>(hash: A -> Hash, a: A)
    requires hash(a) != 0
    ensures var c := LosingConfig(a, hash(a), 7);
      && Reachable(AsWritten, hash, LosingRun(a, hash(a)), c)
      && !c.state.locked && Drained(c.state)
      && c.state.rib == map[P := None] && c.state.pending.Keys == {P} && c.table.Keys == {P}
  {
    var ops, at := LosingRun(a, hash(a)), (i: nat) => LosingConfig(a, hash(a), i);
    LosingRefresh(hash, a);
    LosingRefreshItem(hash, a);
    LosingWithdraw(hash, a);
    LosingLostList(hash, a);
    forall i | 0 <= i < |ops| ensures Traces(hash, ops, at, i) {
      assert Loses(hash, a, i);
    }
    TraceRuns(hash, ops, at);
  }
}
