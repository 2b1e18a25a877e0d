/**
 * What every reachable state of the change queue keeps, and the quantity that reading conserves:
 * the table the consumer will end up with once it has read everything.
 */
module RibInvariant {
  import opened Types
  import opened RibQueue

  // ---------- the invariant ----------

  /** The lock is held exactly when some withdraw has raised; that takes the list of withdraws to be gone. */
  ghost predicate TornAtLock<A>(v: Variant, s: State<A>, torn: Option<Prefix>) {
    && (s.locked <==> torn.Some?)
    && (torn.Some? ==> v.AsWritten? && None !in s.byPath && torn.value in s.rib && s.rib[torn.value].None?)
  }

  ghost predicate PendingMatchesRib<A>(s: State<A>, torn: Option<Prefix>) {
    forall p :: p in s.pending && Some(p) != torn ==> p in s.rib && s.rib[p] == s.pending[p]
  }

  /** As written the list of withdraws is thrown away by the first read, and a torn prefix is dropped by grooming. */
  ghost predicate PendingIsListed<A>(v: Variant, s: State<A>, torn: Option<Prefix>) {
    forall p :: p in s.pending ==>
      if s.pending[p] in s.byPath then p in s.byPath[s.pending[p]]
      else v.AsWritten? && (s.pending[p].None? || Some(p) == torn)
  }

  ghost predicate HashesResolve<A>(s: State<A>) {
    && (forall p :: p in s.rib && s.rib[p].Some? ==> s.rib[p].value in s.attrs)
    && (forall h :: Some(h) in s.byPath ==> h in s.attrs)
    && (forall h :: s.refreshing.Some? && h in s.refreshing.value ==> h in s.attrs)
  }

  ghost predicate RefreshIsPartition<A>(s: State<A>) {
    s.refreshing.Some? ==>
      && (forall h :: h in s.refreshing.value ==> s.refreshing.value[h] != [] && Distinct(s.refreshing.value[h]))
      && (forall p, h, h' :: Queued(s.refreshing, p, h) && Queued(s.refreshing, p, h') ==> h == h')
  }

  ghost predicate Valid<A>(v: Variant, s: State<A>, torn: Option<Prefix>) {
    && TornAtLock(v, s, torn)
    && PendingMatchesRib(s, torn)
    && PendingIsListed(v, s, torn)
    && HashesResolve(s)
    && RefreshIsPartition(s)
  }

  // ---------- where the consumer is heading ----------

  /** An announcement of p is queued and still current, so that grooming will let it through. */
  predicate Waiting<A>(s: State<A>, p: Prefix) {
    p in s.pending && s.pending[p].Some? && p in s.rib && s.rib[p] == s.pending[p]
  }

  ghost function QueuedHash(lists: Option<RefreshLists>, p: Prefix): (h: Hash)
    requires exists h :: Queued(lists, p, h)
    ensures Queued(lists, p, h)
  {
    var h :| Queued(lists, p, h); h
  }

  /** The entry of p in the consumer's table after everything now queued has been read. */
  ghost function Settled<A>(v: Variant, s: State<A>, t: Table<A>, p: Prefix): Option<Label<A>> {
    if Waiting(s, p) then Some(Resolved(s, s.pending[p].value))
    else if p in s.pending && v.Intended? then None
    else if exists h :: Queued(s.refreshing, p, h) then
      Some(RefreshLabel(v, s, QueuedHash(s.refreshing, p)))
    else Lookup(t, p)
  }

  /** As written a refresh item carries the hash in place of the attributes. */
  ghost predicate Denotes<A>(v: Variant, s: State<A>, tag: Label<A>, h: Hash) {
    tag == Resolved(s, h) || (v.AsWritten? && tag == RawHash(h))
  }

  ghost predicate Matches<A>(v: Variant, s: State<A>, entry: Option<Label<A>>, p: Prefix) {
    if p in s.rib && s.rib[p].Some? then entry.Some? && Denotes(v, s, entry.value, s.rib[p].value)
    else entry.None?
  }

  /**
   * The prefixes for which the consumer need not be on course, all of them as written: an undelivered
   * withdraw, a torn prefix, and a route that a refresh skipped because its hash is zero.
   */
  ghost predicate Exempt<A>(v: Variant, s: State<A>, t: Table<A>, torn: Option<Prefix>, p: Prefix) {
    && v.AsWritten?
    && ((p in s.pending && s.pending[p].None?) || Some(p) == torn
        || (p in s.rib && s.rib[p] == Some(0) && Settled(v, s, t, p).None?))
  }

  ghost predicate OnCourse<A>(v: Variant, s: State<A>, t: Table<A>, torn: Option<Prefix>) {
    forall p :: Exempt(v, s, t, torn, p) || Matches(v, s, Settled(v, s, t, p), p)
  }

  /** During a refresh each snapshot route is in exactly one place: still queued, or in the table. */
  ghost predicate SnapshotHeld<A>(v: Variant, c: Config<A>) {
    c.state.refreshing.Some? ==>
      && (forall p, h :: Queued(c.state.refreshing, p, h) ==> p in c.snapshot && c.snapshot[p] == h && p !in c.table)
      && (forall p :: p in c.snapshot && !Queued(c.state.refreshing, p, c.snapshot[p]) ==> p in c.table)
      && (forall p :: p in c.table ==>
            p in c.snapshot && c.snapshot[p] in c.state.attrs
            && c.table[p] == RefreshLabel(v, c.state, c.snapshot[p]))
  }

  ghost predicate Invariant<A>(v: Variant, c: Config<A>) {
    && Valid(v, c.state, c.torn)
    && OnCourse(v, c.state, c.table, c.torn)
    && SnapshotHeld(v, c)
  }

  // ---------- grooming ----------

  /** What grooming delivers from any list, whatever is in it: each prefix once, and nothing it must not. */
  lemma {:induction false} GroomExact(rib: map<Prefix, Path>, pending: map<Prefix, Path>, path: Path, ps: seq<Prefix>)
    ensures var (out, left) := Groom(rib, pending, path, ps);
      && Distinct(out)
      && (forall p :: p in out <==> p in ps && p in rib && rib[p] == path && p in pending && pending[p] == path)
      && left == map p | p in pending && p !in out :: pending[p]
    decreases |ps|
  {
    if ps != [] {
      var p := ps[0];
      if p in rib && rib[p] == path && p in pending && pending[p] == path {
        GroomExact(rib, pending - {p}, path, ps[1..]);
      } else {
        GroomExact(rib, pending, path, ps[1..]);
      }
    }
  }

  /** In a reachable state that is exactly the set of prefixes, other than a torn one, pending for this path. */
  lemma PopDeliversPending<A>(v: Variant, s: State<A>, torn: Option<Prefix>, path: Path)
    requires Valid(v, s, torn) && path in s.byPath
    ensures var (out, left) := Groom(s.rib, s.pending, path, s.byPath[path]);
      && Distinct(out)
      && (forall p :: p in out <==> p in s.pending && s.pending[p] == path && Some(p) != torn)
      && (forall p :: p in left <==> p in s.pending && (s.pending[p] != path || Some(p) == torn))
      && (forall p :: p in left ==> left[p] == s.pending[p])
  {
    GroomExact(s.rib, s.pending, path, s.byPath[path]);
  }

  // ---------- reading ----------

  lemma GetLeavesRib<A>(v: Variant, s: State<A>, pick: Hash)
    requires Pickable(s, pick)
    ensures var s' := Get(v, s, pick).0;
      s' == s.(pending := s'.pending, byPath := s'.byPath, refreshing := s'.refreshing)
  {}

  lemma RefreshReadKeepsValid<A>(v: Variant, s: State<A>, torn: Option<Prefix>, pick: Hash)
    requires Valid(v, s, torn) && Pickable(s, pick) && s.refreshing.Some?
    ensures Valid(v, GetRefresh(v, s, pick).0, torn)
  {
    var s' := GetRefresh(v, s, pick).0;
    assert forall p, h :: Queued(s'.refreshing, p, h) ==> Queued(s.refreshing, p, h);
  }

  lemma PathReadKeepsValid<A>(v: Variant, s: State<A>, torn: Option<Prefix>, path: Path, tag: Label<A>)
    requires Valid(v, s, torn) && path in s.byPath
    ensures Valid(v, GetPath(s, path, tag).0, torn)
  {
    PopDeliversPending(v, s, torn, path);
  }

  lemma GetKeepsValid<A>(v: Variant, s: State<A>, torn: Option<Prefix>, pick: Hash)
    requires Valid(v, s, torn) && Pickable(s, pick)
    ensures Valid(v, Get(v, s, pick).0, torn)
  {
    if s.refreshing.Some? {
      RefreshReadKeepsValid(v, s, torn, pick);
    } else if None in s.byPath {
      if v.Intended? { PathReadKeepsValid(v, s, torn, None, Withdrawn); }
    } else if s.byPath != map[] {
      PathReadKeepsValid(v, s, torn, Some(pick), Attributes(s.attrs[pick]));
    }
  }

  lemma SettledByRefresh<A>(v: Variant, s: State<A>, t: Table<A>, p: Prefix, h: Hash)
    requires RefreshIsPartition(s) && Queued(s.refreshing, p, h)
    requires !Waiting(s, p) && !(p in s.pending && v.Intended?)
    ensures Settled(v, s, t, p) == Some(RefreshLabel(v, s, h))
  {}

  lemma RefreshReadKeepsSettled<A>(v: Variant, s: State<A>, t: Table<A>, pick: Hash, p: Prefix)
    requires RefreshIsPartition(s) && Pickable(s, pick)
    requires s.refreshing.Some? && s.refreshing.value != map[]
    ensures var (s', reply) := GetRefresh(v, s, pick);
      RefreshIsPartition(s') && Settled(v, s', Apply(t, reply), p) == Settled(v, s, t, p)
  {
    var (s', reply) := GetRefresh(v, s, pick);
    var t' := Apply(t, reply);
    assert forall q, h :: Queued(s'.refreshing, q, h) <==> Queued(s.refreshing, q, h) && h != pick;
    if !Waiting(s, p) && !(p in s.pending && v.Intended?) {
      if Queued(s.refreshing, p, pick) {
        SettledByRefresh(v, s, t, p, pick);
      } else if h :| Queued(s.refreshing, p, h) {
        SettledByRefresh(v, s, t, p, h);
        SettledByRefresh(v, s', t', p, h);
      }
    }
  }

  lemma PathReadKeepsSettled<A>(v: Variant, s: State<A>, torn: Option<Prefix>, t: Table<A>, path: Path,
                                tag: Label<A>, p: Prefix)
    requires Valid(v, s, torn) && s.refreshing.None? && path in s.byPath
    requires tag == if path.Some? then Resolved(s, path.value) else Withdrawn
    requires path.None? ==> v.Intended?
    ensures var (s', reply) := GetPath(s, path, tag);
      Settled(v, s', Apply(t, reply), p) == Settled(v, s, t, p)
  {
    PopDeliversPending(v, s, torn, path);
  }

  /** Every read, whatever entry popitem picks, leaves the consumer heading for the same table. */
  lemma GetKeepsSettled<A>(v: Variant, s: State<A>, torn: Option<Prefix>, t: Table<A>, pick: Hash, p: Prefix)
    requires Valid(v, s, torn) && Pickable(s, pick)
    ensures var (s', reply) := Get(v, s, pick);
      Settled(v, s', Apply(t, reply), p) == Settled(v, s, t, p)
  {
    if s.refreshing.Some? {
      if s.refreshing.value != map[] { RefreshReadKeepsSettled(v, s, t, pick, p); }
    } else if None in s.byPath {
      if v.Intended? { PathReadKeepsSettled(v, s, torn, t, None, Withdrawn, p); }
    } else if s.byPath != map[] {
      PathReadKeepsSettled(v, s, torn, t, Some(pick), Attributes(s.attrs[pick]), p);
    }
  }

  lemma RefreshReadKeepsSnapshot<A>(v: Variant, c: Config<A>, pick: Hash)
    requires SnapshotHeld(v, c) && RefreshIsPartition(c.state) && HashesResolve(c.state) && Pickable(c.state, pick)
    requires c.state.refreshing.Some? && c.state.refreshing.value != map[]
    ensures var (s', reply) := GetRefresh(v, c.state, pick);
      SnapshotHeld(v, c.(state := s', table := Apply(c.table, reply)))
  {
    var s := c.state;
    var s' := GetRefresh(v, s, pick).0;
    assert forall p, h :: Queued(s'.refreshing, p, h) <==> Queued(s.refreshing, p, h) && h != pick;
    assert forall p :: p in s.refreshing.value[pick] <==> Queued(s.refreshing, p, pick);
  }

  lemma GetKeepsInvariant<A>(v: Variant, c: Config<A>, pick: Hash)
    requires Invariant(v, c) && Pickable(c.state, pick)
    ensures var (s', reply) := Get(v, c.state, pick);
      Invariant(v, c.(state := s', table := Apply(c.table, reply)))
  {
    var s := c.state;
    var (s', reply) := Get(v, s, pick);
    var t' := Apply(c.table, reply);
    GetKeepsValid(v, s, c.torn, pick);
    GetLeavesRib(v, s, pick);
    forall p ensures Exempt(v, s', t', c.torn, p) || Matches(v, s', Settled(v, s', t', p), p) {
      GetKeepsSettled(v, s, c.torn, c.table, pick, p);
      if v.AsWritten? && p in s.pending && s.pending[p].None? { GetKeepsWithdraws(v, s, c.torn, pick, p); }
    }
    if s.refreshing.Some? && s.refreshing.value != map[] { RefreshReadKeepsSnapshot(v, c, pick); }
  }

  lemma GetKeepsWithdraws<A>(v: Variant, s: State<A>, torn: Option<Prefix>, pick: Hash, p: Prefix)
    requires Valid(v, s, torn) && Pickable(s, pick) && v.AsWritten? && p in s.pending && s.pending[p].None?
    ensures var s' := Get(v, s, pick).0; p in s'.pending && s'.pending[p].None?
  {
    if s.refreshing.None? && None !in s.byPath && Some(pick) in s.byPath {
      PopDeliversPending(v, s, torn, Some(pick));
    }
  }

  // ---------- producing ----------

  lemma RegisterKeeps<A>(v: Variant, s: State<A>, t: Table<A>, h: Hash, a: A)
    requires Valid(v, s, None) && OnCourse(v, s, t, None)
    ensures Valid(v, Register(s, h, a), None) && OnCourse(v, Register(s, h, a), t, None)
  {
    var s' := Register(s, h, a);
    forall p ensures Exempt(v, s', t, None, p) || Matches(v, s', Settled(v, s', t, p), p) {
      assert Exempt(v, s, t, None, p) || Matches(v, s, Settled(v, s, t, p), p);
    }
  }

  /** The prefix that a raising call leaves torn. */
  function TornBy<A>(r: Attempt<A>, p: Prefix): Option<Prefix> {
    if r.raised then Some(p) else None
  }

  lemma AtomicKeepsValid<A>(v: Variant, s: State<A>, p: Prefix, path: Path)
    requires Valid(v, s, None)
    requires path.Some? ==> path.value in s.attrs && path in s.byPath
    ensures var r := AtomicUpdate(v, s, p, path); Valid(v, Locked(r), TornBy(r, p))
  {}

  /** What a change of one prefix leaves alone. */
  lemma AtomicFrame<A>(v: Variant, s: State<A>, p: Prefix, path: Path, q: Prefix)
    requires q != p
    ensures var s' := Locked(AtomicUpdate(v, s, p, path));
      && s'.attrs == s.attrs && s'.refreshing == s.refreshing
      && (q in s'.rib <==> q in s.rib) && (q in s.rib ==> s'.rib[q] == s.rib[q])
      && (q in s'.pending <==> q in s.pending) && (q in s.pending ==> s'.pending[q] == s.pending[q])
  {}

  lemma SettledFrame<A>(v: Variant, s: State<A>, s': State<A>, t: Table<A>, q: Prefix)
    requires s'.attrs == s.attrs && s'.refreshing == s.refreshing
    requires (q in s'.rib <==> q in s.rib) && (q in s.rib ==> s'.rib[q] == s.rib[q])
    requires (q in s'.pending <==> q in s.pending) && (q in s.pending ==> s'.pending[q] == s.pending[q])
    ensures Settled(v, s', t, q) == Settled(v, s, t, q)
  {}

  lemma AtomicKeepsOthers<A>(v: Variant, s: State<A>, t: Table<A>, p: Prefix, path: Path, q: Prefix)
    requires q != p
    ensures var s' := Locked(AtomicUpdate(v, s, p, path));
      && (Matches(v, s, Settled(v, s, t, q), q) <==> Matches(v, s', Settled(v, s', t, q), q))
      && (forall torn :: Exempt(v, s, t, None, q) ==> Exempt(v, s', t, torn, q))
  {
    AtomicFrame(v, s, p, path, q);
    SettledFrame(v, s, Locked(AtomicUpdate(v, s, p, path)), t, q);
  }

  lemma AtomicSettles<A>(v: Variant, s: State<A>, t: Table<A>, p: Prefix, path: Path)
    requires Valid(v, s, None) && OnCourse(v, s, t, None)
    requires path.Some? ==> path.value in s.attrs && path in s.byPath
    ensures var r := AtomicUpdate(v, s, p, path);
      Exempt(v, Locked(r), t, TornBy(r, p), p) || Matches(v, Locked(r), Settled(v, Locked(r), t, p), p)
  {
    assert Exempt(v, s, t, None, p) || Matches(v, s, Settled(v, s, t, p), p);
  }

  lemma AtomicKeepsCourse<A>(v: Variant, s: State<A>, t: Table<A>, p: Prefix, path: Path)
    requires Valid(v, s, None) && OnCourse(v, s, t, None)
    requires path.Some? ==> path.value in s.attrs && path in s.byPath
    ensures var r := AtomicUpdate(v, s, p, path); OnCourse(v, Locked(r), t, TornBy(r, p))
  {
    var r := AtomicUpdate(v, s, p, path);
    var s' := Locked(r);
    forall q ensures Exempt(v, s', t, TornBy(r, p), q) || Matches(v, s', Settled(v, s', t, q), q) {
      if q == p {
        AtomicSettles(v, s, t, p, path);
      } else {
        AtomicKeepsOthers(v, s, t, p, path, q);
        assert Exempt(v, s, t, None, q) || Matches(v, s, Settled(v, s, t, q), q);
      }
    }
  }

  lemma AtomicKeeps<A>(v: Variant, s: State<A>, t: Table<A>, p: Prefix, path: Path)
    requires Valid(v, s, None) && OnCourse(v, s, t, None)
    requires path.Some? ==> path.value in s.attrs && path in s.byPath
    ensures var r := AtomicUpdate(v, s, p, path);
      && Valid(v, Locked(r), TornBy(r, p)) && OnCourse(v, Locked(r), t, TornBy(r, p))
      && (r.raised <==> v.AsWritten? && path !in s.byPath)
      && r.state.attrs == s.attrs && r.state.refreshing == s.refreshing && r.state.locked == s.locked
      && (path in s.byPath ==> path in r.state.byPath)
  {
    AtomicKeepsValid(v, s, p, path);
    AtomicKeepsCourse(v, s, t, p, path);
  }

  /** A raise comes at the first prefix, if at all: after a success the list of the path is there. */
  lemma {:induction false} AtomicsKeep<A>(v: Variant, s: State<A>, t: Table<A>, ps: seq<Prefix>, path: Path)
    requires Valid(v, s, None) && OnCourse(v, s, t, None)
    requires path.Some? ==> path.value in s.attrs && path in s.byPath
    ensures var r := AtomicUpdates(v, s, ps, path);
      && (r.raised <==> v.AsWritten? && path !in s.byPath && ps != [])
      && Valid(v, Locked(r), if r.raised then Some(ps[0]) else None)
      && OnCourse(v, Locked(r), t, if r.raised then Some(ps[0]) else None)
      && r.state.attrs == s.attrs && r.state.refreshing == s.refreshing
    decreases |ps|
  {
    if ps == [] {
      assert Locked(AtomicUpdates(v, s, ps, path)) == s;
    } else {
      AtomicKeeps(v, s, t, ps[0], path);
      var first := AtomicUpdate(v, s, ps[0], path);
      if !first.raised {
        assert Locked(first) == first.state;
        AtomicsKeep(v, first.state, t, ps[1..], path);
      }
    }
  }
}
