/**
 * BGPribdb.py as written, seen from its callers: a ledger of the calls alone, what it says about the state,
 * and from it exactly when a consumer that is told "nothing left" holds the routes last announced.
 */
module RibLedger {
  import opened Types
  import opened RibQueue
  import opened RibInvariant
  import opened RibAgreement
  import opened RibDrain
  import opened RibAsWritten

  // ---------- the calls ----------

  /**
   * The reads that the current refresh still takes, whether an ordinary read has thrown the list of withdraws
   * away, the prefix whose withdraw raised, the prefixes announced since the last refresh, and what was said.
   */
  datatype Ledger<A> = Ledger(
    refreshReads: nat,
    listGone: bool,
    torn: Option<Prefix>,
    announced: set<Prefix>,
    said: map<Prefix, Option<A>>)

  function Blank<A>(): Ledger<A> {
    Ledger(0, false, None, {}, map[])
  }

  /** After a withdraw has raised no producer call returns, and reads no longer matter. */
  function Enter<A>(l: Ledger<A>, op: Op<A>): Ledger<A> {
    if l.torn.Some? then l
    else
      match op
      case DoUpdate(a, ps) => l.(announced := l.announced + (set p | p in ps), said := Assign(l.said, ps, Some(a)))
      case DoWithdraw(ps) =>
        if ps != [] && l.listGone then l.(torn := Some(ps[0]), said := l.said[ps[0] := None])
        else l.(said := Assign(l.said, ps, None))
      case DoRefresh(lists) => l.(refreshReads := |lists| + 1, listGone := false, announced := {})
      case DoGet(_) =>
        if l.refreshReads > 0 then l.(refreshReads := l.refreshReads - 1) else l.(listGone := true)
  }

  function Entered<A>(l: Ledger<A>, ops: seq<Op<A>>): Ledger<A>
    decreases |ops|
  {
    if ops == [] then l else Entered(Enter(l, ops[0]), ops[1..])
  }

  // ---------- the ledger and the state ----------

  /** What the queue is known to be from the calls. */
  ghost predicate TracksQueue<A>(hash: A -> Hash, l: Ledger<A>, c: Config<A>) {
    && l.torn == c.torn
    && l.refreshReads == RefreshReads(c.state)
    && (l.listGone <==> None !in c.state.byPath)
    && (l.refreshReads > 0 ==> !l.listGone)
    && c.state.rib == Hashed(hash, l.said)
  }

  /**
   * Where a bare hash can be: in every entry until the first ordinary read, and in every entry for a prefix
   * not announced since the refresh. Announced prefixes are pending until the queue delivers them.
   */
  ghost predicate TracksTable<A>(l: Ledger<A>, c: Config<A>) {
    && (forall p :: p in c.table && (!l.listGone || p !in l.announced) ==> c.table[p].RawHash?)
    && (forall p :: p in c.table && p in l.announced && c.table[p].RawHash? ==> p in c.state.pending)
    && (forall p :: p in l.announced && !l.listGone ==> p in c.state.pending)
    && (forall p :: p in c.state.pending && c.state.pending[p].Some? ==> p in l.announced)
  }

  ghost predicate Tracks<A>(hash: A -> Hash, l: Ledger<A>, c: Config<A>) {
    Invariant(AsWritten, c) && TracksQueue(hash, l, c) && TracksTable(l, c)
  }

  lemma {:induction false} AtomicsPend<A>(s: State<A>, ps: seq<Prefix>, path: Path)
    requires path in s.byPath
    ensures var r := AtomicUpdates(AsWritten, s, ps, path);
      && !r.raised && r.state.byPath.Keys == s.byPath.Keys
      && r.state.rib == Assign(s.rib, ps, path) && r.state.pending == Assign(s.pending, ps, path)
      && r.state.attrs == s.attrs && r.state.refreshing == s.refreshing && r.state.locked == s.locked
    decreases |ps|
  {
    if ps != [] {
      AtomicsPend(AtomicUpdate(AsWritten, s, ps[0], path).state, ps[1..], path);
      AssignFirst(s.rib, ps, path);
      AssignFirst(s.pending, ps, path);
    }
  }

  lemma UpdatePends<A>(hash: A -> Hash, s: State<A>, a: A, ps: seq<Prefix>)
    requires !s.locked
    ensures var s', path := Update(AsWritten, hash, s, a, ps), Some(hash(a));
      && s'.rib == Assign(s.rib, ps, path) && s'.pending == Assign(s.pending, ps, path)
      && s'.refreshing == s.refreshing && !s'.locked && (None in s'.byPath <==> None in s.byPath)
  {
    AtomicsPend(Register(s, hash(a), a), ps, Some(hash(a)));
  }

  lemma WithdrawPends<A>(hash: A -> Hash, s: State<A>, ps: seq<Prefix>)
    requires !s.locked && (ps == [] || None in s.byPath)
    ensures var s' := Withdraw(AsWritten, s, ps);
      && s'.rib == Assign(s.rib, ps, None) && s'.pending == Assign(s.pending, ps, None)
      && s'.refreshing == s.refreshing && !s'.locked && (None in s'.byPath <==> None in s.byPath)
  {
    if None in s.byPath { AtomicsPend(s, ps, None); }
  }

  lemma UpdateTracks<A>(hash: A -> Hash, l: Ledger<A>, c: Config<A>, a: A, ps: seq<Prefix>)
    requires Tracks(hash, l, c) && l.torn.None?
    ensures var c', l' := Step(AsWritten, hash, c, DoUpdate(a, ps)), Enter(l, DoUpdate(a, ps));
      TracksQueue(hash, l', c') && TracksTable(l', c')
  {
    UpdatePends(hash, c.state, a, ps);
    HashedAssign(hash, l.said, ps, Some(a));
  }

  lemma WithdrawTracks<A>(hash: A -> Hash, l: Ledger<A>, c: Config<A>, ps: seq<Prefix>)
    requires Tracks(hash, l, c) && l.torn.None?
    ensures var c', l' := Step(AsWritten, hash, c, DoWithdraw(ps)), Enter(l, DoWithdraw(ps));
      TracksQueue(hash, l', c') && TracksTable(l', c')
  {
    if ps != [] && l.listGone {
      AtomicsRaise(c.state, ps, None);
      assert AtomicUpdates(AsWritten, c.state, ps, None) == AtomicUpdate(AsWritten, c.state, ps[0], None);
      assert Hashed(hash, l.said[ps[0] := None]) == Hashed(hash, l.said)[ps[0] := None];
    } else {
      WithdrawPends(hash, c.state, ps);
      HashedAssign(hash, l.said, ps, None);
    }
  }

  lemma RefreshTracks<A>(hash: A -> Hash, l: Ledger<A>, c: Config<A>, lists: RefreshLists)
    requires Tracks(hash, l, c) && l.torn.None? && Splits(AsWritten, c.state.rib, lists)
    ensures var c', l' := Step(AsWritten, hash, c, DoRefresh(lists)), Enter(l, DoRefresh(lists));
      TracksQueue(hash, l', c') && TracksTable(l', c')
  {}

  lemma GetTracksQueue<A>(hash: A -> Hash, l: Ledger<A>, c: Config<A>, pick: Hash)
    requires Tracks(hash, l, c) && Pickable(c.state, pick)
    ensures TracksQueue(hash, Enter(l, DoGet(pick)), Step(AsWritten, hash, c, DoGet(pick)))
  {
    GetCounts(AsWritten, c.state, pick);
    GetLeavesRib(AsWritten, c.state, pick);
  }

  lemma GetTracksTable<A>(hash: A -> Hash, l: Ledger<A>, c: Config<A>, pick: Hash)
    requires Tracks(hash, l, c) && Pickable(c.state, pick)
    ensures TracksTable(Enter(l, DoGet(pick)), Step(AsWritten, hash, c, DoGet(pick)))
  {
    var s := c.state;
    if s.refreshing.None? && None !in s.byPath && s.byPath != map[] {
      PopDeliversPending(AsWritten, s, c.torn, Some(pick));
    }
  }

  lemma StepTracks<A>(hash: A -> Hash, l: Ledger<A>, c: Config<A>, op: Op<A>)
    requires Tracks(hash, l, c) && Legal(AsWritten, c, op)
    ensures Tracks(hash, Enter(l, op), Step(AsWritten, hash, c, op))
  {
    StepKeepsInvariant(AsWritten, hash, c, op);
    match op
    case DoUpdate(a, ps) => if l.torn.None? { UpdateTracks(hash, l, c, a, ps); }
    case DoWithdraw(ps) => if l.torn.None? { WithdrawTracks(hash, l, c, ps); }
    case DoRefresh(lists) => if l.torn.None? { RefreshTracks(hash, l, c, lists); }
    case DoGet(pick) =>
      GetTracksQueue(hash, l, c, pick);
      GetTracksTable(hash, l, c, pick);
  }

  /** Over every run the ledger of the calls knows the state of the queue, the routes, and where bare hashes are. */
  lemma {:induction false} RunTracks<A>(hash: A -> Hash, l: Ledger<A>, c: Config<A>, ops: seq<Op<A>>)
    requires Tracks(hash, l, c) && LegalRun(AsWritten, hash, c, ops)
    ensures Tracks(hash, Entered(l, ops), Run(AsWritten, hash, c, ops))
    decreases |ops|
  {
    if ops != [] {
      StepTracks(hash, l, c, ops[0]);
      RunTracks(hash, Enter(l, ops[0]), Step(AsWritten, hash, c, ops[0]), ops[1..]);
    }
  }

  lemma LedgerTracks<A>(hash: A -> Hash, ops: seq<Op<A>>, c: Config<A>)
    requires Reachable(AsWritten, hash, ops, c)
    ensures Tracks(hash, Entered(Blank(), ops), c)
  {
    StartIsInvariant<A>(AsWritten);
    RunTracks(hash, Blank(), Start(), ops);
  }

  // ---------- the consumer, entry by entry ----------

  /** What a consumer should hold: each live route with the attributes behind its hash. */
  function Routes<A>(s: State<A>): Table<A> {
    map p | p in s.rib && s.rib[p].Some? :: Resolved(s, s.rib[p].value)
  }

  /** A delivered entry is a bare hash exactly when a refresh brought it and no announcement has followed. */
  lemma BareUntilAnnounced<A>(hash: A -> Hash, ops: seq<Op<A>>, c: Config<A>, p: Prefix)
    requires Reachable(AsWritten, hash, ops, c) && p in c.table && p !in c.state.pending
    ensures c.table[p].RawHash? <==> p !in Entered(Blank(), ops).announced
  {
    LedgerTracks(hash, ops, c);
  }

  /** For a prefix that waits for no announcement: what makes its entry, or its absence, wrong. */
  predicate EntryIsWrong<A>(l: Ledger<A>, c: Config<A>, p: Prefix) {
    if p in c.table then p in c.state.pending || l.torn == Some(p) || p !in l.announced
    else p in c.state.rib && c.state.rib[p] == Some(0)
  }

  lemma SettledEntry<A>(hash: A -> Hash, l: Ledger<A>, c: Config<A>, p: Prefix)
    requires Tracks(hash, l, c) && c.state.refreshing.None? && !Waiting(c.state, p)
    ensures Lookup(c.table, p) != Lookup(Routes(c.state), p) <==> EntryIsWrong(l, c, p)
  {
    var s := c.state;
    assert Exempt(AsWritten, s, c.table, c.torn, p) || Matches(AsWritten, s, Settled(AsWritten, s, c.table, p), p);
    assert Settled(AsWritten, s, c.table, p) == Lookup(c.table, p);
  }

  /**
   * Outside a refresh, lock held or not: exactly which entries of the consumer are wrong as written. One that
   * waits for an announcement is, unless it has those attributes already. Any other is wrong if it is there
   * although a withdraw is pending or has raised, or is a bare hash that nothing has replaced, or if it is
   * missing where the live hash is zero.
   */
  lemma Shortfall<A>(hash: A -> Hash, ops: seq<Op<A>>, c: Config<A>, p: Prefix)
    requires Reachable(AsWritten, hash, ops, c) && c.state.refreshing.None?
    ensures Lookup(c.table, p) != Lookup(Routes(c.state), p) <==>
      if Waiting(c.state, p) then
        !(p in c.table && c.table[p] == Resolved(c.state, c.state.pending[p].value))
      else EntryIsWrong(Entered(Blank(), ops), c, p)
  {
    LedgerTracks(hash, ops, c);
    if !Waiting(c.state, p) { SettledEntry(hash, Entered(Blank(), ops), c, p); }
  }

  /** "Nothing left" is never said during a refresh. */
  lemma NothingLeftEndsRefresh<A>(v: Variant, s: State<A>, pick: Hash)
    requires Pickable(s, pick) && Get(v, s, pick).1.NothingLeft?
    ensures s.refreshing.None?
  {}

  // ---------- what was said ----------

  lemma {:induction false} TornStays<A>(l: Ledger<A>, ops: seq<Op<A>>)
    requires l.torn.Some?
    ensures Entered(l, ops) == l
    decreases |ops|
  {
    if ops != [] { TornStays(l, ops[1..]); }
  }

  /** Unless a withdraw has raised, the ledger has the last thing said about each prefix. */
  lemma {:induction false} SaidLast<A>(l: Ledger<A>, ops: seq<Op<A>>)
    requires Entered(l, ops).torn.None?
    ensures Entered(l, ops).said == LastSaid(l.said, ops)
    decreases |ops|
  {
    if ops != [] {
      if Enter(l, ops[0]).torn.Some? { TornStays(Enter(l, ops[0]), ops[1..]); }
      if l.torn.Some? { TornStays(l, ops); }
      SaidLast(Enter(l, ops[0]), ops[1..]);
    }
  }

  lemma {:induction false} SaidIsUsed<A>(l: Ledger<A>, ops: seq<Op<A>>, used: set<A>)
    requires UsesOnly(ops, used)
    requires forall p :: p in l.said && l.said[p].Some? ==> l.said[p].value in used
    ensures var said := Entered(l, ops).said;
      forall p :: p in said && said[p].Some? ==> said[p].value in used
    decreases |ops|
  {
    if ops != [] {
      var next := Enter(l, ops[0]);
      assert ops[0].DoUpdate? ==> ops[0].a in used;
      assert forall i :: 0 <= i < |ops[1..]| ==> ops[1..][i] == ops[i + 1];
      SaidIsUsed(next, ops[1..], used);
      assert Entered(l, ops) == Entered(next, ops[1..]);
    }
  }

  lemma ResolvesBack<A>(hash: A -> Hash, s: State<A>, used: set<A>, a: A)
    requires StoreIsHashed(hash, s, used) && Separates(hash, used) && a in used && hash(a) in s.attrs
    ensures Resolved(s, hash(a)) == Attributes(a)
  {
    assert hash(s.attrs[hash(a)]) == hash(a);
  }

  lemma RoutesAreExpected<A>(hash: A -> Hash, ops: seq<Op<A>>, c: Config<A>, used: set<A>)
    requires Reachable(AsWritten, hash, ops, c) && UsesOnly(ops, used) && Separates(hash, used)
    ensures Routes(c.state) == Expected(Entered(Blank(), ops).said)
  {
    var said := Entered<A>(Blank(), ops).said;
    LedgerTracks(hash, ops, c);
    SaidIsUsed<A>(Blank(), ops, used);
    RunKeepsStore(AsWritten, hash, Start(), ops, used);
    forall p | p in said && said[p].Some? ensures Resolved(c.state, hash(said[p].value)) == Attributes(said[p].value) {
      assert p in c.state.rib && c.state.rib[p] == Some(hash(said[p].value));
      ResolvesBack(hash, c.state, used, said[p].value);
    }
  }

  // ---------- "nothing left" as written ----------

  lemma NoneWaits<A>(hash: A -> Hash, l: Ledger<A>, c: Config<A>, p: Prefix)
    requires Tracks(hash, l, c) && c.state.byPath == map[]
    ensures !Waiting(c.state, p)
  {}

  /** The queue has been emptied: every entry must have come from the queue, and no zero hash may be missing. */
  ghost predicate EmptiedRight<A>(hash: A -> Hash, l: Ledger<A>, c: Config<A>) {
    && (forall p :: p in c.table ==> p in l.announced && p !in c.state.pending && l.torn != Some(p))
    && (forall p :: p in l.said && l.said[p].Some? && hash(l.said[p].value) == 0 ==> p in c.table)
  }

  /** The first ordinary read, which finds the list of withdraws: nothing may be held and nothing live. */
  predicate EarlyRight<A>(l: Ledger<A>, c: Config<A>) {
    c.table == map[] && forall p :: p in l.said ==> l.said[p].None?
  }

  lemma EmptiedIsRight<A>(hash: A -> Hash, l: Ledger<A>, c: Config<A>)
    requires Tracks(hash, l, c) && c.state.refreshing.None? && c.state.byPath == map[]
    ensures c.table == Routes(c.state) <==> EmptiedRight(hash, l, c)
  {
    var want := Routes(c.state);
    forall p ensures Lookup(c.table, p) != Lookup(want, p) <==> EntryIsWrong(l, c, p) {
      NoneWaits(hash, l, c, p);
      SettledEntry(hash, l, c, p);
    }
    if EmptiedRight(hash, l, c) {
      forall p ensures Lookup(c.table, p) == Lookup(want, p) { assert !EntryIsWrong(l, c, p); }
      SameLookupsSameTable(c.table, want);
    }
    if c.table == want {
      forall p ensures !EntryIsWrong(l, c, p) { assert Lookup(c.table, p) == Lookup(want, p); }
    }
  }

  lemma EarlyIsRight<A>(hash: A -> Hash, l: Ledger<A>, c: Config<A>)
    requires Tracks(hash, l, c) && !l.listGone
    ensures c.table == Routes(c.state) <==> EarlyRight(l, c)
  {
    var want := Routes(c.state);
    assert forall p :: p in want ==> !want[p].RawHash?;
    assert forall p :: p in c.table ==> c.table[p].RawHash?;
    if c.table == want {
      assert forall p :: p !in c.table;
      forall p | p in l.said ensures l.said[p].None? { assert p !in want; }
    }
    if EarlyRight(l, c) {
      assert want == map[];
    }
  }

  /**
   * The counterpart of NothingLeftMeansAgreement for the code as written: exactly when a consumer that is told
   * "nothing left" holds the routes last announced, in terms of the calls made, the prefixes it holds, and
   * the prefixes in update_requests.
   */
  lemma NothingLeftAsWritten<A>(hash: A -> Hash, ops: seq<Op<A>>, c: Config<A>, used: set<A>, pick: Hash)
    requires Reachable(AsWritten, hash, ops, c) && UsesOnly(ops, used) && Separates(hash, used)
    requires Pickable(c.state, pick) && Get(AsWritten, c.state, pick).1.NothingLeft?
    ensures var l := Entered(Blank(), ops);
      c.table == Expected(l.said) <==> if l.listGone then EmptiedRight(hash, l, c) else EarlyRight(l, c)
  {
    var l := Entered<A>(Blank(), ops);
    LedgerTracks(hash, ops, c);
    RoutesAreExpected(hash, ops, c, used);
    NothingLeftEndsRefresh(AsWritten, c.state, pick);
    if l.listGone { EmptiedIsRight(hash, l, c); } else { EarlyIsRight(hash, l, c); }
  }

  // ---------- runs in which "nothing left" is wrong ----------

  lemma PIsExpected<A>(a: A)
    ensures Expected(Assign(map[], [P], Some(a))) == map[P := Attributes(a)]
  {}

  /** Announce, then read once: "nothing left", and the announcement is still queued. */
  lemma EarlyReplyIsWrong<A>(hash: A -> Hash, a: A)
    ensures var c, ops := TornConfig(a, hash(a), 1), [DoUpdate(a, [P])];
      && Reachable(AsWritten, hash, ops, c) && Get(AsWritten, c.state, hash(a)).1.NothingLeft?
      && c.table == map[] && Expected(LastSaid(map[], ops)) == map[P := Attributes(a)]
  {
    var h := hash(a);
    var ops, at := [DoUpdate(a, [P])], (i: nat) => TornConfig(a, h, i);
    Announce(hash, a);
    FirstRead(a, h);
    PIsExpected(a);
    assert Traces(hash, ops, at, 0);
    TraceRuns(hash, ops, at);
    assert LastSaid(map[], ops) == LastSaid(Assign(map[], [P], Some(a)), ops[1..]);
  }

  /** Announce, refresh, read it all: the queue is empty, and the consumer holds a hash in place of attributes. */
  function BareConfig<A>(a: A, h: Hash, i: nat): Config<A> {
    var c := LosingConfig(a, h, if i < 4 then i else 4);
    if i <= 4 then c else c.(state := c.state.(byPath := map[]))
  }

  /** Step i of that run. */
  ghost predicate StaysBare<A>(hash: A -> Hash, a: A, i: nat)
    requires i < 5
  {
    Traces(hash, LosingRun(a, hash(a))[..4] + [DoGet(hash(a))], (j: nat) => BareConfig(a, hash(a), j), i)
  }

  lemma BareLikeLosing<A>(hash: A -> Hash, a: A, i: nat)
    requires i < 4 && Loses(hash, a, i)
    ensures StaysBare(hash, a, i)
  {}

  lemma BareLast<A>(hash: A -> Hash, a: A)
    ensures StaysBare(hash, a, 4)
  {
    var byPath: map<Path, seq<Prefix>> := map[None := []];
    assert byPath - {None} == map[];
  }

  lemma BareTraces<A>(hash: A -> Hash, a: A, i: nat)
    requires hash(a) != 0 && i < 5
    ensures StaysBare(hash, a, i)
  {
    if i < 4 {
      if i < 2 {
        LosingRefresh(hash, a);
      } else if i == 2 {
        LosingRefreshItem(hash, a);
      } else {
        LosingWithdraw(hash, a);
      }
      BareLikeLosing(hash, a, i);
    } else {
      BareLast(hash, a);
    }
  }

  lemma BareHashIsHeld<A>(hash: A -> Hash, a: A)
    requires hash(a) != 0
    ensures var c, ops := BareConfig(a, hash(a), 5), LosingRun(a, hash(a))[..4] + [DoGet(hash(a))];
      && Reachable(AsWritten, hash, ops, c) && Get(AsWritten, c.state, hash(a)).1.NothingLeft?
      && Drained(c.state) && c.state.pending == map[] && c.torn.None? && c.state.rib == map[P := Some(hash(a))]
      && c.table == map[P := RawHash(hash(a))]
  {
    var h := hash(a);
    var ops, at := LosingRun(a, h)[..4] + [DoGet(h)], (i: nat) => BareConfig(a, h, i);
    forall i | 0 <= i < |ops| ensures Traces(hash, ops, at, i) {
      BareTraces(hash, a, i);
      assert StaysBare(hash, a, i);
    }
    TraceRuns(hash, ops, at);
  }
}
