/** Reading with no producer call in between: how many reads there are, in what order, and where they end. */
module RibDrain {
  import opened Types
  import opened RibQueue
  import opened RibInvariant
  import opened RibAgreement

  ghost predicate LegalReads<A>(v: Variant, s: State<A>, picks: seq<Hash>)
    decreases |picks|
  {
    picks == [] || (Pickable(s, picks[0]) && LegalReads(v, Get(v, s, picks[0]).0, picks[1..]))
  }

  /** The state and table after the reads, and what each of them returned. */
  ghost function Reads<A>(v: Variant, s: State<A>, t: Table<A>, picks: seq<Hash>)
    : (r: (State<A>, Table<A>, seq<Reply<A>>))
    requires LegalReads(v, s, picks)
    ensures |r.2| == |picks|
    decreases |picks|
  {
    if picks == [] then (s, t, [])
    else
      var (s', reply) := Get(v, s, picks[0]);
      var (s'', t', replies) := Reads(v, s', Apply(t, reply), picks[1..]);
      (s'', t', [reply] + replies)
  }

  /** Reads spent on the refresh: its items and the end-of-RIB signal. */
  function RefreshReads<A>(s: State<A>): nat {
    if s.refreshing.Some? then |s.refreshing.value| + 1 else 0
  }

  function Remaining<A>(s: State<A>): nat {
    RefreshReads(s) + |s.byPath|
  }

  lemma CardMinusKey<K, V>(m: map<K, V>, k: K)
    requires k in m
    ensures |m - {k}| == |m| - 1
  {
    assert (m - {k}).Keys == m.Keys - {k};
  }

  /** What one read does to the counts, and what its reply says about them. */
  ghost predicate CountsDown<A>(v: Variant, s: State<A>, s': State<A>, reply: Reply<A>) {
    && HashesResolve(s')
    && Remaining(s') == (if Remaining(s) == 0 then 0 else Remaining(s) - 1)
    && RefreshReads(s') == (if RefreshReads(s) == 0 then 0 else RefreshReads(s) - 1)
    && (reply.EndOfRib? <==> RefreshReads(s) == 1)
    && (reply.NothingLeft? <==>
          RefreshReads(s) == 0 && (Remaining(s) == 0 || (v.AsWritten? && None in s.byPath)))
    && (None in s'.byPath <==> None in s.byPath && RefreshReads(s) > 0)
  }

  lemma RefreshCounts<A>(v: Variant, s: State<A>, pick: Hash)
    requires HashesResolve(s) && Pickable(s, pick) && s.refreshing.Some?
    ensures var (s', reply) := GetRefresh(v, s, pick); CountsDown(v, s, s', reply)
  {
    if s.refreshing.value != map[] { CardMinusKey(s.refreshing.value, pick); }
  }

  lemma PathCounts<A>(v: Variant, s: State<A>, path: Path, s': State<A>, reply: Reply<A>)
    requires HashesResolve(s) && s.refreshing.None? && path in s.byPath && (None in s.byPath ==> path == None)
    requires s' == s.(byPath := s.byPath - {path}, pending := s'.pending)
    requires !reply.EndOfRib? && (reply.NothingLeft? <==> v.AsWritten? && path.None?)
    ensures CountsDown(v, s, s', reply)
  {
    CardMinusKey(s.byPath, path);
  }

  lemma GetCounts<A>(v: Variant, s: State<A>, pick: Hash)
    requires HashesResolve(s) && Pickable(s, pick)
    ensures var (s', reply) := Get(v, s, pick); CountsDown(v, s, s', reply)
  {
    var (s', reply) := Get(v, s, pick);
    if s.refreshing.Some? {
      RefreshCounts(v, s, pick);
    } else if None in s.byPath {
      PathCounts(v, s, None, s', reply);
    } else if s.byPath != map[] {
      PathCounts(v, s, Some(pick), s', reply);
    }
  }

  lemma ReadsAt<A>(v: Variant, s: State<A>, t: Table<A>, picks: seq<Hash>, i: nat)
    requires LegalReads(v, s, picks) && i < |picks|
    ensures Reads(v, s, t, picks).2[i] ==
      var (s', reply) := Get(v, s, picks[0]);
      if i == 0 then reply else Reads(v, s', Apply(t, reply), picks[1..]).2[i - 1]
  {}

  /** The kind of the reply to read number i of a drain that starts in state s. */
  predicate ShapeAt<A>(v: Variant, s: State<A>, i: nat, reply: Reply<A>) {
    && (reply.EndOfRib? <==> i + 1 == RefreshReads(s))
    && (reply.NothingLeft? <==>
          i >= Remaining(s) || (v.AsWritten? && None in s.byPath && i == RefreshReads(s)))
  }

  lemma ShapeShifts<A>(v: Variant, s: State<A>, pick: Hash, i: nat, reply: Reply<A>)
    requires HashesResolve(s) && Pickable(s, pick) && i > 0
    requires ShapeAt(v, Get(v, s, pick).0, i - 1, reply)
    ensures ShapeAt(v, s, i, reply)
  {
    GetCounts(v, s, pick);
  }

  lemma ShapeStarts<A>(v: Variant, s: State<A>, pick: Hash)
    requires HashesResolve(s) && Pickable(s, pick)
    ensures HashesResolve(Get(v, s, pick).0) && ShapeAt(v, s, 0, Get(v, s, pick).1)
  {
    GetCounts(v, s, pick);
  }

  /**
   * The shape of every drain, whatever popitem picks. End-of-RIB is handed out exactly once in a refresh,
   * right after its last item and before the normal queue, which is exhausted after exactly Remaining
   * reads. As written, one read reports "nothing left" early.
   */
  lemma {:induction false} DrainShape<A>(v: Variant, s: State<A>, t: Table<A>, picks: seq<Hash>, i: nat)
    requires HashesResolve(s) && LegalReads(v, s, picks) && i < |picks|
    ensures ShapeAt(v, s, i, Reads(v, s, t, picks).2[i])
    decreases |picks|
  {
    ShapeStarts(v, s, picks[0]);
    ReadsAt(v, s, t, picks, i);
    if i > 0 {
      var (s', reply) := Get(v, s, picks[0]);
      DrainShape(v, s', Apply(t, reply), picks[1..], i - 1);
      ShapeShifts(v, s, picks[0], i, Reads(v, s, t, picks).2[i]);
    }
  }

  lemma RefreshItemsStep<A>(v: Variant, s: State<A>, t: Table<A>, picks: seq<Hash>, i: nat)
    requires LegalReads(v, s, picks) && s.refreshing.Some? && s.refreshing.value != map[] && 0 < i < |picks|
    ensures var s' := GetRefresh(v, s, picks[0]).0;
      var t' := Apply(t, GetRefresh(v, s, picks[0]).1);
      && picks[0] in s.refreshing.value && s' == s.(refreshing := Some(s.refreshing.value - {picks[0]}))
      && LegalReads(v, s', picks[1..]) && Reads(v, s, t, picks).2[i] == Reads(v, s', t', picks[1..]).2[i - 1]
  {}

  /** Until then each read hands out one whole refresh item with its path, and no item twice. */
  lemma {:induction false} RefreshItemsComeOnce<A>(v: Variant, s: State<A>, t: Table<A>, picks: seq<Hash>, i: nat)
    requires LegalReads(v, s, picks) && s.refreshing.Some? && i < |s.refreshing.value| && i < |picks|
    ensures var lists, h := s.refreshing.value, picks[i];
      && h in lists && h !in picks[..i]
      && Reads(v, s, t, picks).2[i] == Batch(RefreshLabel(v, s, h), lists[h])
    decreases |picks|
  {
    if i > 0 {
      RefreshItemsStep(v, s, t, picks, i);
      var (s', reply) := GetRefresh(v, s, picks[0]);
      CardMinusKey(s.refreshing.value, picks[0]);
      RefreshItemsComeOnce(v, s', Apply(t, reply), picks[1..], i - 1);
      assert picks[..i] == [picks[0]] + picks[1..][..i - 1];
    } else {
      ReadsAt(v, s, t, picks, 0);
    }
  }

  lemma {:induction false} DrainEmpties<A>(v: Variant, s: State<A>, t: Table<A>, picks: seq<Hash>)
    requires HashesResolve(s) && LegalReads(v, s, picks)
    ensures var end := Reads(v, s, t, picks).0;
      Drained(end) <==> |picks| >= Remaining(s)
    decreases |picks|
  {
    if picks != [] {
      GetCounts(v, s, picks[0]);
      var (s', reply) := Get(v, s, picks[0]);
      DrainEmpties(v, s', Apply(t, reply), picks[1..]);
    }
  }

  lemma {:induction false} ReadsKeepSettled<A>(v: Variant, s: State<A>, torn: Option<Prefix>, t: Table<A>,
                                               picks: seq<Hash>, p: Prefix)
    requires Valid(v, s, torn) && LegalReads(v, s, picks)
    ensures var (s', t', _) := Reads(v, s, t, picks);
      Valid(v, s', torn) && Settled(v, s', t', p) == Settled(v, s, t, p)
    decreases |picks|
  {
    if picks != [] {
      GetKeepsValid(v, s, torn, picks[0]);
      GetKeepsSettled(v, s, torn, t, picks[0], p);
      var (s', reply) := Get(v, s, picks[0]);
      ReadsKeepSettled(v, s', torn, Apply(t, reply), picks[1..], p);
    }
  }

  lemma DrainReachesSettled<A>(v: Variant, s: State<A>, torn: Option<Prefix>, t: Table<A>,
                               picks: seq<Hash>, p: Prefix)
    requires Valid(v, s, torn) && LegalReads(v, s, picks) && |picks| >= Remaining(s)
    ensures Lookup(Reads(v, s, t, picks).1, p) == Settled(v, s, t, p)
  {
    var (s', t', _) := Reads(v, s, t, picks);
    ReadsKeepSettled(v, s, torn, t, picks, p);
    DrainEmpties(v, s, t, picks);
    DrainedIsSettled(v, s', torn, t', p);
  }

  lemma SameLookupsSameTable<A>(t: Table<A>, u: Table<A>)
    requires forall p :: Lookup(t, p) == Lookup(u, p)
    ensures t == u
  {
    assert forall p :: (p in t) == Lookup(t, p).Some?;
    assert forall p :: (p in u) == Lookup(u, p).Some?;
  }

  /** Two full drains that pick paths in different orders end in the same table, as written and as intended. */
  lemma DrainsAgree<A>(v: Variant, s: State<A>, torn: Option<Prefix>, t: Table<A>, picks: seq<Hash>, others: seq<Hash>)
    requires Valid(v, s, torn)
    requires LegalReads(v, s, picks) && |picks| >= Remaining(s)
    requires LegalReads(v, s, others) && |others| >= Remaining(s)
    ensures Reads(v, s, t, picks).1 == Reads(v, s, t, others).1
  {
    forall p ensures Lookup(Reads(v, s, t, picks).1, p) == Lookup(Reads(v, s, t, others).1, p) {
      DrainReachesSettled(v, s, torn, t, picks, p);
      DrainReachesSettled(v, s, torn, t, others, p);
    }
    SameLookupsSameTable(Reads(v, s, t, picks).1, Reads(v, s, t, others).1);
  }

  /** From any reachable state a full drain gives the consumer exactly the routes last announced. */
  lemma DrainReachesLastSaid<A>(hash: A -> Hash, ops: seq<Op<A>>, c: Config<A>, used: set<A>, picks: seq<Hash>)
    requires Reachable(Intended, hash, ops, c) && UsesOnly(ops, used) && Separates(hash, used)
    requires LegalReads(Intended, c.state, picks) && |picks| >= Remaining(c.state)
    ensures Reads(Intended, c.state, c.table, picks).1 == Expected(LastSaid(map[], ops))
  {
    ViewsAgree(Intended, hash, ops, c);
    var end := Reads(Intended, c.state, c.table, picks).1;
    forall p ensures Lookup(end, p) == Lookup(Expected(LastSaid(map[], ops)), p) {
      DrainReachesSettled(Intended, c.state, c.torn, c.table, picks, p);
      SettledIsExpected(hash, ops, c, used, p);
    }
    SameLookupsSameTable(end, Expected(LastSaid(map[], ops)));
  }
}
