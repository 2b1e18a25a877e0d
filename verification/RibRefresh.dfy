/** End-of-RIB over whole runs: what a consumer holds then, in terms of what was said before it asked. */
module RibRefresh {
  import opened Types
  import opened RibQueue
  import opened RibInvariant
  import opened RibAgreement
  import opened RibAsWritten

  lemma {:induction false} RunSplit<A>(v: Variant, hash: A -> Hash, c: Config<A>, pre: seq<Op<A>>, post: seq<Op<A>>)
    requires LegalRun(v, hash, c, pre + post)
    ensures LegalRun(v, hash, c, pre) && LegalRun(v, hash, Run(v, hash, c, pre), post)
    ensures Run(v, hash, c, pre + post) == Run(v, hash, Run(v, hash, c, pre), post)
    decreases |pre|
  {
    if pre == [] {
      assert pre + post == post;
    } else {
      assert (pre + post)[1..] == pre[1..] + post;
      RunSplit(v, hash, Step(v, hash, c, pre[0]), pre[1..], post);
    }
  }

  lemma {:induction false} SnapshotStays<A>(v: Variant, hash: A -> Hash, c: Config<A>, ops: seq<Op<A>>)
    requires LegalRun(v, hash, c, ops) && forall i :: 0 <= i < |ops| ==> !ops[i].DoRefresh?
    ensures Run(v, hash, c, ops).snapshot == c.snapshot
    decreases |ops|
  {
    if ops != [] { SnapshotStays(v, hash, Step(v, hash, c, ops[0]), ops[1..]); }
  }

  /** A run in which a refresh gets the lock and is the last one. */
  ghost predicate RefreshedAfter<A>(v: Variant, hash: A -> Hash, pre: seq<Op<A>>, lists: RefreshLists, post: seq<Op<A>>,
                                    c: Config<A>)
  {
    && Reachable(v, hash, pre + ([DoRefresh(lists)] + post), c)
    && LegalRun(v, hash, Start(), pre) && !Run(v, hash, Start(), pre).state.locked
    && forall i :: 0 <= i < |post| ==> !post[i].DoRefresh?
  }

  lemma SnapshotIsLastSaid<A>(v: Variant, hash: A -> Hash, pre: seq<Op<A>>, lists: RefreshLists, post: seq<Op<A>>,
                              c: Config<A>)
    requires RefreshedAfter(v, hash, pre, lists, post, c)
    ensures c.snapshot == Live(v, Hashed(hash, LastSaid(map[], pre)))
  {
    var rest := [DoRefresh(lists)] + post;
    RunSplit(v, hash, Start(), pre, rest);
    RibIsLastSaid(v, hash, Start(), pre, map[]);
    var before := Run(v, hash, Start(), pre);
    assert rest[1..] == post;
    SnapshotStays(v, hash, Step(v, hash, before, DoRefresh(lists)), post);
  }

  /** What a refresh as written hands out: bare hashes, and nothing for a hash of zero. */
  function BareRoutes<A>(hash: A -> Hash, said: map<Prefix, Option<A>>): Table<A> {
    map p | p in said && said[p].Some? && hash(said[p].value) != 0 :: RawHash(hash(said[p].value))
  }

  lemma ZeroHashIsMissing<A>(hash: A -> Hash, said: map<Prefix, Option<A>>)
    ensures BareRoutes(hash, said).Keys == Expected(said).Keys <==>
      forall p :: p in said && said[p].Some? ==> hash(said[p].value) != 0
  {
    var rib := Hashed(hash, said);
    RefreshCoversLive(rib);
    assert Live(AsWritten, rib).Keys == BareRoutes(hash, said).Keys;
    assert Live(Intended, rib).Keys == Expected(said).Keys;
    if BareRoutes(hash, said).Keys == Expected(said).Keys {
      assert Live(AsWritten, rib) == Live(Intended, rib);
      forall p | p in said && said[p].Some? ensures hash(said[p].value) != 0 { assert p in rib; }
    }
  }

  /**
   * As written the table at end-of-RIB has the hash of each route that was live when the refresh was asked
   * for, whatever was said since, except those of a zero hash.
   */
  lemma EndOfRibAsWritten<A>(hash: A -> Hash, pre: seq<Op<A>>, lists: RefreshLists, post: seq<Op<A>>, c: Config<A>,
                             pick: Hash)
    requires RefreshedAfter(AsWritten, hash, pre, lists, post, c)
    requires Pickable(c.state, pick) && Get(AsWritten, c.state, pick).1.EndOfRib?
    ensures c.table == BareRoutes(hash, LastSaid(map[], pre))
  {
    EndOfRibMeansSnapshot(AsWritten, hash, pre + ([DoRefresh(lists)] + post), c, pick);
    SnapshotIsLastSaid(AsWritten, hash, pre, lists, post, c);
  }

  /** As intended it is exactly the table of the routes last announced when the refresh was asked for. */
  lemma EndOfRibMeansLastSaid<A>(hash: A -> Hash, pre: seq<Op<A>>, lists: RefreshLists, post: seq<Op<A>>, c: Config<A>,
                                 used: set<A>, pick: Hash)
    requires RefreshedAfter(Intended, hash, pre, lists, post, c)
    requires UsesOnly(pre + ([DoRefresh(lists)] + post), used) && Separates(hash, used)
    requires Pickable(c.state, pick) && Get(Intended, c.state, pick).1.EndOfRib?
    ensures c.table == Expected(LastSaid(map[], pre))
  {
    var ops, said := pre + ([DoRefresh(lists)] + post), LastSaid<A>(map[], pre);
    EndOfRibMeansSnapshot(Intended, hash, ops, c, pick);
    SnapshotIsLastSaid(Intended, hash, pre, lists, post, c);
    RunKeepsStore(Intended, hash, Start(), ops, used);
    forall i | 0 <= i < |pre| && pre[i].DoUpdate? ensures pre[i].a in used { assert ops[i] == pre[i]; }
    LastSaidIsUsed<A>(map[], pre, used);
    forall p | p in c.table ensures p in said && said[p].Some? && c.table[p] == Attributes(said[p].value) {
      assert c.snapshot[p] == hash(said[p].value);
    }
    assert c.table.Keys == Expected(said).Keys;
  }
}
