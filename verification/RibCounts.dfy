/** The inequalities between the "global view" and the "path view" that BGPribdb's summary prints. */
module RibCounts {
  import opened Types
  import opened RibQueue
  import opened RibInvariant
  import opened RibAgreement
  import opened RibAsWritten

  ghost function PickPath(paths: set<Path>): (path: Path)
    requires paths != {}
    ensures path in paths
  {
    var path :| path in paths; path
  }

  /** The summed lengths of the by-path lists of the given paths. */
  ghost function ListTotal(byPath: map<Path, seq<Prefix>>, paths: set<Path>): nat
    requires paths <= byPath.Keys
  {
    if paths == {} then 0
    else
      var path := PickPath(paths);
      |byPath[path]| + ListTotal(byPath, paths - {path})
  }

  ghost function PendingFor(pending: map<Prefix, Path>, paths: set<Path>): set<Prefix> {
    set p | p in pending && pending[p] in paths
  }

  lemma {:induction false} SetWithinList(ps: set<Prefix>, list: seq<Prefix>)
    requires forall p :: p in ps ==> p in list
    ensures |ps| <= |list|
    decreases |list|
  {
    if list == [] {
      assert ps == {};
    } else {
      var rest := ps - {list[0]};
      SetWithinList(rest, list[1..]);
      assert ps <= rest + {list[0]};
      assert |ps| <= |rest| + 1 by { if list[0] in ps { assert ps == rest + {list[0]}; } else { assert ps == rest; } }
    }
  }

  lemma {:induction false} PendingWithinLists<A>(s: State<A>, paths: set<Path>)
    requires paths <= s.byPath.Keys
    requires forall p :: p in s.pending && s.pending[p] in s.byPath ==> p in s.byPath[s.pending[p]]
    ensures |PendingFor(s.pending, paths)| <= ListTotal(s.byPath, paths)
    decreases paths
  {
    if paths == {} {
      assert PendingFor(s.pending, paths) == {};
    } else {
      var path := PickPath(paths);
      var one, rest := PendingFor(s.pending, {path}), PendingFor(s.pending, paths - {path});
      SetWithinList(one, s.byPath[path]);
      PendingWithinLists(s, paths - {path});
      assert PendingFor(s.pending, paths) == one + rest;
    }
  }

  lemma SubsetCard<T>(a: set<T>, b: set<T>)
    requires a <= b
    ensures |a| <= |b|
  {
    assert b == a + (b - a);
  }

  /** Paths with something pending, not counting withdraws. */
  function PendingHashes(pending: map<Prefix, Path>): set<Path> {
    set p | p in pending && pending[p].Some? :: pending[p]
  }

  /**
   * In every reachable state in which no withdraw has raised, whatever paths are counted: the prefixes pending
   * for them are no more than the entries of their lists, and the pending paths no more than the lists. As
   * written this needs the list of withdraws to be there, or withdraws not to be counted.
   */
  lemma PendingIsBounded<A>(v: Variant, hash: A -> Hash, ops: seq<Op<A>>, c: Config<A>, paths: set<Path>)
    requires Reachable(v, hash, ops, c) && !c.state.locked
    ensures |PendingHashes(c.state.pending)| <= |c.state.byPath|
    ensures v.Intended? || None in c.state.byPath || None !in paths ==>
      |PendingFor(c.state.pending, paths)| <= ListTotal(c.state.byPath, paths * c.state.byPath.Keys)
  {
    RibAgreement.ViewsAgree(v, hash, ops, c);
    var s := c.state;
    SubsetCard(PendingHashes(s.pending), s.byPath.Keys);
    if v.Intended? || None in s.byPath || None !in paths {
      assert PendingFor(s.pending, paths) == PendingFor(s.pending, paths * s.byPath.Keys);
      PendingWithinLists(s, paths * s.byPath.Keys);
    }
  }

  // ---------- as written, exactly when each inequality holds ----------

  /** The withdraws: their list is there, or none is pending. */
  lemma WithdrawsAreBounded<A>(hash: A -> Hash, ops: seq<Op<A>>, c: Config<A>)
    requires Reachable(AsWritten, hash, ops, c)
    ensures |PendingFor(c.state.pending, {None})| <= ListTotal(c.state.byPath, {None} * c.state.byPath.Keys) <==>
      None in c.state.byPath || forall p :: p in c.state.pending ==> c.state.pending[p].Some?
  {
    var s, none: set<Path> := c.state, {None};
    if None in s.byPath {
      ViewsAgree(AsWritten, hash, ops, c);
      PendingIsBounded(AsWritten, hash, ops, c, none);
    } else {
      assert none * s.byPath.Keys == {};
      if p :| p in s.pending && s.pending[p].None? { assert p in PendingFor(s.pending, none); }
    }
  }

  /**
   * As the summary prints them, with a hash of zero counted among the withdraws: their list is there, or the
   * list of the hash of zero is long enough for what is pending for either.
   */
  lemma SummaryWithdrawsAreBounded<A>(hash: A -> Hash, ops: seq<Op<A>>, c: Config<A>)
    requires Reachable(AsWritten, hash, ops, c)
    ensures var falsy: set<Path> := {None, Some(0)};
      |PendingFor(c.state.pending, falsy)| <= ListTotal(c.state.byPath, falsy * c.state.byPath.Keys) <==>
        || None in c.state.byPath
        || |PendingFor(c.state.pending, {None})| + |PendingFor(c.state.pending, {Some(0)})|
             <= if Some(0) in c.state.byPath then |c.state.byPath[Some(0)]| else 0
  {
    var s, falsy, zero: set<Path> := c.state, {None, Some(0)}, {Some(0)};
    if None in s.byPath {
      ViewsAgree(AsWritten, hash, ops, c);
      PendingIsBounded(AsWritten, hash, ops, c, falsy);
    } else {
      assert PendingFor(s.pending, falsy) == PendingFor(s.pending, {None}) + PendingFor(s.pending, zero);
      assert falsy * s.byPath.Keys == if Some(0) in s.byPath then zero else {};
      assert ListTotal(s.byPath, {}) == 0;
      if Some(0) in s.byPath {
        assert PickPath(zero) == Some(0) && zero - {Some(0)} == {};
      }
    }
  }

  /** The announcement of a torn prefix has outlived the list it was on. */
  predicate Stranded<A>(c: Config<A>) {
    && c.torn.Some? && c.torn.value in c.state.pending
    && c.state.pending[c.torn.value].Some? && c.state.pending[c.torn.value] !in c.state.byPath
  }

  lemma ListedUnlessTorn<A>(hash: A -> Hash, ops: seq<Op<A>>, c: Config<A>, p: Prefix)
    requires Reachable(AsWritten, hash, ops, c) && p in c.state.pending && c.state.pending[p].Some?
    ensures c.state.pending[p] in c.state.byPath <==> !(Stranded(c) && c.torn == Some(p))
    ensures c.state.pending[p] in c.state.byPath ==> p in c.state.byPath[c.state.pending[p]]
  {
    ViewsAgree(AsWritten, hash, ops, c);
  }

  lemma OneMore<T>(pending: set<T>, listed: set<T>, x: T)
    requires x in pending && x !in listed && pending <= listed + {x}
    ensures |pending| > |listed| <==> listed <= pending
  {
    assert pending == (pending * listed) + {x};
    assert listed == (pending * listed) + (listed - pending);
    assert listed <= pending <==> listed - pending == {};
  }

  /** The paths: fails when an announcement is stranded and every path still listed has something pending. */
  lemma PathsAreBounded<A>(hash: A -> Hash, ops: seq<Op<A>>, c: Config<A>)
    requires Reachable(AsWritten, hash, ops, c)
    ensures |PendingHashes(c.state.pending)| > |c.state.byPath| <==>
      Stranded(c) && forall path :: path in c.state.byPath ==> path in PendingHashes(c.state.pending)
  {
    var pending, listed := PendingHashes(c.state.pending), c.state.byPath.Keys;
    forall p | p in c.state.pending && c.state.pending[p].Some?
      ensures c.state.pending[p] in listed || (Stranded(c) && c.torn == Some(p))
    {
      ListedUnlessTorn(hash, ops, c, p);
    }
    if Stranded(c) {
      OneMore(pending, listed, c.state.pending[c.torn.value]);
    } else {
      SubsetCard(pending, listed);
    }
  }

  /** Every entry of the list is pending for its path, and none is there twice. */
  predicate Tight(s: map<Prefix, Path>, path: Path, list: seq<Prefix>) {
    Distinct(list) && forall p :: p in list ==> p in s && s[p] == path
  }

  lemma DistinctFirst(list: seq<Prefix>)
    requires list != []
    ensures Distinct(list) <==> list[0] !in list[1..] && Distinct(list[1..])
  {
    assert list == [list[0]] + list[1..];
    if list[0] !in list[1..] && Distinct(list[1..]) {
      forall i, j | 0 <= i < j < |list| ensures list[i] != list[j] {
        assert list[j] == list[1..][j - 1];
        if i > 0 { assert list[i] == list[1..][i - 1]; }
      }
    }
  }

  lemma {:induction false} TightList(ps: set<Prefix>, list: seq<Prefix>)
    requires forall p :: p in ps ==> p in list
    ensures |ps| == |list| <==> Distinct(list) && forall p :: p in list ==> p in ps
    decreases |list|
  {
    if list == [] {
      assert ps == {};
    } else {
      var first, tail := list[0], list[1..];
      var rest := ps - {first};
      assert list == [first] + tail;
      SetWithinList(rest, tail);
      TightList(rest, tail);
      DistinctFirst(list);
      if first in ps {
        assert ps == rest + {first};
      } else {
        assert ps == rest;
      }
    }
  }

  lemma {:induction false} TightLists<A>(s: State<A>, paths: set<Path>)
    requires paths <= s.byPath.Keys
    requires forall p :: p in s.pending && s.pending[p] in s.byPath ==> p in s.byPath[s.pending[p]]
    ensures |PendingFor(s.pending, paths)| == ListTotal(s.byPath, paths) <==>
      forall path :: path in paths ==> Tight(s.pending, path, s.byPath[path])
    decreases paths
  {
    if paths == {} {
      assert PendingFor(s.pending, paths) == {};
    } else {
      var path := PickPath(paths);
      var one, rest := PendingFor(s.pending, {path}), PendingFor(s.pending, paths - {path});
      SetWithinList(one, s.byPath[path]);
      TightList(one, s.byPath[path]);
      PendingWithinLists(s, paths - {path});
      TightLists(s, paths - {path});
      assert PendingFor(s.pending, paths) == one + rest;
    }
  }

  /** The announcements: fails when one is stranded among the counted paths and their lists hold no stale entry. */
  lemma AnnouncementsAreBounded<A>(hash: A -> Hash, ops: seq<Op<A>>, c: Config<A>, paths: set<Path>)
    requires Reachable(AsWritten, hash, ops, c) && None !in paths
    ensures |PendingFor(c.state.pending, paths)| > ListTotal(c.state.byPath, paths * c.state.byPath.Keys) <==>
      && Stranded(c) && c.state.pending[c.torn.value] in paths
      && forall path :: path in paths && path in c.state.byPath ==> Tight(c.state.pending, path, c.state.byPath[path])
  {
    ViewsAgree(AsWritten, hash, ops, c);
    var s, listed := c.state, paths * c.state.byPath.Keys;
    PendingWithinLists(s, listed);
    TightLists(s, listed);
    forall p | p in s.pending && s.pending[p].Some?
      ensures s.pending[p] in s.byPath <==> !(Stranded(c) && c.torn == Some(p))
    {
      ListedUnlessTorn(hash, ops, c, p);
    }
    if Stranded(c) && s.pending[c.torn.value] in paths {
      assert PendingFor(s.pending, paths) == PendingFor(s.pending, listed) + {c.torn.value};
    } else {
      assert PendingFor(s.pending, paths) == PendingFor(s.pending, listed);
    }
  }

  /** As written the bound fails for withdraws: one is pending and no list is left. */
  lemma StrandedWithdrawIsUnbounded<A>(hash: A -> Hash, a: A)
    requires hash(a) != 0
    ensures var c := LosingConfig(a, hash(a), 7);
      && Reachable(AsWritten, hash, LosingRun(a, hash(a)), c) && !c.state.locked
      && |PendingFor(c.state.pending, {None})| > ListTotal(c.state.byPath, {None} * c.state.byPath.Keys)
  {
    WithdrawIsLost(hash, a);
    var s := LosingConfig(a, hash(a), 7).state;
    assert PendingFor(s.pending, {None}) == {P};
    assert {None} * s.byPath.Keys == {};
  }

  /** And after a raise for announcements and paths as well: an update, a read, a withdraw, a read. */
  lemma StrandedAnnouncementIsUnbounded<A>(hash: A -> Hash, a: A)
    ensures var c, h := TornEarlyConfig(a, hash(a), 4), Some(hash(a));
      && Reachable(AsWritten, hash, TornEarlyRun(a, hash(a)), c)
      && |PendingHashes(c.state.pending)| > |c.state.byPath|
      && |PendingFor(c.state.pending, {h})| > ListTotal(c.state.byPath, {h} * c.state.byPath.Keys)
  {
    AnnouncementIsStranded(hash, a);
    var c, h := TornEarlyConfig(a, hash(a), 4), Some(hash(a));
    PathsAreBounded(hash, TornEarlyRun(a, hash(a)), c);
    AnnouncementsAreBounded(hash, TornEarlyRun(a, hash(a)), c, {h});
  }
}
