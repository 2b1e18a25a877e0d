/**
 * The class of BGPribdb.py: dictionaries reassigned by producer and consumer calls. Each method is proved
 * against the operation of the same name on values in RibQueue.dfy. A call is one atomic step; the lock is
 * a flag, and a producer call that finds it held returns without having done anything.
 */
module BgpRibDb {
  import opened Types
  import Q = RibQueue
  import opened RibQueue

  /** all_prefixes_rcvd and all_prefixes_withdrawn: how often each prefix was counted. */
  type Counts = map<Prefix, nat>

  function Counted(counts: Counts, p: Prefix): Counts {
    counts[p := (if p in counts then counts[p] else 0) + 1]
  }

  function CountedAll(counts: Counts, ps: seq<Prefix>): Counts
    decreases |ps|
  {
    if ps == [] then counts else CountedAll(Counted(counts, ps[0]), ps[1..])
  }

  lemma CountedRest(counts: Counts, ps: seq<Prefix>, i: nat)
    requires i < |ps|
    ensures CountedAll(counts, ps[i..]) == CountedAll(Counted(counts, ps[i]), ps[i + 1..])
  {
    assert ps[i..][1..] == ps[i + 1..];
  }

  /** A prefix is counted as often as it occurs. */
  lemma {:induction false} CountsOccurrences(counts: Counts, ps: seq<Prefix>, p: Prefix)
    ensures var after := CountedAll(counts, ps);
      && (p in after <==> p in counts || p in ps)
      && (p in after ==> after[p] == (if p in counts then counts[p] else 0) + multiset(ps)[p])
    decreases |ps|
  {
    if ps != [] {
      CountsOccurrences(Counted(counts, ps[0]), ps[1..], p);
      assert ps == [ps[0]] + ps[1..];
    }
  }

  class BGPribdb<A> {
    const variant: Variant
    const hash: A -> Hash

    var rib: map<Prefix, Path>
    var pathAttributes: map<Hash, A>
    var updateRequests: map<Prefix, Path>
    var pathUpdateRequests: map<Path, seq<Prefix>>
    var refreshUpdateRequests: Option<RefreshLists>
    var locked: bool
    var received: Counts
    var withdrawals: Counts

    ghost function Value(): State<A>
      reads this
    {
      State(rib, pathAttributes, updateRequests, pathUpdateRequests, refreshUpdateRequests, locked)
    }

    constructor (variant: Variant, hash: A -> Hash)
      ensures Value() == Initial() && received == withdrawals == map[]
      ensures this.variant == variant && this.hash == hash
    {
      this.variant, this.hash := variant, hash;
      rib, pathAttributes, updateRequests := map[], map[], map[];
      pathUpdateRequests := map[None := []];
      refreshUpdateRequests, locked := None, false;
      received, withdrawals := map[], map[];
    }

    method AtomicUpdate(p: Prefix, path: Path) returns (raised: bool)
      modifies this
      ensures Attempt(Value(), raised) == Q.AtomicUpdate(variant, old(Value()), p, path)
      ensures received == (if raised then old(received) else Counted(old(received), p))
      ensures withdrawals == old(withdrawals)
    {
      raised := Schedule(p, path);
      if !raised {
        received := Counted(received, p);
      }
    }

    /** The conditional at the head of atomic_update. */
    method Schedule(p: Prefix, path: Path) returns (raised: bool)
      modifies this`rib, this`pathUpdateRequests, this`updateRequests
      ensures Attempt(Value(), raised) == Q.AtomicUpdate(variant, old(Value()), p, path)
    {
      raised := false;
      if variant.AsWritten? || p !in rib || rib[p] != path {
        rib := rib[p := path];
        if path !in pathUpdateRequests {
          if variant.AsWritten? {
            return true;
          }
          pathUpdateRequests := pathUpdateRequests[path := []];
        }
        pathUpdateRequests := pathUpdateRequests[path := pathUpdateRequests[path] + [p]];
        updateRequests := updateRequests[p := path];
      }
    }

    method AtomicWithdraw(p: Prefix) returns (raised: bool)
      modifies this
      ensures Attempt(Value(), raised) == Q.AtomicUpdate(variant, old(Value()), p, None)
      ensures received == (if raised then old(received) else Counted(old(received), p))
      ensures withdrawals == (if raised then old(withdrawals) else Counted(old(withdrawals), p))
    {
      raised := AtomicUpdate(p, None);
      if !raised {
        withdrawals := Counted(withdrawals, p);
      }
    }

    method Update(a: A, ps: seq<Prefix>)
      modifies this
      ensures Value() == Q.Update(variant, hash, old(Value()), a, ps)
      ensures received == (if old(locked) || locked then old(received) else CountedAll(old(received), ps))
      ensures withdrawals == old(withdrawals)
    {
      if locked { return; }
      locked := true;
      var h := hash(a);
      if h !in pathAttributes {
        pathAttributes := pathAttributes[h := a];
      }
      if Some(h) !in pathUpdateRequests {
        pathUpdateRequests := pathUpdateRequests[Some(h) := []];
      }
      LockIsCarried(variant, Register(old(Value()), h, a), ps, Some(h));
      var raised := AtomicUpdates(ps, Some(h));
      locked := raised;
    }

    method Withdraw(ps: seq<Prefix>)
      modifies this
      ensures Value() == Q.Withdraw(variant, old(Value()), ps)
      ensures received == (if old(locked) || locked then old(received) else CountedAll(old(received), ps))
      ensures withdrawals == (if old(locked) || locked then old(withdrawals) else CountedAll(old(withdrawals), ps))
    {
      if locked { return; }
      locked := true;
      LockIsCarried(variant, old(Value()), ps, None);
      var raised := AtomicUpdates(ps, None);
      locked := raised;
    }

    /**
     * The loop shared by update and withdraw. It ends at a call that raises, which only the first can: after it
     * the path has a list.
     */
    method AtomicUpdates(ps: seq<Prefix>, path: Path) returns (raised: bool)
      modifies this
      ensures raised == Q.AtomicUpdates(variant, old(Value()), ps, path).raised
      ensures Value() == Q.AtomicUpdates(variant, old(Value()), ps, path).state
      ensures received == (if raised then old(received) else CountedAll(old(received), ps))
      ensures withdrawals ==
        if raised || path.Some? then old(withdrawals) else CountedAll(old(withdrawals), ps)
    {
      raised := false;
      var i := 0;
      while i < |ps| && !raised
        invariant 0 <= i <= |ps|
        invariant Q.AtomicUpdates(variant, old(Value()), ps, path)
               == if raised then Attempt(Value(), true) else Q.AtomicUpdates(variant, Value(), ps[i..], path)
        invariant i > 0 && variant.AsWritten? && !raised ==> path in pathUpdateRequests
        invariant i == 0 || raised ==> received == old(received) && withdrawals == old(withdrawals)
        invariant !raised ==> CountedAll(received, ps[i..]) == CountedAll(old(received), ps)
        invariant !raised ==>
          if path.Some? then withdrawals == old(withdrawals)
          else CountedAll(withdrawals, ps[i..]) == CountedAll(old(withdrawals), ps)
      {
        CountedRest(received, ps, i);
        CountedRest(withdrawals, ps, i);
        if path.Some? {
          raised := AtomicUpdate(ps[i], path);
        } else {
          raised := AtomicWithdraw(ps[i]);
        }
        i := i + 1;
      }
    }

    method Refresh() returns (ghost lists: RefreshLists)
      modifies this
      ensures Splits(variant, old(rib), lists) && received == old(received) && withdrawals == old(withdrawals)
      ensures Value() == Q.Refresh(old(Value()), lists)
    {
      var requests: RefreshLists := map[];
      var todo := rib.Keys;
      while todo != {}
        invariant todo <= rib.Keys && unchanged(this)
        invariant Splits(variant, map p | p in rib && p !in todo :: rib[p], requests)
      {
        var p :| p in todo;
        ghost var was := todo;
        todo := todo - {p};
        assert (map q | q in rib && q !in was :: rib[q]) == map q | q in rib && q !in todo && q != p :: rib[q];
        if Announced(variant, rib[p]) {
          FiledSplits(variant, rib, todo, requests, p);
          requests := Filed(requests, rib[p].value, p);
        }
      }
      lists := requests;
      if locked { return; }
      pathUpdateRequests := map[None := []];
      updateRequests := map[];
      refreshUpdateRequests := Some(requests);
    }

    method GroomUpdates(path: Path, ps: seq<Prefix>) returns (groomed: seq<Prefix>)
      modifies this
      ensures (groomed, updateRequests) == Groom(rib, old(updateRequests), path, ps)
      ensures Value() == old(Value()).(pending := updateRequests)
    {
      groomed := [];
      assert ps[0..] == ps;
      for i := 0 to |ps|
        invariant Value() == old(Value()).(pending := updateRequests)
        invariant var was, now := Groom(rib, old(updateRequests), path, ps), Groom(rib, updateRequests, path, ps[i..]);
          was.0 == groomed + now.0 && was.1 == now.1
      {
        assert ps[i..][1..] == ps[i + 1..];
        var p := ps[i];
        if p in rib && rib[p] == path && p in updateRequests && updateRequests[p] == path {
          groomed := groomed + [p];
          updateRequests := updateRequests - {p};
        }
      }
      assert ps[|ps|..] == [] && groomed + [] == groomed;
    }

    /** pick is the entry popitem chose, when it was asked to choose. */
    method GetUpdateRequest() returns (reply: Reply<A>, ghost pick: Hash)
      modifies this
      ensures Pickable(old(Value()), pick)
      ensures (Value(), reply) == Q.Get(variant, old(Value()), pick)
    {
      pick := 0;
      if refreshUpdateRequests.None? {
        if None in pathUpdateRequests {
          var ps := pathUpdateRequests[None];
          pathUpdateRequests := pathUpdateRequests - {None};
          if variant.AsWritten? {
            return NothingLeft, pick;
          }
          var groomed := GroomUpdates(None, ps);
          return Batch(Withdrawn, groomed), pick;
        }
        if pathUpdateRequests == map[] {
          return NothingLeft, pick;
        }
        var path :| path in pathUpdateRequests;
        pick := path.value;
        var ps := pathUpdateRequests[path];
        pathUpdateRequests := pathUpdateRequests - {path};
        if path.value !in pathAttributes {
          return NothingLeft, pick;
        }
        var groomed := GroomUpdates(path, ps);
        return Batch(Attributes(pathAttributes[path.value]), groomed), pick;
      } else {
        var lists := refreshUpdateRequests.value;
        if lists == map[] {
          refreshUpdateRequests := None;
          return EndOfRib, pick;
        }
        HasKey(lists);
        var h :| h in lists;
        pick := h;
        refreshUpdateRequests := Some(lists - {h});
        var tag := if variant.AsWritten? || h !in pathAttributes then RawHash(h) else Attributes(pathAttributes[h]);
        return Batch(tag, lists[h]), pick;
      }
    }
  }

  lemma {:induction false} LockIsCarried<A>(v: Variant, s: State<A>, ps: seq<Prefix>, path: Path)
    ensures var r := Q.AtomicUpdates(v, s, ps, path);
      Q.AtomicUpdates(v, s.(locked := true), ps, path) == r.(state := r.state.(locked := true))
    decreases |ps|
  {
    if ps != [] { LockIsCarried(v, Q.AtomicUpdate(v, s, ps[0], path).state, ps[1..], path); }
  }

  /** Filing one more announced prefix of the table under its path keeps the lists a split of the table. */
  lemma FiledSplits(v: Variant, rib: map<Prefix, Path>, todo: set<Prefix>, lists: RefreshLists, p: Prefix)
    requires p in rib && p !in todo && Announced(v, rib[p])
    requires Splits(v, map q | q in rib && q !in todo && q != p :: rib[q], lists)
    ensures Splits(v, map q | q in rib && q !in todo :: rib[q], Filed(lists, rib[p].value, p))
  {
    var h := rib[p].value;
    var before := map q | q in rib && q !in todo && q != p :: rib[q];
    var after := Filed(lists, h, p);
    assert !Queued(Some(lists), p, h);
    forall q, k ensures Queued(Some(after), q, k) <==> Queued(Some(lists), q, k) || (q == p && k == h) {}
  }

  lemma HasKey(lists: RefreshLists)
    ensures lists == map[] || exists h :: h in lists
  {
    if forall h :: h !in lists { assert lists == map[]; }
  }

  function Filed(lists: RefreshLists, h: Hash, p: Prefix): RefreshLists {
    lists[h := (if h in lists then lists[h] else []) + [p]]
  }
}
