/**
 * bmpapp.py applies a message's announcements before its withdraws, spider.py after them. The two agree
 * exactly when no prefix is in both.
 */
module RibOrder {
  import opened Types
  import opened RibQueue
  import opened RibAgreement
  import opened RibAsWritten

  predicate Disjoint(ps: seq<Prefix>, qs: seq<Prefix>) {
    forall p :: p in ps ==> p !in qs
  }

  /** A change of this path can be queued without raising. */
  predicate Ready<A>(v: Variant, s: State<A>, path: Path) {
    v.Intended? || path in s.byPath
  }

  function UpdateThenWithdraw<A>(v: Variant, hash: A -> Hash, s: State<A>, a: A, ps: seq<Prefix>,
                                 qs: seq<Prefix>): State<A> {
    Withdraw(v, Update(v, hash, s, a, ps), qs)
  }

  function WithdrawThenUpdate<A>(v: Variant, hash: A -> Hash, s: State<A>, a: A, ps: seq<Prefix>,
                                 qs: seq<Prefix>): State<A> {
    Update(v, hash, Withdraw(v, s, qs), a, ps)
  }

  function Enqueue<A>(s: State<A>, p: Prefix, path: Path): State<A> {
    var queued := if path in s.byPath then s.byPath[path] else [];
    s.(rib := s.rib[p := path], byPath := s.byPath[path := queued + [p]], pending := s.pending[p := path])
  }

  predicate Duplicate<A>(v: Variant, s: State<A>, p: Prefix, path: Path) {
    v.Intended? && p in s.rib && s.rib[p] == path
  }

  lemma AtomicIsEnqueue<A>(v: Variant, s: State<A>, p: Prefix, path: Path)
    requires Ready(v, s, path)
    ensures AtomicUpdate(v, s, p, path) == Attempt(if Duplicate(v, s, p, path) then s else Enqueue(s, p, path), false)
  {}

  lemma MapUpdatesCommute<K, V>(m: map<K, V>, k: K, x: V, l: K, y: V)
    requires k != l
    ensures m[k := x][l := y] == m[l := y][k := x]
  {}

  lemma EnqueuesCommute<A>(s: State<A>, p: Prefix, path: Path, q: Prefix, other: Path)
    requires p != q && path != other
    ensures Enqueue(Enqueue(s, p, path), q, other) == Enqueue(Enqueue(s, q, other), p, path)
  {
    var mine := (if path in s.byPath then s.byPath[path] else []) + [p];
    var yours := (if other in s.byPath then s.byPath[other] else []) + [q];
    MapUpdatesCommute(s.rib, p, path, q, other);
    MapUpdatesCommute(s.pending, p, path, q, other);
    MapUpdatesCommute(s.byPath, path, mine, other, yours);
    assert Enqueue(Enqueue(s, p, path), q, other).byPath == s.byPath[path := mine][other := yours];
    assert Enqueue(Enqueue(s, q, other), p, path).byPath == s.byPath[other := yours][path := mine];
  }

  lemma AtomicsCommute<A>(v: Variant, s: State<A>, p: Prefix, path: Path, q: Prefix, other: Path)
    requires p != q && path != other && Ready(v, s, path) && Ready(v, s, other)
    ensures AtomicUpdate(v, AtomicUpdate(v, s, p, path).state, q, other)
         == AtomicUpdate(v, AtomicUpdate(v, s, q, other).state, p, path)
  {
    AtomicIsEnqueue(v, s, p, path);
    AtomicIsEnqueue(v, s, q, other);
    AtomicIsEnqueue(v, AtomicUpdate(v, s, p, path).state, q, other);
    AtomicIsEnqueue(v, AtomicUpdate(v, s, q, other).state, p, path);
    EnqueuesCommute(s, p, path, q, other);
  }

  lemma {:induction false} AtomicsStayReady<A>(v: Variant, s: State<A>, ps: seq<Prefix>, path: Path)
    requires Ready(v, s, path)
    ensures var r := AtomicUpdates(v, s, ps, path);
      !r.raised && s.byPath.Keys <= r.state.byPath.Keys && r.state.locked == s.locked
    decreases |ps|
  {
    if ps != [] { AtomicsStayReady(v, AtomicUpdate(v, s, ps[0], path).state, ps[1..], path); }
  }

  lemma {:induction false} OneCommutes<A>(v: Variant, s: State<A>, p: Prefix, path: Path, qs: seq<Prefix>, other: Path)
    requires p !in qs && path != other && Ready(v, s, path) && Ready(v, s, other)
    ensures AtomicUpdates(v, AtomicUpdate(v, s, p, path).state, qs, other)
         == AtomicUpdate(v, AtomicUpdates(v, s, qs, other).state, p, path)
    decreases |qs|
  {
    if qs != [] {
      AtomicsCommute(v, s, p, path, qs[0], other);
      OneCommutes(v, AtomicUpdate(v, s, qs[0], other).state, p, path, qs[1..], other);
    }
  }

  lemma {:induction false} ManyCommute<A>(v: Variant, s: State<A>, ps: seq<Prefix>, path: Path, qs: seq<Prefix>,
                                          other: Path)
    requires Disjoint(ps, qs) && path != other && Ready(v, s, path) && Ready(v, s, other)
    ensures AtomicUpdates(v, AtomicUpdates(v, s, ps, path).state, qs, other)
         == AtomicUpdates(v, AtomicUpdates(v, s, qs, other).state, ps, path)
    decreases |ps|
  {
    if ps == [] {
      AtomicsStayReady(v, s, qs, other);
    } else {
      var s1 := AtomicUpdate(v, s, ps[0], path).state;
      ManyCommute(v, s1, ps[1..], path, qs, other);
      OneCommutes(v, s, ps[0], path, qs, other);
      AtomicsStayReady(v, s1, qs, other);
    }
  }

  lemma RegisterCommutesOnce<A>(v: Variant, s: State<A>, h: Hash, a: A, q: Prefix)
    requires Ready(v, s, None)
    ensures AtomicUpdate(v, Register(s, h, a), q, None).state == Register(AtomicUpdate(v, s, q, None).state, h, a)
    ensures !AtomicUpdate(v, Register(s, h, a), q, None).raised && !AtomicUpdate(v, s, q, None).raised
  {
    AtomicIsEnqueue(v, s, q, None);
    AtomicIsEnqueue(v, Register(s, h, a), q, None);
    if Some(h) !in s.byPath {
      var queued := (if None in s.byPath then s.byPath[None] else []) + [q];
      MapUpdatesCommute(s.byPath, Some(h), [], None, queued);
    }
  }

  lemma {:induction false} RegisterCommutes<A>(v: Variant, s: State<A>, h: Hash, a: A, qs: seq<Prefix>)
    requires Ready(v, s, None)
    ensures AtomicUpdates(v, Register(s, h, a), qs, None).state == Register(AtomicUpdates(v, s, qs, None).state, h, a)
    decreases |qs|
  {
    if qs != [] {
      RegisterCommutesOnce(v, s, h, a, qs[0]);
      RegisterCommutes(v, AtomicUpdate(v, s, qs[0], None).state, h, a, qs[1..]);
    }
  }

  lemma OrdersAgreeWithList<A>(v: Variant, hash: A -> Hash, s: State<A>, a: A, ps: seq<Prefix>, qs: seq<Prefix>)
    requires !s.locked && Ready(v, s, None)
    ensures UpdateThenWithdraw(v, hash, s, a, ps, qs) == WithdrawThenUpdate(v, hash, s, a, ps, qs) <==> Disjoint(ps, qs)
  {
    var h := hash(a);
    var s1 := Register(s, h, a);
    AtomicsStayReady(v, s1, ps, Some(h));
    AtomicsStayReady(v, AtomicUpdates(v, s1, ps, Some(h)).state, qs, None);
    AtomicsStayReady(v, s, qs, None);
    RegisterCommutes(v, s, h, a, qs);
    var s2 := AtomicUpdates(v, s1, qs, None).state;
    AtomicsStayReady(v, s1, qs, None);
    AtomicsStayReady(v, s2, ps, Some(h));
    if Disjoint(ps, qs) {
      ManyCommute(v, s1, ps, Some(h), qs, None);
    } else {
      var p :| p in ps && p in qs;
      AtomicsAssign(v, AtomicUpdates(v, s1, ps, Some(h)).state, qs, None);
      AtomicsAssign(v, s2, ps, Some(h));
      assert UpdateThenWithdraw(v, hash, s, a, ps, qs).rib[p] == None;
      assert WithdrawThenUpdate(v, hash, s, a, ps, qs).rib[p] == Some(h);
    }
  }

  lemma {:induction false} AtomicsLengthen<A>(s: State<A>, ps: seq<Prefix>, path: Path)
    requires path in s.byPath
    ensures var r := AtomicUpdates(AsWritten, s, ps, path);
      !r.raised && path in r.state.byPath && |r.state.byPath[path]| == |s.byPath[path]| + |ps|
      && (None in r.state.byPath <==> None in s.byPath) && r.state.locked == s.locked
    decreases |ps|
  {
    if ps != [] { AtomicsLengthen(AtomicUpdate(AsWritten, s, ps[0], path).state, ps[1..], path); }
  }

  /** Without the list of withdraws both orders raise, and the announcement is lost when it comes second. */
  lemma OrdersAgreeWithoutList<A>(hash: A -> Hash, s: State<A>, a: A, ps: seq<Prefix>, qs: seq<Prefix>)
    requires !s.locked && None !in s.byPath && qs != []
    ensures UpdateThenWithdraw(AsWritten, hash, s, a, ps, qs) == WithdrawThenUpdate(AsWritten, hash, s, a, ps, qs) <==>
      ps == [] && Register(s, hash(a), a) == s
  {
    var h := hash(a);
    var s1 := Register(s, h, a);
    var s2 := Update(AsWritten, hash, s, a, ps);
    AtomicsLengthen(s1, ps, Some(h));
    WithdrawRaises(s, hash, a, qs);
    WithdrawRaises(s2, hash, a, qs);
    assert UpdateThenWithdraw(AsWritten, hash, s, a, ps, qs).byPath == s2.byPath;
    assert WithdrawThenUpdate(AsWritten, hash, s, a, ps, qs).byPath == s.byPath;
    if ps == [] { assert s2 == s1; }
  }

  /**
   * The two orders leave the same table, attribute store and queues if and only if the message does not both
   * announce and withdraw a prefix. Where the code as written has lost its list of withdraws and has one to
   * make, they do only if the update has nothing to do.
   */
  lemma OrdersAgree<A>(v: Variant, hash: A -> Hash, s: State<A>, a: A, ps: seq<Prefix>, qs: seq<Prefix>)
    requires !s.locked
    ensures UpdateThenWithdraw(v, hash, s, a, ps, qs) == WithdrawThenUpdate(v, hash, s, a, ps, qs) <==>
      if Ready(v, s, None) || qs == [] then Disjoint(ps, qs) else ps == [] && Register(s, hash(a), a) == s
  {
    if Ready(v, s, None) {
      OrdersAgreeWithList(v, hash, s, a, ps, qs);
    } else if qs == [] {
      AtomicsLengthen(Register(s, hash(a), a), ps, Some(hash(a)));
    } else {
      OrdersAgreeWithoutList(hash, s, a, ps, qs);
    }
  }
}
