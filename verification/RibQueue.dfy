/**
 * The per-peer routing table of BGPribdb.py and its queue of unsent changes, as values:
 * the state, one function per operation, and the consumer that applies what it is handed.
 * The class that updates this state in place is in BgpRibDb.dfy.
 */
module RibQueue {
  import opened Types

  type Hash = int

  /** What a prefix is routed by: the hash of its path attributes, or None once it is withdrawn. */
  type Path = Option<Hash>

  type RefreshLists = map<Hash, seq<Prefix>>

  datatype State<A> = State(
    rib: map<Prefix, Path>,
    attrs: map<Hash, A>,               // path_attributes
    pending: map<Prefix, Path>,        // update_requests
    byPath: map<Path, seq<Prefix>>,    // path_update_requests
    refreshing: Option<RefreshLists>,  // refresh_update_requests
    locked: bool)                      // db_lock is still held by a producer call that raised

  function Initial<A>(): State<A> {
    State(map[], map[], map[], map[None := []], None, false)
  }

  // ---------- producer side ----------

  datatype Attempt<A> = Attempt(state: State<A>, raised: bool)

  /**
   * atomic_update. As written the duplicate test asks whether the path is a key of `rib`; the keys of
   * `rib` are prefixes, so the test never finds a duplicate and every call is scheduled. The list of the
   * path is looked up after `rib` has been written, so a missing list raises with `rib` already changed.
   */
  function AtomicUpdate<A>(v: Variant, s: State<A>, p: Prefix, path: Path): Attempt<A> {
    if v.Intended? && p in s.rib && s.rib[p] == path then
      Attempt(s, false)
    else
      var s1 := s.(rib := s.rib[p := path]);
      if path !in s.byPath && v.AsWritten? then
        Attempt(s1, true)
      else
        var queued := if path in s.byPath then s.byPath[path] else [];
        Attempt(s1.(byPath := s.byPath[path := queued + [p]], pending := s.pending[p := path]), false)
  }

  function AtomicUpdates<A>(v: Variant, s: State<A>, ps: seq<Prefix>, path: Path): Attempt<A>
    decreases |ps|
  {
    if ps == [] then Attempt(s, false)
    else
      var first := AtomicUpdate(v, s, ps[0], path);
      if first.raised then first else AtomicUpdates(v, first.state, ps[1..], path)
  }

  /** The lock is taken before the loop and given back after it, so it stays taken when the loop raises. */
  function Locked<A>(r: Attempt<A>): State<A> {
    r.state.(locked := r.raised)
  }

  function Register<A>(s: State<A>, h: Hash, a: A): State<A> {
    s.(attrs := if h in s.attrs then s.attrs else s.attrs[h := a],
       byPath := if Some(h) in s.byPath then s.byPath else s.byPath[Some(h) := []])
  }

  /** A producer call that finds the lock held never returns; it is modelled as leaving the state alone. */
  function Update<A>(v: Variant, hash: A -> Hash, s: State<A>, a: A, ps: seq<Prefix>): State<A> {
    if s.locked then s
    else Locked(AtomicUpdates(v, Register(s, hash(a), a), ps, Some(hash(a))))
  }

  function Withdraw<A>(v: Variant, s: State<A>, ps: seq<Prefix>): State<A> {
    if s.locked then s else Locked(AtomicUpdates(v, s, ps, None))
  }

  /** refresh tests the hash for truth, as Python does: None is false, and so is a hash of zero. */
  predicate Announced(v: Variant, path: Path) {
    path.Some? && (v.AsWritten? ==> path.value != 0)
  }

  predicate Distinct(ps: seq<Prefix>) {
    forall i, j :: 0 <= i < j < |ps| ==> ps[i] != ps[j]
  }

  ghost predicate Queued(lists: Option<RefreshLists>, p: Prefix, h: Hash) {
    lists.Some? && h in lists.value && p in lists.value[h]
  }

  /**
   * The lists refresh builds. Their order is the iteration order of the dictionary and is left open;
   * what is fixed is that they split the announced part of the table by path.
   */
  ghost predicate Splits(v: Variant, rib: map<Prefix, Path>, lists: RefreshLists) {
    && (forall h :: h in lists ==> lists[h] != [] && Distinct(lists[h]))
    && (forall p, h :: Queued(Some(lists), p, h) <==> p in rib && rib[p] == Some(h) && Announced(v, rib[p]))
  }

  function Refresh<A>(s: State<A>, lists: RefreshLists): State<A> {
    if s.locked then s
    else s.(byPath := map[None := []], pending := map[], refreshing := Some(lists))
  }

  // ---------- consumer side ----------

  /** What the consumer is told to route a prefix by: attributes, a bare hash, or nothing. */
  datatype Label<A> = Withdrawn | Attributes(a: A) | RawHash(h: Hash)

  datatype Reply<A> = NothingLeft | EndOfRib | Batch(tag: Label<A>, ps: seq<Prefix>)

  type Table<A> = map<Prefix, Label<A>>

  /** groom_updates: the prefixes still waiting for exactly this path, and what then remains pending. */
  function Groom(rib: map<Prefix, Path>, pending: map<Prefix, Path>, path: Path, ps: seq<Prefix>)
    : (seq<Prefix>, map<Prefix, Path>)
  {
    if ps == [] then ([], pending)
    else
      var p := ps[0];
      if p in rib && rib[p] == path && p in pending && pending[p] == path then
        var (rest, left) := Groom(rib, pending - {p}, path, ps[1..]);
        ([p] + rest, left)
      else
        Groom(rib, pending, path, ps[1..])
  }

  function Resolved<A>(s: State<A>, h: Hash): Label<A> {
    if h in s.attrs then Attributes(s.attrs[h]) else RawHash(h)
  }

  /** The label of a refresh item: as written the hash itself is handed out. */
  function RefreshLabel<A>(v: Variant, s: State<A>, h: Hash): Label<A> {
    if v.AsWritten? then RawHash(h) else Resolved(s, h)
  }

  /** The entries popitem may choose from. */
  predicate Pickable<A>(s: State<A>, pick: Hash) {
    match s.refreshing
    case Some(lists) => lists != map[] ==> pick in lists
    case None => None !in s.byPath && s.byPath != map[] ==> Some(pick) in s.byPath
  }

  function GetRefresh<A>(v: Variant, s: State<A>, pick: Hash): (r: (State<A>, Reply<A>))
    requires s.refreshing.Some? && Pickable(s, pick)
  {
    var lists := s.refreshing.value;
    if lists == map[] then (s.(refreshing := None), EndOfRib)
    else (s.(refreshing := Some(lists - {pick})), Batch(RefreshLabel(v, s, pick), lists[pick]))
  }

  function GetPath<A>(s: State<A>, path: Path, tag: Label<A>): (r: (State<A>, Reply<A>))
    requires path in s.byPath
  {
    var (ps, left) := Groom(s.rib, s.pending, path, s.byPath[path]);
    (s.(byPath := s.byPath - {path}, pending := left), Batch(tag, ps))
  }

  /**
   * get_update_request. The popped path is looked up in path_attributes before its list is groomed; a
   * path that is not there raises KeyError, which the call reports as "nothing left". As written that
   * includes None, which is never there.
   */
  function Get<A>(v: Variant, s: State<A>, pick: Hash): (r: (State<A>, Reply<A>))
    requires Pickable(s, pick)
  {
    if s.refreshing.Some? then GetRefresh(v, s, pick)
    else if None in s.byPath then
      if v.AsWritten? then (s.(byPath := s.byPath - {None}), NothingLeft)
      else GetPath(s, None, Withdrawn)
    else if s.byPath == map[] then (s, NothingLeft)
    else if pick in s.attrs then GetPath(s, Some(pick), Attributes(s.attrs[pick]))
    else (s.(byPath := s.byPath - {Some(pick)}), NothingLeft)
  }

  /** The consumer: a withdraw batch removes its prefixes, any other batch routes them by its label. */
  function Apply<A>(t: Table<A>, reply: Reply<A>): Table<A> {
    match reply
    case NothingLeft => t
    case EndOfRib => t
    case Batch(tag, ps) =>
      if tag.Withdrawn? then map p | p in t && p !in ps :: t[p]
      else map p | p in t.Keys + (set q | q in ps) :: if p in ps then tag else t[p]
  }

  function Lookup<A>(t: Table<A>, p: Prefix): Option<Label<A>> {
    if p in t then Some(t[p]) else None
  }

  // ---------- runs ----------

  datatype Op<A> =
    | DoUpdate(a: A, ps: seq<Prefix>)
    | DoWithdraw(ps: seq<Prefix>)
    | DoRefresh(lists: RefreshLists)
    | DoGet(pick: Hash)

  /**
   * The table, the consumer, the live routes as they were when the last refresh was asked for, and the
   * prefix whose withdraw raised, if one has: it is withdrawn in the table and was never queued.
   */
  datatype Config<A> = Config(state: State<A>, table: Table<A>, snapshot: map<Prefix, Hash>, torn: Option<Prefix>)

  function Start<A>(): Config<A> {
    Config(Initial(), map[], map[], None)
  }

  ghost predicate Legal<A>(v: Variant, c: Config<A>, op: Op<A>) {
    match op
    case DoUpdate(_, _) => true
    case DoWithdraw(_) => true
    case DoRefresh(lists) => Splits(v, c.state.rib, lists)
    case DoGet(pick) => Pickable(c.state, pick)
  }

  /** The routes a refresh sends. */
  function Live(v: Variant, rib: map<Prefix, Path>): map<Prefix, Hash> {
    map p | p in rib && Announced(v, rib[p]) :: rib[p].value
  }

  /** One atomic step. A refresh is asked for by a consumer that starts over with an empty table. */
  ghost function Step<A>(v: Variant, hash: A -> Hash, c: Config<A>, op: Op<A>): Config<A>
    requires Legal(v, c, op)
  {
    match op
    case DoUpdate(a, ps) => c.(state := Update(v, hash, c.state, a, ps))
    case DoWithdraw(ps) =>
      var s := Withdraw(v, c.state, ps);
      c.(state := s, torn := if !c.state.locked && s.locked && ps != [] then Some(ps[0]) else c.torn)
    case DoRefresh(lists) =>
      var s := Refresh(c.state, lists);
      if c.state.locked then c.(state := s) else Config(s, map[], Live(v, c.state.rib), c.torn)
    case DoGet(pick) =>
      var (s, reply) := Get(v, c.state, pick);
      c.(state := s, table := Apply(c.table, reply))
  }

  ghost predicate LegalRun<A>(v: Variant, hash: A -> Hash, c: Config<A>, ops: seq<Op<A>>)
    decreases |ops|
  {
    ops == [] || (Legal(v, c, ops[0]) && LegalRun(v, hash, Step(v, hash, c, ops[0]), ops[1..]))
  }

  ghost function Run<A>(v: Variant, hash: A -> Hash, c: Config<A>, ops: seq<Op<A>>): Config<A>
    requires LegalRun(v, hash, c, ops)
    decreases |ops|
  {
    if ops == [] then c else Run(v, hash, Step(v, hash, c, ops[0]), ops[1..])
  }
}
