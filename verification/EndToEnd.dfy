/** From encoded messages in arbitrary blocks to each peer's table and its consumer. */
module EndToEnd {
  import opened Types
  import opened Bytes
  import opened Framing
  import opened RibQueue
  import opened RibInvariant
  import opened RibAgreement
  import opened RibDrain
  import opened RibAsWritten
  import opened RibLedger
  import opened BmpSession
  import U = BgpUpdate

  /** A Route Monitoring message (section 4.6 of RFC 7854): the peer, a timestamp, and one UPDATE. */
  datatype RouteMsg = RouteMsg(peer: bytes, stamp: bytes, routes: U.Routes)

  predicate Sendable(env: Env, m: RouteMsg) {
    && |m.peer| == 34 && |m.stamp| == 8
    && U.Sendable(m.routes) && 19 + |U.EncodeBody(m.routes)| < 0x1_0000
    && U.ParseAttributes(env.variant, [], m.routes.attributes).Ok?
    && (m.routes.prefixes != [] ==> U.Mandatory(AttributesOf(env, m)))
  }

  function AttributesOf(env: Env, m: RouteMsg): U.Attributes
    requires U.ParseAttributes(env.variant, [], m.routes.attributes).Ok?
  {
    U.ParseAttributes(env.variant, [], m.routes.attributes).value
  }

  /** What the receiver reads from the message. */
  function UpdateOf(env: Env, m: RouteMsg): U.Update
    requires U.ParseAttributes(env.variant, [], m.routes.attributes).Ok?
  {
    U.Update.Update(m.routes.withdrawn, m.routes.prefixes, AttributesOf(env, m), false)
  }

  function EncodeRoutes(env: Env, m: RouteMsg): bytes
    requires Sendable(env, m)
  {
    var bgp := U.EncodeBgp(U.EncodeBody(m.routes));
    [3] + Put32(48 + |bgp|) + [0] + m.peer + m.stamp + bgp
  }

  lemma EncodedIsMessage(env: Env, m: RouteMsg)
    requires Sendable(env, m)
    ensures var b := EncodeRoutes(env, m);
      && IsMessage(b) && Accepted(env, b) && b[5] == ROUTE_MONITORING && |b| > 47
      && b[6..40] == m.peer && b[48..] == U.EncodeBgp(U.EncodeBody(m.routes))
  {
    var b, bgp := EncodeRoutes(env, m), U.EncodeBgp(U.EncodeBody(m.routes));
    assert b[1..5] == Put32(48 + |bgp|) && Be32(b, 1) == Be32(b[1..5], 0);
    assert b[6..40] == m.peer && b[48..] == bgp;
  }

  /** What a session carries: Route Monitoring messages, and among them any accepted ones of the other kinds. */
  datatype Msg = Routing(m: RouteMsg) | Other(frame: bytes)

  predicate CanSend(env: Env, x: Msg) {
    match x
    case Routing(m) => Sendable(env, m)
    case Other(frame) => IsMessage(frame) && Accepted(env, frame) && frame[5] != ROUTE_MONITORING
  }

  predicate AllSendable(env: Env, ms: seq<Msg>) {
    forall i :: 0 <= i < |ms| ==> CanSend(env, ms[i])
  }

  function Encode(env: Env, x: Msg): bytes
    requires CanSend(env, x)
  {
    match x
    case Routing(m) => EncodeRoutes(env, m)
    case Other(frame) => frame
  }

  function EncodeAll(env: Env, ms: seq<Msg>): seq<bytes>
    requires AllSendable(env, ms)
  {
    if ms == [] then [] else [Encode(env, ms[0])] + EncodeAll(env, ms[1..])
  }

  // ---------- one peer's share of the stream ----------

  /** What a message asks for: an update and a withdraw on the table of one peer, a table for a new peer, or nothing. */
  datatype Call = Call(key: Hash, update: U.Update) | Meet(key: Hash) | Ignore

  function CallOf(env: Env, x: Msg): Call
    requires CanSend(env, x)
  {
    match x
    case Routing(m) => Call(env.peerHash(m.peer), UpdateOf(env, m))
    case Other(frame) => if frame[5] == INITIATION then Ignore else Meet(PeerKey(env, frame))
  }

  function Calls(env: Env, ms: seq<Msg>): (calls: seq<Call>)
    requires AllSendable(env, ms)
    ensures |calls| == |ms|
  {
    seq(|ms|, i requires 0 <= i < |ms| => CallOf(env, ms[i]))
  }

  lemma CallsFirst(env: Env, ms: seq<Msg>)
    requires ms != [] && AllSendable(env, ms)
    ensures Calls(env, ms)[0] == CallOf(env, ms[0]) && Calls(env, ms)[1..] == Calls(env, ms[1..])
  {}

  /** The producer calls on the table of one peer. */
  function OpsFor(calls: seq<Call>, key: Hash): seq<Op<U.Attributes>> {
    if calls == [] then []
    else OpsOfCall(calls[0], key) + OpsFor(calls[1..], key)
  }

  function OpsOfCall(call: Call, key: Hash): seq<Op<U.Attributes>> {
    if call.Call? && call.key == key then
      [DoUpdate(call.update.attributes, call.update.prefixes), DoWithdraw(call.update.withdrawn)]
    else []
  }

  function PeerOps(env: Env, ms: seq<Msg>, key: Hash): seq<Op<U.Attributes>>
    requires AllSendable(env, ms)
  {
    OpsFor(Calls(env, ms), key)
  }

  predicate Mentions(calls: seq<Call>, key: Hash) {
    exists i :: 0 <= i < |calls| && !calls[i].Ignore? && calls[i].key == key
  }

  predicate AllUnlocked(peers: Peers) {
    forall k :: k in peers ==> !peers[k].locked
  }

  /** A table no one has read or asked a refresh of: no withdraw can make it raise, all of it is pending. */
  predicate Ready(s: Rib) {
    !s.locked && None in s.byPath && s.refreshing.None? && s.pending == s.rib
  }

  predicate AllReady(peers: Peers) {
    forall k :: k in peers ==> Ready(peers[k])
  }

  lemma {:induction false} AtomicsStayReady<A>(v: Variant, s: State<A>, ps: seq<Prefix>, path: Path)
    requires None in s.byPath && path in s.byPath && s.pending == s.rib
    ensures var r := AtomicUpdates(v, s, ps, path);
      !r.raised && None in r.state.byPath && r.state.refreshing == s.refreshing && r.state.pending == r.state.rib
    decreases |ps|
  {
    if ps != [] { AtomicsStayReady(v, AtomicUpdate(v, s, ps[0], path).state, ps[1..], path); }
  }

  lemma RoutedStaysReady(env: Env, s: Rib, u: U.Update)
    requires Ready(s)
    ensures Ready(Routed(env, s, u))
  {
    var v, h := env.variant, env.hash(u.attributes);
    AtomicsStayReady(v, Register(s, h, u.attributes), u.prefixes, Some(h));
    AtomicsStayReady(v, Update(v, env.hash, s, u.attributes, u.prefixes), u.withdrawn, None);
  }

  lemma {:induction false} NeverRaises<A>(s: State<A>, ps: seq<Prefix>, path: Path)
    ensures !AtomicUpdates(Intended, s, ps, path).raised
    decreases |ps|
  {
    if ps != [] { NeverRaises(AtomicUpdate(Intended, s, ps[0], path).state, ps[1..], path); }
  }

  lemma RoutedStaysUnlocked(env: Env, s: Rib, u: U.Update)
    requires env.variant.Intended? && !s.locked
    ensures !Routed(env, s, u).locked
  {
    var h := env.hash(u.attributes);
    NeverRaises(Register(s, h, u.attributes), u.prefixes, Some(h));
    NeverRaises(Update(Intended, env.hash, s, u.attributes, u.prefixes), u.withdrawn, None);
  }

  lemma HandleParsed(env: Env, peers: Peers, key: Hash, u: U.Update)
    requires !u.exceptFlag
    ensures var s := Routed(env, RibOf(peers, key), u);
      HandleBgp(env, WithPeer(peers, key), key, Ok(U.UpdateMessage(u))) == (peers[key := s], !s.locked)
  {
    var s := Routed(env, RibOf(peers, key), u);
    assert WithPeer(peers, key)[key := s] == peers[key := s];
  }

  lemma ParseEncoded(env: Env, m: RouteMsg)
    requires Sendable(env, m)
    ensures U.ParseBgp(env.variant, U.EncodeBgp(U.EncodeBody(m.routes))) == Ok(U.UpdateMessage(UpdateOf(env, m)))
  {
    U.BgpRoundTrip(env.variant, U.EncodeBody(m.routes));
    U.BodyRoundTrip(env.variant, m.routes);
  }

  /** What a call does to the tables, and whether it returns. */
  function MakeCall(env: Env, peers: Peers, call: Call): (Peers, bool) {
    match call
    case Call(key, u) =>
      var s := Routed(env, RibOf(peers, key), u);
      (peers[key := s], !s.locked)
    case Meet(key) => (WithPeer(peers, key), true)
    case Ignore => (peers, true)
  }

  function MakeAll(env: Env, peers: Peers, calls: seq<Call>): (Peers, bool)
    decreases |calls|
  {
    if calls == [] then (peers, true)
    else
      var (next, ok) := MakeCall(env, peers, calls[0]);
      if ok then MakeAll(env, next, calls[1..]) else (next, false)
  }

  lemma HandleEncoded(env: Env, peers: Peers, x: Msg)
    requires CanSend(env, x)
    ensures Handle(env, peers, Encode(env, x)) == MakeCall(env, peers, CallOf(env, x))
  {
    if x.Routing? {
      EncodedIsMessage(env, x.m);
      ParseEncoded(env, x.m);
      HandleParsed(env, peers, env.peerHash(x.m.peer), UpdateOf(env, x.m));
    }
  }

  lemma {:induction false} HandleAllMakesCalls(env: Env, peers: Peers, ms: seq<Msg>)
    requires AllSendable(env, ms)
    ensures HandleAll(env, peers, EncodeAll(env, ms)) == MakeAll(env, peers, Calls(env, ms))
    decreases |ms|
  {
    if ms != [] {
      HandleEncoded(env, peers, ms[0]);
      CallsFirst(env, ms);
      assert EncodeAll(env, ms)[1..] == EncodeAll(env, ms[1..]);
      HandleAllMakesCalls(env, MakeCall(env, peers, CallOf(env, ms[0])).0, ms[1..]);
    }
  }

  /** No table that has routes to withdraw has lost its list of withdraws. */
  predicate ListsThere(peers: Peers, calls: seq<Call>) {
    forall i :: 0 <= i < |calls| && calls[i].Call? && calls[i].update.withdrawn != [] ==>
      None in RibOf(peers, calls[i].key).byPath
  }

  lemma RoutedReturns(env: Env, s: Rib, u: U.Update)
    requires env.variant.AsWritten? && !s.locked
    ensures var s' := Routed(env, s, u);
      && (s'.locked <==> u.withdrawn != [] && None !in s.byPath)
      && (!s'.locked ==> (None in s'.byPath <==> None in s.byPath))
  {
    var s1 := Update(AsWritten, env.hash, s, u.attributes, u.prefixes);
    UpdatePends(env.hash, s, u.attributes, u.prefixes);
    WithdrawRaises(s1, env.hash, u.attributes, u.withdrawn);
    if u.withdrawn == [] || None in s1.byPath { WithdrawPends(env.hash, s1, u.withdrawn); }
  }

  lemma ListsThereFirst(peers: Peers, next: Peers, calls: seq<Call>)
    requires calls != []
    requires forall k :: None in RibOf(next, k).byPath <==> None in RibOf(peers, k).byPath
    ensures ListsThere(peers, calls) <==>
      && (calls[0].Call? && calls[0].update.withdrawn != [] ==> None in RibOf(peers, calls[0].key).byPath)
      && ListsThere(next, calls[1..])
  {
    assert forall i :: 0 < i < |calls| ==> calls[i] == calls[1..][i - 1];
    assert forall i :: 0 <= i < |calls[1..]| ==> calls[1..][i] == calls[i + 1];
  }

  /** As written every call returns exactly if no withdraw is made on a table that has lost its list. */
  lemma {:induction false} CallsReturn(env: Env, peers: Peers, calls: seq<Call>)
    requires env.variant.AsWritten? && AllUnlocked(peers)
    ensures MakeAll(env, peers, calls).1 <==> ListsThere(peers, calls)
    decreases |calls|
  {
    if calls != [] {
      var (next, ok) := MakeCall(env, peers, calls[0]);
      if calls[0].Call? { RoutedReturns(env, RibOf(peers, calls[0].key), calls[0].update); }
      if ok {
        ListsThereFirst(peers, next, calls);
        CallsReturn(env, next, calls[1..]);
      }
    }
  }

  /** Nothing raises while no table has been read, and as intended nothing ever does. */
  lemma {:induction false} CallsSucceed(env: Env, peers: Peers, calls: seq<Call>)
    requires AllUnlocked(peers) && (AllReady(peers) || env.variant.Intended?)
    ensures var (end, ok) := MakeAll(env, peers, calls);
      ok && (AllReady(peers) ==> AllReady(end))
    decreases |calls|
  {
    if calls != [] {
      if calls[0].Call? {
        var before, u := RibOf(peers, calls[0].key), calls[0].update;
        if AllReady(peers) { RoutedStaysReady(env, before, u); } else { RoutedStaysUnlocked(env, before, u); }
      }
      CallsSucceed(env, MakeCall(env, peers, calls[0]).0, calls[1..]);
    }
  }

  lemma MentionsFirst(calls: seq<Call>, key: Hash)
    requires calls != []
    ensures Mentions(calls, key) <==> (!calls[0].Ignore? && calls[0].key == key) || Mentions(calls[1..], key)
  {
    assert forall i :: 0 < i < |calls| ==> calls[i] == calls[1..][i - 1];
    assert forall i :: 0 <= i < |calls[1..]| ==> calls[1..][i] == calls[i + 1];
  }

  lemma {:induction false} CallsReachPeers(env: Env, peers: Peers, calls: seq<Call>, key: Hash)
    requires AllUnlocked(peers) && MakeAll(env, peers, calls).1
    ensures var end := MakeAll(env, peers, calls).0;
      AllUnlocked(end) && (key in end <==> key in peers || Mentions(calls, key))
    decreases |calls|
  {
    if calls != [] {
      CallsReachPeers(env, MakeCall(env, peers, calls[0]).0, calls[1..], key);
      MentionsFirst(calls, key);
    }
  }

  /** These operations take the table of a peer, and its consumer, from one configuration to another. */
  ghost predicate Leads(env: Env, c: Config<U.Attributes>, ops: seq<Op<U.Attributes>>, end: Config<U.Attributes>) {
    LegalRun(env.variant, env.hash, c, ops) && Run(env.variant, env.hash, c, ops) == end
  }

  /** A message that is applied without a raise is two producer calls, whatever the consumer has read so far. */
  lemma LeadsFirst(env: Env, c: Config<U.Attributes>, u: U.Update, rest: seq<Op<U.Attributes>>,
                   end: Config<U.Attributes>)
    requires !c.state.locked && !Routed(env, c.state, u).locked
    requires Leads(env, c.(state := Routed(env, c.state, u)), rest, end)
    ensures Leads(env, c, [DoUpdate(u.attributes, u.prefixes), DoWithdraw(u.withdrawn)] + rest, end)
  {
    var ops := [DoUpdate(u.attributes, u.prefixes), DoWithdraw(u.withdrawn)] + rest;
    assert ops[1..][1..] == rest;
    var c1 := Step(env.variant, env.hash, c, ops[0]);
    assert Step(env.variant, env.hash, c1, ops[1..][0]) == c.(state := Routed(env, c.state, u));
  }

  lemma {:induction false} CallsAreRun(env: Env, peers: Peers, calls: seq<Call>, key: Hash, c: Config<U.Attributes>)
    requires AllUnlocked(peers) && c.state == RibOf(peers, key) && MakeAll(env, peers, calls).1
    ensures Leads(env, c, OpsFor(calls, key), c.(state := RibOf(MakeAll(env, peers, calls).0, key)))
    decreases |calls|
  {
    if calls != [] {
      var next, rest := MakeCall(env, peers, calls[0]).0, OpsFor(calls[1..], key);
      var end := RibOf(MakeAll(env, peers, calls).0, key);
      if calls[0].Call? && calls[0].key == key {
        CallsAreRun(env, next, calls[1..], key, c.(state := RibOf(next, key)));
        LeadsFirst(env, c, calls[0].update, rest, c.(state := end));
      } else {
        CallsAreRun(env, next, calls[1..], key, c);
        EmptyIsNeutral(rest);
      }
    }
  }

  /**
   * Handling the messages runs, for each peer, exactly that peer's calls on its table, whatever has been read
   * from it, unless one raises. As intended none does; as written none does exactly if no message withdraws
   * from a table that has lost its list of withdraws.
   */
  lemma HandleAllEncoded(env: Env, peers: Peers, ms: seq<Msg>, key: Hash, c: Config<U.Attributes>)
    requires AllSendable(env, ms) && AllUnlocked(peers) && c.state == RibOf(peers, key)
    ensures var (end, ok) := HandleAll(env, peers, EncodeAll(env, ms));
      && (ok <==> env.variant.Intended? || ListsThere(peers, Calls(env, ms)))
      && (ok ==>
            && AllUnlocked(end) && (key in end <==> key in peers || Mentions(Calls(env, ms), key))
            && Leads(env, c, PeerOps(env, ms, key), c.(state := RibOf(end, key))))
      && (AllReady(peers) ==> ok && AllReady(end))
  {
    var calls := Calls(env, ms);
    HandleAllMakesCalls(env, peers, ms);
    if MakeAll(env, peers, calls).1 {
      CallsReachPeers(env, peers, calls, key);
      CallsAreRun(env, peers, calls, key, c);
    }
    if AllReady(peers) || env.variant.Intended? { CallsSucceed(env, peers, calls); }
    if env.variant.AsWritten? { CallsReturn(env, peers, calls); }
  }

  function AtRest(s: Rib): Config<U.Attributes> {
    Config(s, map[], map[], None)
  }

  lemma {:induction false} EncodeAllMessages(env: Env, ms: seq<Msg>)
    requires AllSendable(env, ms)
    ensures forall i :: 0 <= i < |EncodeAll(env, ms)| ==> IsMessage(EncodeAll(env, ms)[i])
    decreases |ms|
  {
    if ms != [] {
      if ms[0].Routing? { EncodedIsMessage(env, ms[0].m); }
      EncodeAllMessages(env, ms[1..]);
    }
  }

  lemma BmpdOnMessages(env: Env, ms: seq<Msg>, blocks: seq<bytes>)
    requires AllSendable(env, ms) && Received(blocks) == Concat(EncodeAll(env, ms))
    ensures Bmpd(env, map[], [], blocks) == HandleAll(env, map[], EncodeAll(env, ms))
  {
    var frames := EncodeAll(env, ms);
    EncodeAllMessages(env, ms);
    DrainMessages(frames, []);
    EmptyIsNeutral(Concat(frames));
    BmpdIsHandleAll(env, map[], [], blocks);
  }

  // ---------- the theorems ----------

  /**
   * End to end, as written and as intended: encoded messages of any peers, cut into any blocks, leave for
   * every peer exactly the table that its own updates and withdraws build.
   */
  lemma StreamBuildsTables(env: Env, ms: seq<Msg>, blocks: seq<bytes>, key: Hash)
    requires AllSendable(env, ms) && Received(blocks) == Concat(EncodeAll(env, ms))
    ensures var (end, ok) := Bmpd(env, map[], [], blocks);
      var ops := PeerOps(env, ms, key);
      && ok && (key in end <==> Mentions(Calls(env, ms), key))
      && Reachable(env.variant, env.hash, ops, AtRest(RibOf(end, key)))
      && RibOf(end, key).rib == Hashed(env.hash, LastSaid(map[], ops)) && Ready(RibOf(end, key))
  {
    BmpdOnMessages(env, ms, blocks);
    HandleAllEncoded(env, map[], ms, key, Start());
    RibIsLastSaid(env.variant, env.hash, Start(), PeerOps(env, ms, key), map[]);
  }

  /** And a consumer that then reads a peer's queue to its end holds the routes that peer announced last. */
  lemma StreamReachesConsumer(env: Env, ms: seq<Msg>, blocks: seq<bytes>, key: Hash,
                              used: set<U.Attributes>, picks: seq<Hash>)
    requires env.variant.Intended?
    requires AllSendable(env, ms) && Received(blocks) == Concat(EncodeAll(env, ms))
    requires UsesOnly(PeerOps(env, ms, key), used) && Separates(env.hash, used)
    requires var s := RibOf(Bmpd(env, map[], [], blocks).0, key);
      LegalReads(Intended, s, picks) && |picks| >= Remaining(s)
    ensures var s := RibOf(Bmpd(env, map[], [], blocks).0, key);
      Reads(Intended, s, map[], picks).1 == Expected(LastSaid(map[], PeerOps(env, ms, key)))
  {
    StreamBuildsTables(env, ms, blocks, key);
    var s := RibOf(Bmpd(env, map[], [], blocks).0, key);
    DrainReachesLastSaid(env.hash, PeerOps(env, ms, key), AtRest(s), used, picks);
  }

  /** Reading a table that nobody has read before serves a consumer that starts empty, in either variant. */
  lemma FreshConsumer(v: Variant, hash: U.Attributes -> Hash, ops: seq<Op<U.Attributes>>, s: Rib,
                      picks: seq<Hash>, p: Prefix)
    requires Reachable(v, hash, ops, AtRest(s)) && Ready(s)
    requires LegalReads(v, s, picks) && |picks| >= Remaining(s)
    ensures Matches(v, s, Lookup(Reads(v, s, map[], picks).1, p), p)
  {
    ViewsAgree(v, hash, ops, AtRest(s));
    DrainReachesSettled(v, s, None, map[], picks, p);
  }

  /**
   * As written the same holds of a consumer that starts empty and reads until the queue is really empty: it
   * never learned a route that it would have to drop.
   */
  lemma StreamReachesConsumerAsWritten(env: Env, ms: seq<Msg>, blocks: seq<bytes>, key: Hash,
                                       picks: seq<Hash>, p: Prefix)
    requires env.variant.AsWritten?
    requires AllSendable(env, ms) && Received(blocks) == Concat(EncodeAll(env, ms))
    requires var s := RibOf(Bmpd(env, map[], [], blocks).0, key);
      LegalReads(AsWritten, s, picks) && |picks| >= Remaining(s)
    ensures var s := RibOf(Bmpd(env, map[], [], blocks).0, key);
      Matches(AsWritten, s, Lookup(Reads(AsWritten, s, map[], picks).1, p), p)
  {
    StreamBuildsTables(env, ms, blocks, key);
    var s := RibOf(Bmpd(env, map[], [], blocks).0, key);
    FreshConsumer(AsWritten, env.hash, PeerOps(env, ms, key), s, picks, p);
  }
}
