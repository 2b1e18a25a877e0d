/**
 * From a byte stream to a table per peer: the BMP header checks of bmpparse.py, the demultiplexing of
 * bmpapp.py and the receive loop of collector.py, as functions on values. The classes are in BmpApp.dfy.
 */
module BmpSession {
  import opened Types
  import opened Bytes
  import opened Framing
  import opened RibQueue
  import U = BgpUpdate

  /**
   * What the code takes from outside: Python's hash of pickled attributes and of a peer header, and which
   * statistics, peer-down, peer-up and initiation messages BMP_message accepts.
   */
  datatype Env = Env(variant: Variant, hash: U.Attributes -> Hash, peerHash: bytes -> Hash, accepts: bytes -> bool)

  const ROUTE_MONITORING := 0
  const INITIATION := 4
  const TERMINATION := 5

  /**
   * BMP_message, which raises unless this holds. A termination message always raises, as its reason is
   * printed with a number format, and so does route mirroring, which is not implemented.
   */
  predicate Accepted(env: Env, frame: bytes) {
    && |frame| >= 6 && frame[0] == 3 && Be32(frame, 1) == |frame|
    && (frame[5] == INITIATION || |frame| > 47)
    && (frame[5] == ROUTE_MONITORING || (frame[5] < TERMINATION && env.accepts(frame)))
  }

  /** The part of the per-peer header that identifies the peer. */
  function PeerKey(env: Env, frame: bytes): Hash
    requires |frame| > 47
  {
    env.peerHash(frame[6..40])
  }

  type Rib = State<U.Attributes>
  type Peers = map<Hash, Rib>

  function RibOf(peers: Peers, key: Hash): Rib {
    if key in peers then peers[key] else Initial()
  }

  function WithPeer(peers: Peers, key: Hash): Peers {
    if key in peers then peers else peers[key := Initial()]
  }

  /** What an UPDATE does to the table of its peer: announcements first, then withdraws. */
  function Routed(env: Env, s: Rib, u: U.Update): Rib {
    Withdraw(env.variant, Update(env.variant, env.hash, s, u.attributes, u.prefixes), u.withdrawn)
  }

  /** Asking a message other than an UPDATE for its routes raises. */
  function HandleBgp(env: Env, known: Peers, key: Hash, parsed: Result<U.Bgp>): (Peers, bool)
    requires key in known
  {
    if parsed.Err? || !parsed.value.UpdateMessage? || parsed.value.update.exceptFlag then (known, false)
    else
      var s := Routed(env, known[key], parsed.value.update);
      (known[key := s], !s.locked)
  }

  /**
   * BmpContext.parse: the tables afterwards, and whether the call returned. It does not when the BGP message
   * does not parse or is not an UPDATE, when a mandatory attribute is missing (the report itself raises
   * NameError), or when the table of the peer raises or is found locked.
   */
  function Handle(env: Env, peers: Peers, frame: bytes): (Peers, bool) {
    if !Accepted(env, frame) then (peers, false)
    else if frame[5] == INITIATION then (peers, true)
    else
      var key := PeerKey(env, frame);
      var known := WithPeer(peers, key);
      if frame[5] != ROUTE_MONITORING then (known, true)
      else
        HandleBgp(env, known, key, U.ParseBgp(env.variant, frame[48..]))
  }

  /** What becomes of a Route Monitoring message, by what its BGP part parses to. */
  predicate AppliesRoutes(env: Env, peers: Peers, frame: bytes, end: Peers, ok: bool)
    requires |frame| >= 48
  {
    var key := env.peerHash(frame[6..40]);
    match U.ParseBgp(env.variant, frame[48..])
    case Ok(UpdateMessage(u)) =>
      if u.exceptFlag then end == peers[key := RibOf(peers, key)] && !ok
      else
        var s := Update(env.variant, env.hash, RibOf(peers, key), u.attributes, u.prefixes);
        var s' := Withdraw(env.variant, s, u.withdrawn);
        end == peers[key := s'] && ok == !s'.locked
    case _ => end == peers[key := RibOf(peers, key)] && !ok
  }

  lemma HandleRoutes(env: Env, peers: Peers, frame: bytes)
    requires IsMessage(frame) && frame[5] == 0 && |frame| >= 48
    ensures var (end, ok) := Handle(env, peers, frame); AppliesRoutes(env, peers, frame, end, ok)
  {
    var key := PeerKey(env, frame);
    var known, parsed := WithPeer(peers, key), U.ParseBgp(env.variant, frame[48..]);
    assert known == peers[key := RibOf(peers, key)];
    if parsed.Ok? && parsed.value.UpdateMessage? {
      var s := Routed(env, known[key], parsed.value.update);
      assert known[key := s] == peers[key := s];
    }
  }

  /**
   * Which messages do what, by the type numbers of section 4.1 of RFC 7854. Route Monitoring (0) applies its
   * routes. Statistics, Peer Down and Peer Up (1 to 3) at most make a table for a new peer. Initiation (4)
   * changes nothing. Termination (5), Route Mirroring (6) and everything that is no message raise.
   */
  lemma HandleByType(env: Env, peers: Peers, frame: bytes)
    ensures var (end, ok) := Handle(env, peers, frame);
      if !IsMessage(frame) then end == peers && !ok
      else if frame[5] == 0 && |frame| >= 48 then AppliesRoutes(env, peers, frame, end, ok)
      else if 1 <= frame[5] <= 3 && |frame| >= 48 && env.accepts(frame) then
        var key := env.peerHash(frame[6..40]);
        end == peers[key := RibOf(peers, key)] && ok
      else if frame[5] == 4 then end == peers && ok == env.accepts(frame)
      else end == peers && !ok
  {
    if |frame| >= 48 {
      assert WithPeer(peers, PeerKey(env, frame)) == peers[PeerKey(env, frame) := RibOf(peers, PeerKey(env, frame))];
      if IsMessage(frame) && frame[5] == 0 { HandleRoutes(env, peers, frame); }
    }
  }

  function HandleAll(env: Env, peers: Peers, frames: seq<bytes>): (Peers, bool)
    decreases |frames|
  {
    if frames == [] then (peers, true)
    else
      var (next, ok) := Handle(env, peers, frames[0]);
      if ok then HandleAll(env, next, frames[1..]) else (next, false)
  }

  /** Session.bmpd from a buffer and the blocks still to come: the tables, and whether it ended normally. */
  function Bmpd(env: Env, peers: Peers, buf: bytes, blocks: seq<bytes>): (Peers, bool)
    decreases |blocks|
  {
    if blocks == [] || blocks[0] == [] then (peers, true)
    else
      var d := Drain(buf + blocks[0]);
      var (next, ok) := HandleAll(env, peers, d.frames);
      if ok && !d.bad then Bmpd(env, next, d.residue, blocks[1..]) else (next, false)
  }

  lemma {:induction false} HandleAllAppend(env: Env, peers: Peers, frames: seq<bytes>, more: seq<bytes>)
    ensures var (next, ok) := HandleAll(env, peers, frames);
      HandleAll(env, peers, frames + more) == if ok then HandleAll(env, next, more) else (next, false)
    decreases |frames|
  {
    if frames == [] {
      EmptyIsNeutral(more);
    } else {
      var (next, ok) := Handle(env, peers, frames[0]);
      assert (frames + more)[1..] == frames[1..] + more;
      if ok { HandleAllAppend(env, next, frames[1..], more); }
    }
  }

  /** For every byte stream, well-formed or not, and every way of cutting it: only the bytes matter. */
  lemma {:induction false} BmpdIsHandleAll(env: Env, peers: Peers, buf: bytes, blocks: seq<bytes>)
    requires Drain(buf) == Drained([], buf, false)
    ensures var d := Drain(buf + Received(blocks));
      var (end, ok) := HandleAll(env, peers, d.frames);
      Bmpd(env, peers, buf, blocks) == (end, ok && !d.bad)
    decreases |blocks|
  {
    if blocks == [] || blocks[0] == [] {
      EmptyIsNeutral(buf);
    } else {
      var later := Received(blocks[1..]);
      var d := Drain(buf + blocks[0]);
      var (next, ok) := HandleAll(env, peers, d.frames);
      JoinFirst(buf, blocks);
      DrainSplit(buf + blocks[0], later);
      if !d.bad {
        DrainBlock(buf + blocks[0], later);
        HandleAllAppend(env, peers, d.frames, Drain(d.residue + later).frames);
        if ok { BmpdIsHandleAll(env, next, d.residue, blocks[1..]); }
      }
    }
  }

  /** So two ways of cutting a stream leave the same tables and end the same way. */
  lemma CutsLeaveSameTables(env: Env, blocks: seq<bytes>, others: seq<bytes>)
    requires Received(blocks) == Received(others)
    ensures Bmpd(env, map[], [], blocks) == Bmpd(env, map[], [], others)
  {
    BmpdIsHandleAll(env, map[], [], blocks);
    BmpdIsHandleAll(env, map[], [], others);
  }
}
