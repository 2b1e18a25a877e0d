/** BmpContext of bmpapp.py, which keeps a table object per peer, and the receive loop of collector.py. */
module BmpApp {
  import opened Types
  import opened Bytes
  import opened Framing
  import opened RibQueue
  import opened BgpRibDb
  import opened BmpSession
  import opened PeerRecords
  import M = BgpMessage
  import U = BgpUpdate

  class BmpContext {
    const env: Env
    var peers: map<Hash, BGPribdb<U.Attributes>>
    var records: Records

    /** Every peer has a record and a table of its own. */
    ghost predicate Valid()
      reads this, peers.Values
    {
      && records.Keys == peers.Keys
      && (forall k :: k in peers ==> peers[k].variant == env.variant && peers[k].hash == env.hash)
      && (forall k, l :: k in peers && l in peers && k != l ==> peers[k] != peers[l])
    }

    ghost function Tables(): Peers
      reads this, peers.Values
    {
      map k | k in peers :: peers[k].Value()
    }

    constructor (env: Env)
      ensures this.env == env && peers == map[] && records == map[]
    {
      this.env := env;
      peers, records := map[], map[];
    }

    /** A new peer gets a record from the header and an empty table. */
    method NewPeer(key: Hash, frame: bytes)
      requires Valid() && key !in peers && |frame| > 47
      modifies this
      ensures Valid() && key in peers && fresh(peers.Values - old(peers.Values))
      ensures Tables() == old(Tables())[key := Initial()] && records == old(records)[key := RecordOf(frame)]
    {
      var rib := new BGPribdb(env.variant, env.hash);
      peers := peers[key := rib];
      records := records[key := RecordOf(frame)];
      assert forall r :: r in peers.Values ==> r == rib || r in old(peers.Values);
    }

    method Parse(frame: bytes) returns (ok: bool)
      requires Valid()
      modifies this, peers.Values
      ensures Valid() && fresh(peers.Values - old(peers.Values))
      ensures (Tables(), ok) == Handle(env, old(Tables()), frame) && records == Recorded(env, old(records), frame)
    {
      if !Accepted(env, frame) {
        return false;
      }
      if frame[5] == INITIATION {
        return true;
      }
      var key := PeerKey(env, frame);
      if key !in peers {
        NewPeer(key, frame);
      }
      if frame[5] != ROUTE_MONITORING {
        return true;
      }
      ok := RouteMonitoring(key, frame[48..]);
    }

    method RouteMonitoring(key: Hash, msg: bytes) returns (ok: bool)
      requires Valid() && key in peers
      modifies peers[key]
      ensures Valid() && (Tables(), ok) == HandleBgp(env, old(Tables()), key, U.ParseBgp(env.variant, msg))
    {
      var parsed := M.ParseMessage(env.variant, msg);
      if parsed.Err? || !parsed.value.UpdateMessage? || parsed.value.update.exceptFlag {
        return false;
      }
      ok := Route(key, parsed.value.update);
    }

    method Route(key: Hash, u: U.Update) returns (ok: bool)
      requires Valid() && key in peers
      modifies peers[key]
      ensures Valid() && Tables() == old(Tables())[key := Routed(env, old(Tables())[key], u)]
      ensures ok == !Tables()[key].locked
    {
      var rib := peers[key];
      ok := ApplyRoutes(env, rib, u);
      forall k | k in peers && k != key ensures peers[k].Value() == old(peers[k].Value()) {
        assert peers[k] != rib;
      }
      SameMap(Tables(), old(Tables())[key := Routed(env, old(Tables())[key], u)]);
    }
  }

  method ApplyRoutes(env: Env, rib: BGPribdb<U.Attributes>, u: U.Update) returns (ok: bool)
    requires rib.variant == env.variant && rib.hash == env.hash
    modifies rib
    ensures rib.Value() == Routed(env, old(rib.Value()), u) && ok == !rib.locked
  {
    rib.Update(u.attributes, u.prefixes);
    rib.Withdraw(u.withdrawn);
    ok := !rib.locked;
  }

  /** Session.bmpd: the blocks are what successive calls of recv return, an empty one ends the session. */
  method RunSession(env: Env, blocks: seq<bytes>) returns (parser: BmpContext, ok: bool)
    ensures fresh(parser) && parser.Valid()
    ensures (parser.Tables(), ok) == Bmpd(env, map[], [], blocks)
    ensures parser.records == RecordAll(env, map[], map[], Drain(Received(blocks)).frames)
  {
    parser := new BmpContext(env);
    var buf: bytes := [];
    var i := 0;
    SessionRecordsAll(env, map[], map[], [], blocks);
    EmptyIsNeutral(Received(blocks));
    while i < |blocks| && blocks[i] != []
      invariant 0 <= i <= |blocks|
      invariant fresh(parser) && fresh(parser.peers.Values) && parser.env == env && parser.Valid()
      invariant Bmpd(env, map[], [], blocks) == Bmpd(env, parser.Tables(), buf, blocks[i..])
      invariant RecordSession(env, map[], map[], [], blocks)
             == RecordSession(env, parser.Tables(), parser.records, buf, blocks[i..])
      decreases |blocks| - i
    {
      buf := buf + blocks[i];
      buf, ok := DrainInto(parser, buf);
      assert blocks[i..][0] == blocks[i] && blocks[i..][1..] == blocks[i + 1..];
      if !ok {
        return;
      }
      i := i + 1;
    }
    ok := true;
  }

  /** The inner loop: hand on every complete message at the front of the buffer. */
  method DrainInto(parser: BmpContext, block: bytes) returns (buf: bytes, ok: bool)
    requires parser.Valid()
    modifies parser, parser.peers.Values
    ensures parser.Valid() && fresh(parser.peers.Values - old(parser.peers.Values))
    ensures var d := Drain(block);
      var (end, handled) := HandleAll(parser.env, old(parser.Tables()), d.frames);
      && parser.Tables() == end && ok == (handled && !d.bad)
      && (ok ==> buf == d.residue)
    ensures parser.records ==
      RecordAll(parser.env, old(parser.Tables()), old(parser.records), Drain(block).frames)
  {
    buf := block;
    ghost var records := RecordAll(parser.env, parser.Tables(), parser.records, Drain(block).frames);
    ghost var whole := HandleAll(parser.env, parser.Tables(), Drain(block).frames);
    while true
      invariant parser.Valid() && fresh(parser.peers.Values - old(parser.peers.Values))
      invariant HandleAll(parser.env, parser.Tables(), Drain(buf).frames) == whole
      invariant RecordAll(parser.env, parser.Tables(), parser.records, Drain(buf).frames) == records
      invariant Drain(buf).bad == Drain(block).bad && Drain(buf).residue == Drain(block).residue
      decreases |buf|
    {
      var next := GetNext(buf);
      if next.Rejected? {
        DrainStop(buf);
        return buf, false;
      }
      if next.msg == [] {
        DrainStop(buf);
        return next.rest, true;
      }
      DrainStep(buf);
      ghost var frames := Drain(buf).frames;
      assert frames[0] == next.msg && frames[1..] == Drain(next.rest).frames;
      ok := parser.Parse(next.msg);
      if !ok {
        return next.rest, false;
      }
      buf := next.rest;
    }
  }

  /** Topic.process behind its unwrapping: every message must be complete, or the assertion at the end fails. */
  method ProcessTopic(parser: BmpContext, rawBmpMessage: bytes) returns (ok: bool)
    requires parser.Valid()
    modifies parser, parser.peers.Values
    ensures parser.Valid() && fresh(parser.peers.Values - old(parser.peers.Values))
    ensures var d := Drain(rawBmpMessage);
      var (end, handled) := HandleAll(parser.env, old(parser.Tables()), d.frames);
      parser.Tables() == end && ok == (handled && !d.bad && d.residue == [])
  {
    var rest: bytes;
    rest, ok := DrainInto(parser, rawBmpMessage);
    ok := ok && rest == [];
  }
}
