/** What BmpContext keeps about a peer beside its table, from the per-peer header of the first message it saw. */
module PeerRecords {
  import opened Types
  import opened Bytes
  import opened Framing
  import opened RibQueue
  import opened BmpSession

  /** The per-peer header (section 4.2 of RFC 7854) without its timestamp; the address is read as IPv4. */
  datatype PeerRecord = PeerRecord(
    peerType: nat, flags: nat, distinguisher: nat, remoteAddress: nat, remoteAs: nat, bgpId: nat)

  function RecordOf(frame: bytes): PeerRecord
    requires |frame| > 47
  {
    PeerRecord(frame[6], frame[7], Be32(frame, 8) * 0x1_0000_0000 + Be32(frame, 12),
               Be32(frame, 28), Be32(frame, 32), Be32(frame, 36))
  }

  predicate Fits(r: PeerRecord) {
    && r.peerType < 0x100 && r.flags < 0x100 && r.distinguisher < 0x1_0000_0000_0000_0000
    && r.remoteAddress < 0x1_0000_0000 && r.remoteAs < 0x1_0000_0000 && r.bgpId < 0x1_0000_0000
  }

  /** The header as it is laid out; an IPv4 address fills the last four of sixteen bytes. */
  function EncodePeer(r: PeerRecord, unused: bytes): (b: bytes)
    requires Fits(r) && |unused| == 12
    ensures |b| == 34
  {
    [r.peerType, r.flags]
      + Put32(r.distinguisher / 0x1_0000_0000) + Put32(r.distinguisher % 0x1_0000_0000)
      + unused + Put32(r.remoteAddress) + Put32(r.remoteAs) + Put32(r.bgpId)
  }

  lemma EncodedFields(r: PeerRecord, unused: bytes)
    requires Fits(r) && |unused| == 12
    ensures var b := EncodePeer(r, unused);
      && b[0] == r.peerType && b[1] == r.flags
      && Be32(b, 2) == r.distinguisher / 0x1_0000_0000 && Be32(b, 6) == r.distinguisher % 0x1_0000_0000
      && Be32(b, 22) == r.remoteAddress && Be32(b, 26) == r.remoteAs && Be32(b, 30) == r.bgpId
  {
    var b := EncodePeer(r, unused);
    assert b[2..6] == Put32(r.distinguisher / 0x1_0000_0000) && Be32(b, 2) == Be32(b[2..6], 0);
    assert b[6..10] == Put32(r.distinguisher % 0x1_0000_0000) && Be32(b, 6) == Be32(b[6..10], 0);
    assert b[22..26] == Put32(r.remoteAddress) && Be32(b, 22) == Be32(b[22..26], 0);
    assert b[26..30] == Put32(r.remoteAs) && Be32(b, 26) == Be32(b[26..30], 0);
    assert b[30..34] == Put32(r.bgpId) && Be32(b, 30) == Be32(b[30..34], 0);
  }

  lemma ReadAt(frame: bytes, peer: bytes, at: nat)
    requires |frame| > 47 && frame[6..40] == peer && at + 4 <= 34
    ensures Be32(frame, 6 + at) == Be32(peer, at)
  {
    assert forall i :: 0 <= i < 34 ==> frame[6 + i] == peer[i];
  }

  /** A message with this header makes exactly this record. */
  lemma RecordIsEncoded(frame: bytes, r: PeerRecord, unused: bytes)
    requires Fits(r) && |unused| == 12 && |frame| > 47 && frame[6..40] == EncodePeer(r, unused)
    ensures RecordOf(frame) == r
  {
    var peer := EncodePeer(r, unused);
    EncodedFields(r, unused);
    ReadAt(frame, peer, 2);
    ReadAt(frame, peer, 6);
    ReadAt(frame, peer, 22);
    ReadAt(frame, peer, 26);
    ReadAt(frame, peer, 30);
    assert frame[6] == peer[0] && frame[7] == peer[1];
  }

  /** So the record depends only on the bytes by which peers are told apart. */
  lemma SamePeerSameRecord(a: bytes, b: bytes)
    requires |a| > 47 && |b| > 47 && a[6..40] == b[6..40]
    ensures RecordOf(a) == RecordOf(b)
  {
    assert forall i :: 6 <= i < 40 ==> a[i] == a[6..40][i - 6] && b[i] == b[6..40][i - 6];
  }

  // ---------- over a session ----------

  type Records = map<Hash, PeerRecord>

  /** The records after a message: that of a peer is made when it is first heard of, and kept. */
  function Recorded(env: Env, records: Records, frame: bytes): Records {
    if !Accepted(env, frame) || frame[5] == INITIATION || PeerKey(env, frame) in records then records
    else records[PeerKey(env, frame) := RecordOf(frame)]
  }

  /** The records after handling the messages up to the first that raises, that one included. */
  function RecordAll(env: Env, peers: Peers, records: Records, frames: seq<bytes>): Records
    decreases |frames|
  {
    if frames == [] then records
    else
      var (next, ok) := Handle(env, peers, frames[0]);
      var after := Recorded(env, records, frames[0]);
      if ok then RecordAll(env, next, after, frames[1..]) else after
  }

  function Reached(env: Env, peers: Peers, frames: seq<bytes>): seq<bytes>
    decreases |frames|
  {
    if frames == [] then []
    else
      var (next, ok) := Handle(env, peers, frames[0]);
      [frames[0]] + if ok then Reached(env, next, frames[1..]) else []
  }

  /** A message of types 0 to 3 that is accepted and comes from this peer. */
  predicate Introduces(env: Env, frame: bytes, key: Hash) {
    && IsMessage(frame) && |frame| >= 48 && frame[5] <= 3 && (frame[5] == 0 || env.accepts(frame))
    && env.peerHash(frame[6..40]) == key
  }

  function FirstRecord(env: Env, frames: seq<bytes>, key: Hash): Option<PeerRecord> {
    if frames == [] then None
    else if Introduces(env, frames[0], key) then Some(RecordOf(frames[0]))
    else FirstRecord(env, frames[1..], key)
  }

  function Find(records: Records, key: Hash): Option<PeerRecord> {
    if key in records then Some(records[key]) else None
  }

  /** Each peer's record is that of the first message that introduces it. */
  lemma {:induction false} RecordIsFirst(env: Env, peers: Peers, records: Records, frames: seq<bytes>, key: Hash)
    ensures Find(RecordAll(env, peers, records, frames), key) ==
      if key in records then Find(records, key) else FirstRecord(env, Reached(env, peers, frames), key)
    decreases |frames|
  {
    if frames != [] {
      var (next, ok) := Handle(env, peers, frames[0]);
      RecordedByHeader(env, records, frames[0], key);
      var reached := Reached(env, peers, frames);
      assert reached[0] == frames[0];
      if ok {
        assert reached[1..] == Reached(env, next, frames[1..]);
        RecordIsFirst(env, next, Recorded(env, records, frames[0]), frames[1..], key);
      }
    }
  }

  lemma RecordedByHeader(env: Env, records: Records, frame: bytes, key: Hash)
    ensures Find(Recorded(env, records, frame), key) ==
      if key in records then Find(records, key)
      else if Introduces(env, frame, key) then Some(RecordOf(frame))
      else None
  {}

  lemma {:induction false} RecordAllAppend(env: Env, peers: Peers, records: Records, frames: seq<bytes>,
                                           more: seq<bytes>)
    ensures var (next, ok) := HandleAll(env, peers, frames);
      var after := RecordAll(env, peers, records, frames);
      RecordAll(env, peers, records, frames + more) == if ok then RecordAll(env, next, after, more) else after
    decreases |frames|
  {
    if frames == [] {
      EmptyIsNeutral(more);
    } else {
      var (next, ok) := Handle(env, peers, frames[0]);
      assert (frames + more)[1..] == frames[1..] + more;
      if ok { RecordAllAppend(env, next, Recorded(env, records, frames[0]), frames[1..], more); }
    }
  }

  /** The records of a session from a buffer and the blocks still to come. */
  function RecordSession(env: Env, peers: Peers, records: Records, buf: bytes, blocks: seq<bytes>)
    : Records
    decreases |blocks|
  {
    if blocks == [] || blocks[0] == [] then records
    else
      var d := Drain(buf + blocks[0]);
      var (next, ok) := HandleAll(env, peers, d.frames);
      var after := RecordAll(env, peers, records, d.frames);
      if ok && !d.bad then RecordSession(env, next, after, d.residue, blocks[1..]) else after
  }

  /** However the stream is cut, they are those of its messages. */
  lemma {:induction false} SessionRecordsAll(env: Env, peers: Peers, records: Records, buf: bytes,
                                             blocks: seq<bytes>)
    requires Drain(buf) == Drained([], buf, false)
    ensures RecordSession(env, peers, records, buf, blocks)
         == RecordAll(env, peers, records, Drain(buf + Received(blocks)).frames)
    decreases |blocks|
  {
    if blocks == [] || blocks[0] == [] {
      EmptyIsNeutral(buf);
    } else {
      var later, d := Received(blocks[1..]), Drain(buf + blocks[0]);
      var (next, ok) := HandleAll(env, peers, d.frames);
      JoinFirst(buf, blocks);
      DrainSplit(buf + blocks[0], later);
      if !d.bad {
        DrainBlock(buf + blocks[0], later);
        RecordAllAppend(env, peers, records, d.frames, Drain(d.residue + later).frames);
        if ok { SessionRecordsAll(env, next, RecordAll(env, peers, records, d.frames), d.residue, blocks[1..]); }
      }
    }
  }
}
