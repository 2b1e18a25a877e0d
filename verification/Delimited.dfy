/**
 * Records with a marker, a length and a checksum in front (debag.py; topic.py writes them). The checksum is
 * any function; the file is what has been read into the buffer and what is still unread.
 */
module Delimited {
  import opened Types
  import opened Bytes

  const MARKER: bytes := [0x9a, 0x9a, 0x9a, 0x9a, 0x9a, 0x9a, 0x9a, 0x9a]
  const HEADER_LENGTH := 16

  type Crc = c: nat | c < 0x1_0000_0000

  function Header(length: nat, crc: Crc): (h: bytes)
    requires length < 0x1_0000_0000
    ensures |h| == 16 && Be32(h, 8) == length && Be32(h, 12) == crc
    ensures forall i :: 0 <= i < 8 ==> h[i] == 0x9a
  {
    var h := [0x9a, 0x9a, 0x9a, 0x9a, 0x9a, 0x9a, 0x9a, 0x9a] + Put32(length) + Put32(crc);
    assert h[8..12] == Put32(length) && h[12..16] == Put32(crc);
    assert Be32(h, 8) == Be32(h[8..12], 0) && Be32(h, 12) == Be32(h[12..16], 0);
    h
  }

  function Delimit(crc: bytes -> Crc, msg: bytes): bytes
    requires |msg| < 0x1_0000_0000
  {
    Header(|msg|, crc(msg)) + msg
  }

  /** Why the loop stops: fewer bytes than a header, no marker, a record cut short, a wrong checksum. */
  datatype End = NoHeader | NoMarker | Short | BadCrc

  // ---------- the specification ----------

  function Split(crc: bytes -> Crc, file: bytes): (seq<bytes>, End)
    decreases |file|
  {
    if |file| < HEADER_LENGTH then ([], NoHeader)
    else if file[..8] != MARKER then ([], NoMarker)
    else
      var length := Be32(file, 8);
      if |file| < HEADER_LENGTH + length then ([], Short)
      else
        var chunk := file[HEADER_LENGTH..HEADER_LENGTH + length];
        if Be32(file, 12) != crc(chunk) then ([], BadCrc)
        else
          var (chunks, end) := Split(crc, file[HEADER_LENGTH + length..]);
          ([chunk] + chunks, end)
  }

  predicate Storable(msgs: seq<bytes>) {
    forall i :: 0 <= i < |msgs| ==> |msgs[i]| < 0x1_0000_0000
  }

  function File(crc: bytes -> Crc, msgs: seq<bytes>): bytes
    requires Storable(msgs)
  {
    if msgs == [] then [] else Delimit(crc, msgs[0]) + File(crc, msgs[1..])
  }

  lemma SplitRecord(crc: bytes -> Crc, msg: bytes, c: Crc, later: bytes)
    requires |msg| < 0x1_0000_0000
    ensures var (chunks, end) := Split(crc, later);
      Split(crc, Header(|msg|, c) + msg + later) == if c == crc(msg) then ([msg] + chunks, end) else ([], BadCrc)
  {
    var h := Header(|msg|, c);
    var file := h + msg + later;
    assert file[..8] == h[..8] == MARKER;
    assert Be32(file, 8) == Be32(h, 8) && Be32(file, 12) == Be32(h, 12);
    assert file[HEADER_LENGTH..HEADER_LENGTH + |msg|] == msg;
    assert file[HEADER_LENGTH + |msg|..] == later;
  }

  lemma FileHead(crc: bytes -> Crc, msgs: seq<bytes>, later: bytes)
    requires Storable(msgs) && msgs != []
    ensures var (chunks, end) := Split(crc, File(crc, msgs[1..]) + later);
      Split(crc, File(crc, msgs) + later) == ([msgs[0]] + chunks, end)
  {
    Associate(Delimit(crc, msgs[0]), File(crc, msgs[1..]), later);
    SplitRecord(crc, msgs[0], crc(msgs[0]), File(crc, msgs[1..]) + later);
  }

  /** Records written one after the other are read back, and so are those in front of whatever stops it. */
  lemma {:induction false} SplitFile(crc: bytes -> Crc, msgs: seq<bytes>, later: bytes)
    requires Storable(msgs)
    ensures var (chunks, end) := Split(crc, later);
      Split(crc, File(crc, msgs) + later) == (msgs + chunks, end)
  {
    var chunks := Split(crc, later).0;
    if msgs == [] {
      EmptyIsNeutral(later);
      EmptyIsNeutral(chunks);
    } else {
      SplitFile(crc, msgs[1..], later);
      FileHead(crc, msgs, later);
      assert msgs == [msgs[0]] + msgs[1..];
      Associate([msgs[0]], msgs[1..], chunks);
    }
  }

  /** With a wrong checksum in record k exactly the first k records are read. */
  lemma SplitStopsAtBadCrc(crc: bytes -> Crc, msgs: seq<bytes>, bad: bytes, c: Crc, later: bytes)
    requires Storable(msgs) && |bad| < 0x1_0000_0000 && c != crc(bad)
    ensures Split(crc, File(crc, msgs) + (Header(|bad|, c) + bad + later)) == (msgs, BadCrc)
  {
    SplitRecord(crc, bad, c, later);
    SplitFile(crc, msgs, Header(|bad|, c) + bad + later);
    assert msgs + [] == msgs;
  }

  /** And so does a record whose first eight bytes are not the marker. */
  lemma SplitStopsAtNoMarker(crc: bytes -> Crc, msgs: seq<bytes>, later: bytes, i: nat)
    requires Storable(msgs) && |later| >= 16 && i < 8 && later[i] != 0x9a
    ensures Split(crc, File(crc, msgs) + later) == (msgs, NoMarker)
  {
    SplitFile(crc, msgs, later);
    assert later[..8][i] == later[i];
    EmptyIsNeutral(msgs);
  }

  /** A file ends the output at its end, or at a record longer than what is left. */
  lemma SplitEnds(crc: bytes -> Crc, msgs: seq<bytes>, later: bytes)
    requires Storable(msgs)
    requires |later| < 16 || ((forall i :: 0 <= i < 8 ==> later[i] == 0x9a) && |later| < 16 + Be32(later, 8))
    ensures Split(crc, File(crc, msgs) + later) == (msgs, if |later| < 16 then NoHeader else Short)
  {
    SplitFile(crc, msgs, later);
    if |later| >= 16 { assert later[..8] == MARKER; }
    EmptyIsNeutral(msgs);
  }

  // ---------- the refill loop ----------

  datatype Source = Source(buf: bytes, file: bytes)

  function Unread(s: Source): bytes {
    s.buf + s.file
  }

  function ReadMore(bufsize: nat, s: Source): (r: Source)
    ensures Unread(r) == Unread(s)
  {
    var n := if bufsize < |s.file| then bufsize else |s.file|;
    assert s.file == s.file[..n] + s.file[n..];
    Source(s.buf + s.file[..n], s.file[n..])
  }

  function FillTo(bufsize: nat, s: Source, need: nat): (r: Source)
    requires bufsize > 0
    ensures Unread(r) == Unread(s)
    ensures |r.buf| >= need || r.file == []
    ensures |r.buf| >= |s.buf|
    decreases |s.file|
  {
    if |s.buf| >= need || s.file == [] then s else FillTo(bufsize, ReadMore(bufsize, s), need)
  }

  function FillHeader(bufsize: nat, s: Source): Source {
    if |s.buf| < HEADER_LENGTH then ReadMore(bufsize, s) else s
  }

  /** How many buffered bytes the loop waits for. As written the header, still in the buffer, is not counted. */
  function Need(v: Variant, length: nat): nat {
    if v.AsWritten? then length else HEADER_LENGTH + length
  }

  /** Where the record is taken to end: a slice ends with the buffer at the latest. */
  function Cut(s: Source, length: nat): nat {
    if HEADER_LENGTH + length <= |s.buf| then HEADER_LENGTH + length else |s.buf|
  }

  datatype Round = Stop(end: End) | Chunk(chunk: bytes, rest: Source)

  /**
   * One round of the loop. As written the marker test compares bytes with an integer and never fails, and a
   * Python slice past the end of the buffer is silently shorter.
   */
  function OneRound(v: Variant, crc: bytes -> Crc, bufsize: nat, s: Source): (r: Round)
    requires bufsize >= HEADER_LENGTH
    ensures r.Chunk? ==> |Unread(r.rest)| < |Unread(s)|
  {
    var s1 := FillHeader(bufsize, s);
    if |s1.buf| < HEADER_LENGTH then Stop(NoHeader)
    else if v.Intended? && s1.buf[..8] != MARKER then Stop(NoMarker)
    else
      var length := Be32(s1.buf, 8);
      var s2 := FillTo(bufsize, s1, Need(v, length));
      if |s2.buf| < Need(v, length) then Stop(Short)
      else
        var cut := Cut(s2, length);
        var chunk := s2.buf[HEADER_LENGTH..cut];
        if Be32(s1.buf, 12) != crc(chunk) then Stop(BadCrc)
        else
          assert Unread(Source(s2.buf[cut..], s2.file)) == Unread(s)[cut..];
          Chunk(chunk, Source(s2.buf[cut..], s2.file))
  }

  /** The whole loop: the chunks handed on, why it stopped. */
  function Undelimit(v: Variant, crc: bytes -> Crc, bufsize: nat, s: Source): (seq<bytes>, End)
    requires bufsize >= HEADER_LENGTH
    decreases |Unread(s)|
  {
    match OneRound(v, crc, bufsize, s)
    case Stop(end) => ([], end)
    case Chunk(chunk, rest) =>
      var (chunks, end) := Undelimit(v, crc, bufsize, rest);
      ([chunk] + chunks, end)
  }

  lemma SameHead(a: bytes, b: bytes, c: bytes)
    requires |a| >= HEADER_LENGTH && c == a + b
    ensures a[..8] == c[..8] && Be32(a, 8) == Be32(c, 8) && Be32(a, 12) == Be32(c, 12)
  {}

  lemma SliceOfFront(a: bytes, b: bytes, lo: nat, hi: nat)
    requires lo <= hi <= |a|
    ensures (a + b)[lo..hi] == a[lo..hi] && (a + b)[hi..] == a[hi..] + b
  {}

  /** As intended the chunks depend on the file alone, not on how much of it is read at a time. */
  lemma {:induction false} UndelimitIsSplit(crc: bytes -> Crc, bufsize: nat, s: Source)
    requires bufsize >= HEADER_LENGTH
    ensures Undelimit(Intended, crc, bufsize, s) == Split(crc, Unread(s))
    decreases |Unread(s)|
  {
    var file, s1 := Unread(s), FillHeader(bufsize, s);
    if |s1.buf| >= HEADER_LENGTH {
      SameHead(s1.buf, s1.file, file);
      if file[..8] == MARKER {
        var length := Be32(file, 8);
        var s2 := FillTo(bufsize, s1, HEADER_LENGTH + length);
        if |s2.buf| >= HEADER_LENGTH + length {
          SliceOfFront(s2.buf, s2.file, HEADER_LENGTH, HEADER_LENGTH + length);
          UndelimitIsSplit(crc, bufsize, Source(s2.buf[HEADER_LENGTH + length..], s2.file));
        }
      }
    }
  }

  /** Any records, read back with any buffer size that holds a header. */
  lemma RecordsComeBack(crc: bytes -> Crc, bufsize: nat, msgs: seq<bytes>, s: Source)
    requires bufsize >= HEADER_LENGTH && Storable(msgs) && Unread(s) == File(crc, msgs)
    ensures Undelimit(Intended, crc, bufsize, s) == (msgs, NoHeader)
  {
    UndelimitIsSplit(crc, bufsize, s);
    SplitFile(crc, msgs, []);
    assert File(crc, msgs) + [] == File(crc, msgs) && msgs + [] == msgs;
  }

  // ---------- as written ----------

  /** As written the first eight bytes of a record are never looked at. */
  lemma MarkerIsIgnored(crc: bytes -> Crc, bufsize: nat, a: bytes, b: bytes, buf: bytes, file: bytes)
    requires bufsize >= HEADER_LENGTH && |a| == |b| == 8 && |buf| >= 8
    ensures OneRound(AsWritten, crc, bufsize, Source(a + buf, file))
         == OneRound(AsWritten, crc, bufsize, Source(b + buf, file))
  {
    var s, t := Source(a + buf, file), Source(b + buf, file);
    assert Be32(s.buf, 8) == Be32(t.buf, 8) && Be32(s.buf, 12) == Be32(t.buf, 12);
    FillBeyondMarker(bufsize, a, b, buf, file, Be32(s.buf, 8));
    var s2, t2 := FillTo(bufsize, s, Be32(s.buf, 8)), FillTo(bufsize, t, Be32(s.buf, 8));
    var cut := Cut(s2, Be32(s.buf, 8));
    BeyondMarker(s2.buf, cut);
    BeyondMarker(t2.buf, cut);
    assert Cut(t2, Be32(s.buf, 8)) == cut;
    assert s2.buf[HEADER_LENGTH..cut] == t2.buf[HEADER_LENGTH..cut] && s2.buf[cut..] == t2.buf[cut..];
  }

  lemma BeyondMarker(buf: bytes, cut: nat)
    requires HEADER_LENGTH <= cut <= |buf|
    ensures buf[HEADER_LENGTH..cut] == buf[8..][8..cut - 8] && buf[cut..] == buf[8..][cut - 8..]
  {
    SliceOfDrop(buf, 8, 8, cut - 8);
  }

  lemma {:induction false} FillBeyondMarker(bufsize: nat, a: bytes, b: bytes, buf: bytes, file: bytes, need: nat)
    requires bufsize > 0 && |a| == |b| == 8
    ensures var s, t := FillTo(bufsize, Source(a + buf, file), need), FillTo(bufsize, Source(b + buf, file), need);
      |s.buf| == |t.buf| >= 8 && s.buf[8..] == t.buf[8..] && s.file == t.file
    decreases |file|
  {
    if |a + buf| < need && file != [] {
      var s, t := ReadMore(bufsize, Source(a + buf, file)), ReadMore(bufsize, Source(b + buf, file));
      assert s.buf == a + s.buf[8..] && t.buf == b + s.buf[8..];
      FillBeyondMarker(bufsize, a, b, s.buf[8..], s.file, need);
    }
  }

  function Larger(a: nat, b: nat): nat {
    if a < b then b else a
  }

  function Smaller(a: nat, b: nat): nat {
    if a < b then a else b
  }

  /** The file is read in blocks of bufsize bytes; this is the number of the block that has the byte at x. */
  function Block(bufsize: nat, x: nat): nat
    requires bufsize > 0
  {
    if x < bufsize then 0 else 1 + Block(bufsize, x - bufsize)
  }

  /**
   * A record that starts at a given offset is whole in the buffer if its last byte is in the same block as the
   * last byte that the loop as written waits for.
   */
  predicate WholeRecord(bufsize: nat, at: nat, length: nat)
    requires bufsize > 0
  {
    Block(bufsize, at + HEADER_LENGTH + length - 1) == Block(bufsize, at + Larger(HEADER_LENGTH, length) - 1)
  }

  predicate WholeRecords(bufsize: nat, at: nat, lengths: seq<nat>)
    requires bufsize > 0
    decreases |lengths|
  {
    lengths == [] ||
      (WholeRecord(bufsize, at, lengths[0]) && WholeRecords(bufsize, at + HEADER_LENGTH + lengths[0], lengths[1..]))
  }

  function Lengths(msgs: seq<bytes>): seq<nat> {
    seq(|msgs|, i requires 0 <= i < |msgs| => |msgs[i]|)
  }

  lemma {:induction false} FillTwice(bufsize: nat, s: Source, a: nat, b: nat)
    requires bufsize > 0
    ensures FillTo(bufsize, FillTo(bufsize, s, a), b) == FillTo(bufsize, s, Larger(a, b))
    decreases |s.file|
  {
    if |s.buf| < a && s.file != [] { FillTwice(bufsize, ReadMore(bufsize, s), a, b); }
  }

  lemma HeaderIsFill(bufsize: nat, s: Source)
    requires bufsize >= HEADER_LENGTH
    ensures FillHeader(bufsize, s) == FillTo(bufsize, s, HEADER_LENGTH)
  {
    if |s.buf| < HEADER_LENGTH {
      var r := ReadMore(bufsize, s);
      assert FillTo(bufsize, r, HEADER_LENGTH) == r;
    }
  }

  /** The offset at which a block starts. */
  function Start(bufsize: nat, block: nat): nat {
    if block == 0 then 0 else Start(bufsize, block - 1) + bufsize
  }

  /** So many blocks have been read, and everything before this offset has been taken out. */
  predicate HasRead(bufsize: nat, s: Source, at: nat, blocks: nat) {
    at <= Start(bufsize, blocks) && |s.buf| == Smaller(Start(bufsize, blocks) - at, |Unread(s)|)
  }

  lemma {:induction false} StartsGrow(bufsize: nat, a: nat, b: nat)
    requires a < b
    ensures Start(bufsize, a) + bufsize <= Start(bufsize, b)
    decreases b
  {
    if a < b - 1 { StartsGrow(bufsize, a, b - 1); }
  }

  lemma {:induction false} BlockOf(bufsize: nat, x: nat)
    requires bufsize > 0
    ensures Start(bufsize, Block(bufsize, x)) <= x < Start(bufsize, Block(bufsize, x)) + bufsize
  {
    if x >= bufsize { BlockOf(bufsize, x - bufsize); }
  }

  /** A byte is among the first blocks exactly when the number of its block says so. */
  lemma Among(bufsize: nat, x: nat, blocks: nat)
    requires bufsize > 0
    ensures x < Start(bufsize, blocks) <==> Block(bufsize, x) < blocks
  {
    var block := Block(bufsize, x);
    BlockOf(bufsize, x);
    if block < blocks { StartsGrow(bufsize, block, blocks); }
    else if blocks < block { StartsGrow(bufsize, blocks, block); }
  }

  lemma {:induction false} FillReads(bufsize: nat, s: Source, at: nat, blocks: nat, need: nat, target: nat)
    requires bufsize > 0 && HasRead(bufsize, s, at, blocks)
    requires blocks <= target && at + need <= Start(bufsize, target)
    requires blocks < target ==> Start(bufsize, target) < at + need + bufsize
    ensures HasRead(bufsize, FillTo(bufsize, s, need), at, target)
    decreases |s.file|
  {
    if blocks < target { StartsGrow(bufsize, blocks, target); }
    if |s.buf| < need && s.file != [] {
      FillReads(bufsize, ReadMore(bufsize, s), at, blocks + 1, need, target);
    }
  }

  /** The blocks read when a record is cut: up to the one with the last byte that the loop as written waits for. */
  function BlocksRead(bufsize: nat, at: nat, length: nat): nat
    requires bufsize > 0
  {
    Block(bufsize, at + Larger(HEADER_LENGTH, length) - 1) + 1
  }

  lemma FillRecord(bufsize: nat, s: Source, at: nat, blocks: nat, length: nat)
    requires bufsize >= HEADER_LENGTH && HasRead(bufsize, s, at, blocks) && Start(bufsize, blocks) <= at + bufsize
    ensures HasRead(bufsize, FillTo(bufsize, FillHeader(bufsize, s), length), at, BlocksRead(bufsize, at, length))
    ensures Start(bufsize, BlocksRead(bufsize, at, length)) <= at + HEADER_LENGTH + length + bufsize
  {
    var need, read := Larger(HEADER_LENGTH, length), BlocksRead(bufsize, at, length);
    HeaderIsFill(bufsize, s);
    FillTwice(bufsize, s, HEADER_LENGTH, length);
    BlockOf(bufsize, at + need - 1);
    if read < blocks { StartsGrow(bufsize, read, blocks); }
    FillReads(bufsize, s, at, blocks, need, read);
  }

  lemma RecordIsWhole(bufsize: nat, s: Source, at: nat, length: nat)
    requires bufsize > 0 && HasRead(bufsize, s, at, BlocksRead(bufsize, at, length))
    requires |Unread(s)| >= HEADER_LENGTH + length
    ensures |s.buf| >= HEADER_LENGTH + length <==> WholeRecord(bufsize, at, length)
  {
    var read, last := BlocksRead(bufsize, at, length), at + HEADER_LENGTH + length - 1;
    Among(bufsize, last, read);
    BlockOf(bufsize, last);
    Among(bufsize, at + Larger(HEADER_LENGTH, length) - 1, Block(bufsize, last) + 1);
  }

  lemma CutRecord(h: bytes, msg: bytes, later: bytes, buf: bytes, file: bytes)
    requires |h| == HEADER_LENGTH && buf + file == h + msg + later && |buf| >= HEADER_LENGTH + |msg|
    ensures buf[HEADER_LENGTH..HEADER_LENGTH + |msg|] == msg && buf[HEADER_LENGTH + |msg|..] + file == later
  {
    var all, n := h + msg + later, HEADER_LENGTH + |msg|;
    assert buf[HEADER_LENGTH..n] == all[HEADER_LENGTH..n] == msg;
    assert buf[n..] + file == all[n..] == later;
  }

  lemma RoundAsWritten(crc: bytes -> Crc, bufsize: nat, msg: bytes, later: bytes, s: Source)
    requires bufsize >= HEADER_LENGTH && |msg| < 0x1_0000_0000 && Unread(s) == Delimit(crc, msg) + later
    ensures var s2, round := FillTo(bufsize, FillHeader(bufsize, s), |msg|), OneRound(AsWritten, crc, bufsize, s);
      if |s2.buf| >= HEADER_LENGTH + |msg| then
        var rest := Source(s2.buf[HEADER_LENGTH + |msg|..], s2.file);
        round == Chunk(msg, rest) && Unread(rest) == later
      else round.Chunk? ==> |round.chunk| < |msg|
  {
    var s1, n := FillHeader(bufsize, s), HEADER_LENGTH + |msg|;
    var h := Header(|msg|, crc(msg));
    Associate(h, msg, later);
    assert |s1.buf| >= HEADER_LENGTH;
    SameHead(s1.buf, s1.file, Unread(s));
    SameHead(h, msg + later, Unread(s));
    var s2 := FillTo(bufsize, s1, |msg|);
    if |s2.buf| >= n {
      CutRecord(h, msg, later, s2.buf, s2.file);
    }
  }

  lemma SameFromHead(x: bytes, xs: seq<bytes>, ys: seq<bytes>)
    requires ys != []
    ensures [x] + xs == ys <==> x == ys[0] && xs == ys[1..]
  {
    if [x] + xs == ys { assert xs == ([x] + xs)[1..]; }
  }

  /** The buffer when a record is cut from it, and what is left behind the record if it is whole there. */
  function Filled(bufsize: nat, s: Source, length: nat): Source
    requires bufsize > 0
  {
    FillTo(bufsize, FillHeader(bufsize, s), length)
  }

  function Behind(s: Source, length: nat): Source
    requires |s.buf| >= HEADER_LENGTH + length
  {
    Source(s.buf[HEADER_LENGTH + length..], s.file)
  }

  /** Round by round, the buffer that the loop as written waits for holds the whole record. */
  predicate Buffered(bufsize: nat, s: Source, lengths: seq<nat>)
    requires bufsize >= HEADER_LENGTH
    decreases |lengths|
  {
    lengths == [] ||
      var s2 := Filled(bufsize, s, lengths[0]);
      |s2.buf| >= HEADER_LENGTH + lengths[0] && Buffered(bufsize, Behind(s2, lengths[0]), lengths[1..])
  }

  lemma LengthsFirst(msgs: seq<bytes>)
    requires msgs != []
    ensures Lengths(msgs)[0] == |msgs[0]| && Lengths(msgs)[1..] == Lengths(msgs[1..])
  {}

  lemma {:induction false} BackIfBuffered(crc: bytes -> Crc, bufsize: nat, msgs: seq<bytes>, s: Source)
    requires bufsize >= HEADER_LENGTH && Storable(msgs) && Unread(s) == File(crc, msgs)
    ensures Undelimit(AsWritten, crc, bufsize, s).0 == msgs <==> Buffered(bufsize, s, Lengths(msgs))
    decreases |msgs|
  {
    if msgs != [] {
      var round := OneRound(AsWritten, crc, bufsize, s);
      RoundAsWritten(crc, bufsize, msgs[0], File(crc, msgs[1..]), s);
      LengthsFirst(msgs);
      if round.Chunk? {
        SameFromHead(round.chunk, Undelimit(AsWritten, crc, bufsize, round.rest).0, msgs);
        if round.chunk == msgs[0] { BackIfBuffered(crc, bufsize, msgs[1..], round.rest); }
      }
    }
  }

  function FileLength(lengths: seq<nat>): nat {
    if lengths == [] then 0 else HEADER_LENGTH + lengths[0] + FileLength(lengths[1..])
  }

  lemma {:induction false} FileHasLength(crc: bytes -> Crc, msgs: seq<bytes>)
    requires Storable(msgs)
    ensures |File(crc, msgs)| == FileLength(Lengths(msgs))
    decreases |msgs|
  {
    if msgs != [] {
      LengthsFirst(msgs);
      FileHasLength(crc, msgs[1..]);
    }
  }

  lemma NextRecord(bufsize: nat, s: Source, at: nat, blocks: nat, length: nat)
    requires bufsize >= HEADER_LENGTH && HasRead(bufsize, s, at, blocks) && Start(bufsize, blocks) <= at + bufsize
    requires |Unread(s)| >= HEADER_LENGTH + length
    ensures var s2, read, next := Filled(bufsize, s, length), BlocksRead(bufsize, at, length),
                                  at + HEADER_LENGTH + length;
      && (|s2.buf| >= HEADER_LENGTH + length <==> WholeRecord(bufsize, at, length))
      && Start(bufsize, read) <= next + bufsize
      && (WholeRecord(bufsize, at, length) ==>
            && HasRead(bufsize, Behind(s2, length), next, read)
            && |Unread(Behind(s2, length))| == |Unread(s)| - HEADER_LENGTH - length)
  {
    FillRecord(bufsize, s, at, blocks, length);
    RecordIsWhole(bufsize, Filled(bufsize, s, length), at, length);
  }

  lemma {:induction false} BufferedIsWhole(bufsize: nat, s: Source, at: nat, blocks: nat, lengths: seq<nat>)
    requires bufsize >= HEADER_LENGTH && |Unread(s)| >= FileLength(lengths)
    requires HasRead(bufsize, s, at, blocks) && Start(bufsize, blocks) <= at + bufsize
    ensures Buffered(bufsize, s, lengths) <==> WholeRecords(bufsize, at, lengths)
    decreases |lengths|
  {
    if lengths != [] {
      var n := lengths[0];
      NextRecord(bufsize, s, at, blocks, n);
      if WholeRecord(bufsize, at, n) {
        var rest := Behind(Filled(bufsize, s, n), n);
        BufferedIsWhole(bufsize, rest, at + HEADER_LENGTH + n, BlocksRead(bufsize, at, n), lengths[1..]);
      }
    }
  }

  /**
   * As written the records come back if and only if none of them has its last bytes, up to the sixteen that
   * are not counted, in a later block of the file than the last byte waited for.
   */
  lemma RecordsComeBackAsWritten(crc: bytes -> Crc, bufsize: nat, msgs: seq<bytes>)
    requires bufsize >= HEADER_LENGTH && Storable(msgs)
    ensures var s := ReadMore(bufsize, Source([], File(crc, msgs)));
      Undelimit(AsWritten, crc, bufsize, s).0 == msgs <==> WholeRecords(bufsize, 0, Lengths(msgs))
  {
    var s := ReadMore(bufsize, Source([], File(crc, msgs)));
    BackIfBuffered(crc, bufsize, msgs, s);
    FileHasLength(crc, msgs);
    BufferedIsWhole(bufsize, s, 0, 1, Lengths(msgs));
  }

  /** The source behind records of these lengths. */
  function Past(bufsize: nat, s: Source, lengths: seq<nat>): Source
    requires bufsize >= HEADER_LENGTH && Buffered(bufsize, s, lengths)
    decreases |lengths|
  {
    if lengths == [] then s
    else Past(bufsize, Behind(Filled(bufsize, s, lengths[0]), lengths[0]), lengths[1..])
  }

  lemma {:induction false} PastHasRead(bufsize: nat, s: Source, at: nat, blocks: nat, lengths: seq<nat>)
      returns (read: nat)
    requires bufsize >= HEADER_LENGTH && |Unread(s)| >= FileLength(lengths) && Buffered(bufsize, s, lengths)
    requires HasRead(bufsize, s, at, blocks) && Start(bufsize, blocks) <= at + bufsize
    ensures HasRead(bufsize, Past(bufsize, s, lengths), at + FileLength(lengths), read)
    ensures Start(bufsize, read) <= at + FileLength(lengths) + bufsize
    decreases |lengths|
  {
    read := blocks;
    if lengths != [] {
      var n := lengths[0];
      NextRecord(bufsize, s, at, blocks, n);
      read := PastHasRead(bufsize, Behind(Filled(bufsize, s, n), n), at + HEADER_LENGTH + n,
                          BlocksRead(bufsize, at, n), lengths[1..]);
    }
  }

  lemma RoundOf(crc: bytes -> Crc, bufsize: nat, msg: bytes, later: bytes, s: Source)
    requires bufsize >= HEADER_LENGTH && |msg| < 0x1_0000_0000 && Unread(s) == Delimit(crc, msg) + later
    requires |Filled(bufsize, s, |msg|).buf| >= HEADER_LENGTH + |msg|
    ensures var rest := Behind(Filled(bufsize, s, |msg|), |msg|);
      var more := Undelimit(AsWritten, crc, bufsize, rest);
      Unread(rest) == later && Undelimit(AsWritten, crc, bufsize, s) == ([msg] + more.0, more.1)
  {
    RoundAsWritten(crc, bufsize, msg, later, s);
  }

  lemma PastFirst(bufsize: nat, s: Source, msgs: seq<bytes>)
    requires bufsize >= HEADER_LENGTH && msgs != [] && Buffered(bufsize, s, Lengths(msgs))
    ensures var s2, n := Filled(bufsize, s, |msgs[0]|), |msgs[0]|;
      && |s2.buf| >= HEADER_LENGTH + n && Buffered(bufsize, Behind(s2, n), Lengths(msgs[1..]))
      && Past(bufsize, s, Lengths(msgs)) == Past(bufsize, Behind(s2, n), Lengths(msgs[1..]))
  {
    LengthsFirst(msgs);
  }

  lemma OneMore(msgs: seq<bytes>, more: seq<bytes>)
    requires msgs != []
    ensures [msgs[0]] + (msgs[1..] + more) == msgs + more
  {
    assert msgs == [msgs[0]] + msgs[1..];
  }

  /** As written too, records that are whole are handed on in front of anything, and the loop goes on behind them. */
  lemma {:induction false} GoesOnAsWritten(crc: bytes -> Crc, bufsize: nat, msgs: seq<bytes>, later: bytes, s: Source)
    requires bufsize >= HEADER_LENGTH && Storable(msgs) && Unread(s) == File(crc, msgs) + later
    requires Buffered(bufsize, s, Lengths(msgs))
    ensures var rest := Past(bufsize, s, Lengths(msgs));
      var more := Undelimit(AsWritten, crc, bufsize, rest);
      Unread(rest) == later && Undelimit(AsWritten, crc, bufsize, s) == (msgs + more.0, more.1)
    decreases |msgs|
  {
    if msgs == [] {
      assert Lengths(msgs) == [];
      EmptyIsNeutral(later);
      EmptyIsNeutral(Undelimit(AsWritten, crc, bufsize, s).0);
    } else {
      PastFirst(bufsize, s, msgs);
      var msg, behind := msgs[0], Behind(Filled(bufsize, s, |msgs[0]|), |msgs[0]|);
      Associate(Delimit(crc, msg), File(crc, msgs[1..]), later);
      RoundOf(crc, bufsize, msg, File(crc, msgs[1..]) + later, s);
      GoesOnAsWritten(crc, bufsize, msgs[1..], later, behind);
      OneMore(msgs, Undelimit(AsWritten, crc, bufsize, Past(bufsize, s, Lengths(msgs))).0);
    }
  }

  lemma WholeFile(crc: bytes -> Crc, bufsize: nat, msgs: seq<bytes>, later: bytes) returns (rest: Source, read: nat)
    requires bufsize >= HEADER_LENGTH && Storable(msgs) && WholeRecords(bufsize, 0, Lengths(msgs))
    ensures var next := FileLength(Lengths(msgs));
      Unread(rest) == later && HasRead(bufsize, rest, next, read) && Start(bufsize, read) <= next + bufsize
    ensures var s := ReadMore(bufsize, Source([], File(crc, msgs) + later));
      var more := Undelimit(AsWritten, crc, bufsize, rest);
      Undelimit(AsWritten, crc, bufsize, s) == (msgs + more.0, more.1)
  {
    var s, lengths := ReadMore(bufsize, Source([], File(crc, msgs) + later)), Lengths(msgs);
    FileHasLength(crc, msgs);
    EmptyIsNeutral(File(crc, msgs) + later);
    BufferedIsWhole(bufsize, s, 0, 1, lengths);
    GoesOnAsWritten(crc, bufsize, msgs, later, s);
    rest := Past(bufsize, s, lengths);
    read := PastHasRead(bufsize, s, 0, 1, lengths);
  }

  lemma BadRoundAsWritten(crc: bytes -> Crc, bufsize: nat, bad: bytes, c: Crc, later: bytes, s: Source, at: nat,
                          blocks: nat)
    requires bufsize >= HEADER_LENGTH && |bad| < 0x1_0000_0000 && c != crc(bad)
    requires Unread(s) == Header(|bad|, c) + bad + later
    requires HasRead(bufsize, s, at, blocks) && Start(bufsize, blocks) <= at + bufsize
    requires WholeRecord(bufsize, at, |bad|)
    ensures OneRound(AsWritten, crc, bufsize, s) == Stop(BadCrc)
  {
    var s1, s2, h := FillHeader(bufsize, s), Filled(bufsize, s, |bad|), Header(|bad|, c);
    NextRecord(bufsize, s, at, blocks, |bad|);
    Associate(h, bad, later);
    SameHead(s1.buf, s1.file, Unread(s));
    SameHead(h, bad + later, Unread(s));
    CutRecord(h, bad, later, s2.buf, s2.file);
  }

  /**
   * As written a record that is not whole is cut at the end of what has been read, and its checksum compared with
   * that of the front part. If they agree by chance the front part is handed on.
   */
  lemma CutRoundAsWritten(crc: bytes -> Crc, bufsize: nat, msg: bytes, c: Crc, later: bytes, s: Source, at: nat,
                          blocks: nat)
    requires bufsize >= HEADER_LENGTH && |msg| < 0x1_0000_0000
    requires Unread(s) == Header(|msg|, c) + msg + later
    requires HasRead(bufsize, s, at, blocks) && Start(bufsize, blocks) <= at + bufsize
    requires !WholeRecord(bufsize, at, |msg|)
    ensures var k := Start(bufsize, BlocksRead(bufsize, at, |msg|)) - at - 16;
      && |msg| - 16 <= k && 0 <= k < |msg|
      && OneRound(AsWritten, crc, bufsize, s) ==
           if c == crc(msg[..k]) then Chunk(msg[..k], Source([], msg[k..] + later)) else Stop(BadCrc)
  {
    CutLength(bufsize, s, at, blocks, |msg|);
    CutRound(crc, bufsize, msg, c, later, s);
  }

  lemma CutLength(bufsize: nat, s: Source, at: nat, blocks: nat, length: nat)
    requires bufsize >= HEADER_LENGTH && HasRead(bufsize, s, at, blocks) && Start(bufsize, blocks) <= at + bufsize
    requires |Unread(s)| >= HEADER_LENGTH + length && !WholeRecord(bufsize, at, length)
    ensures var read := |Filled(bufsize, s, length).buf|;
      && read == Start(bufsize, BlocksRead(bufsize, at, length)) - at
      && Larger(HEADER_LENGTH, length) <= read < HEADER_LENGTH + length
  {
    FillRecord(bufsize, s, at, blocks, length);
    RecordIsWhole(bufsize, Filled(bufsize, s, length), at, length);
    BlockOf(bufsize, at + Larger(HEADER_LENGTH, length) - 1);
  }

  lemma CutRound(crc: bytes -> Crc, bufsize: nat, msg: bytes, c: Crc, later: bytes, s: Source)
    requires bufsize >= HEADER_LENGTH && |msg| < 0x1_0000_0000
    requires Unread(s) == Header(|msg|, c) + msg + later
    requires Larger(HEADER_LENGTH, |msg|) <= |Filled(bufsize, s, |msg|).buf| < HEADER_LENGTH + |msg|
    ensures var k := |Filled(bufsize, s, |msg|).buf| - 16;
      OneRound(AsWritten, crc, bufsize, s) ==
        if c == crc(msg[..k]) then Chunk(msg[..k], Source([], msg[k..] + later)) else Stop(BadCrc)
  {
    var s1, s2, h := FillHeader(bufsize, s), Filled(bufsize, s, |msg|), Header(|msg|, c);
    Associate(h, msg, later);
    SameHead(s1.buf, s1.file, Unread(s));
    SameHead(h, msg + later, Unread(s));
    CutInside(h, msg, later, s2.buf, s2.file);
    assert s2.buf[16..|s2.buf|] == s2.buf[16..] && s2.buf[|s2.buf|..] == [];
  }

  lemma CutInside(h: bytes, msg: bytes, later: bytes, buf: bytes, file: bytes)
    requires |h| == 16 && buf + file == h + msg + later && 16 <= |buf| < 16 + |msg|
    ensures var k := |buf| - 16; buf[16..] == msg[..k] && file == msg[k..] + later
  {
    var all, k := h + msg + later, |buf| - 16;
    assert buf[16..] == all[16..|buf|] == msg[..k];
    assert file == all[|buf|..] == msg[k..] + later;
  }

  /** As written a wrong checksum in record k ends the output after k records, if all of them are whole. */
  lemma BadCrcAsWritten(crc: bytes -> Crc, bufsize: nat, msgs: seq<bytes>, bad: bytes, c: Crc, later: bytes)
    requires bufsize >= HEADER_LENGTH && Storable(msgs) && |bad| < 0x1_0000_0000 && c != crc(bad)
    requires WholeRecords(bufsize, 0, Lengths(msgs)) && WholeRecord(bufsize, FileLength(Lengths(msgs)), |bad|)
    ensures var s := ReadMore(bufsize, Source([], File(crc, msgs) + (Header(|bad|, c) + bad + later)));
      Undelimit(AsWritten, crc, bufsize, s) == (msgs, BadCrc)
  {
    var behind := Header(|bad|, c) + bad + later;
    var rest, read := WholeFile(crc, bufsize, msgs, behind);
    BadRoundAsWritten(crc, bufsize, bad, c, later, rest, FileLength(Lengths(msgs)), read);
    EmptyIsNeutral(msgs);
  }

  lemma {:induction false} FillAll(bufsize: nat, s: Source, need: nat)
    requires bufsize > 0 && |Unread(s)| < need
    ensures FillTo(bufsize, s, need).buf == Unread(s)
    decreases |s.file|
  {
    if s.file != [] { FillAll(bufsize, ReadMore(bufsize, s), need); } else { EmptyIsNeutral(s.buf); }
  }

  /** And at the end of the file, or in front of a record longer than all that is left, it stops for that reason. */
  lemma EndAsWritten(crc: bytes -> Crc, bufsize: nat, msgs: seq<bytes>, later: bytes)
    requires bufsize >= HEADER_LENGTH && Storable(msgs) && WholeRecords(bufsize, 0, Lengths(msgs))
    requires |later| < 16 || |later| < Be32(later, 8)
    ensures var s := ReadMore(bufsize, Source([], File(crc, msgs) + later));
      Undelimit(AsWritten, crc, bufsize, s) == (msgs, if |later| < 16 then NoHeader else Short)
  {
    var rest, _ := WholeFile(crc, bufsize, msgs, later);
    HeaderIsFill(bufsize, rest);
    if |later| < 16 {
      FillAll(bufsize, rest, HEADER_LENGTH);
    } else {
      var s1 := FillHeader(bufsize, rest);
      SameHead(s1.buf, s1.file, later);
      FillAll(bufsize, s1, Be32(later, 8));
    }
    EmptyIsNeutral(msgs);
  }

  /** One record that fits the buffer is read back exactly when it fits together with its header. */
  lemma OneRecordIsCut(crc: bytes -> Crc, bufsize: nat, msg: bytes)
    requires HEADER_LENGTH <= bufsize && |msg| <= bufsize && |msg| < 0x1_0000_0000
    ensures var s := ReadMore(bufsize, Source([], File(crc, [msg])));
      Undelimit(AsWritten, crc, bufsize, s).0 == [msg] <==> HEADER_LENGTH + |msg| <= bufsize
  {
    RecordsComeBackAsWritten(crc, bufsize, [msg]);
    assert Lengths([msg])[1..] == [];
  }

  // ---------- the loop ----------

  method Refill(bufsize: nat, source: Source, need: nat) returns (s: Source)
    requires bufsize > 0
    ensures s == FillTo(bufsize, source, need)
  {
    s := source;
    while |s.buf| < need && s.file != []
      invariant FillTo(bufsize, s, need) == FillTo(bufsize, source, need)
      decreases |s.file|
    {
      s := ReadMore(bufsize, s);
    }
  }

  /** From the refill of the header to the end of one record. */
  method ReadRecord(v: Variant, crc: bytes -> Crc, bufsize: nat, source: Source) returns (round: Round)
    requires bufsize >= HEADER_LENGTH
    ensures round == OneRound(v, crc, bufsize, source)
  {
    var s := source;
    if |s.buf| < HEADER_LENGTH {
      s := ReadMore(bufsize, s);
    }
    if |s.buf| < HEADER_LENGTH {
      return Stop(NoHeader);
    }
    if v.Intended? && s.buf[..8] != MARKER {
      return Stop(NoMarker);
    }
    var chunkLength, chunkCrc := Be32(s.buf, 8), Be32(s.buf, 12);
    var need := if v.AsWritten? then chunkLength else HEADER_LENGTH + chunkLength;
    s := Refill(bufsize, s, need);
    if |s.buf| < need {
      return Stop(Short);
    }
    var cut := if HEADER_LENGTH + chunkLength <= |s.buf| then HEADER_LENGTH + chunkLength else |s.buf|;
    var chunk := s.buf[HEADER_LENGTH..cut];
    if chunkCrc != crc(chunk) {
      return Stop(BadCrc);
    }
    return Chunk(chunk, Source(s.buf[cut..], s.file));
  }

  method UndelimitFile(v: Variant, crc: bytes -> Crc, bufsize: nat, delimitedFile: bytes)
    returns (chunks: seq<bytes>, end: End, chunkCount: nat)
    requires bufsize >= HEADER_LENGTH
    ensures (chunks, end) == Undelimit(v, crc, bufsize, ReadMore(bufsize, Source([], delimitedFile)))
    ensures chunkCount == |chunks|
  {
    var s := ReadMore(bufsize, Source([], delimitedFile));
    chunks, chunkCount := [], 0;
    ghost var whole := Undelimit(v, crc, bufsize, s);
    EmptyIsNeutral(whole.0);
    while true
      invariant whole.0 == chunks + Undelimit(v, crc, bufsize, s).0 && whole.1 == Undelimit(v, crc, bufsize, s).1
      invariant chunkCount == |chunks|
      decreases |Unread(s)|
    {
      var round := ReadRecord(v, crc, bufsize, s);
      match round
      case Stop(why) =>
        EmptyIsNeutral(chunks);
        return chunks, why, chunkCount;
      case Chunk(chunk, rest) =>
        Associate(chunks, [chunk], Undelimit(v, crc, bufsize, rest).0);
        s, chunks, chunkCount := rest, chunks + [chunk], chunkCount + 1;
    }
  }
}
