/**
 * The AS path attribute (bgpparse.py, parse_attribute_AS_path): segments of AS numbers of four or of two
 * bytes, with nothing in the message to say which. Four is tried first, then two.
 */
module AsPath {
  import opened Types
  import opened Bytes

  datatype Segment = Segment(kind: nat, ases: seq<nat>)

  function AsnLength(as4: bool): nat {
    if as4 then 4 else 2
  }

  /** asn_shift: the bytes that n AS numbers take. */
  function AsnShift(as4: bool, n: nat): nat {
    if as4 then 4 * n else 2 * n
  }

  function Asn(as4: bool, msg: bytes, at: nat): nat
    requires at + AsnLength(as4) <= |msg|
  {
    if as4 then Be32(msg, at) else Be16(msg, at)
  }

  /** The assertions of get_segment: type, and the length that the count implies. */
  predicate HasSegment(as4: bool, msg: bytes) {
    |msg| >= 4 && (msg[0] == 1 || msg[0] == 2) && |msg| >= 2 + AsnShift(as4, msg[1])
  }

  function SegmentEnd(as4: bool, msg: bytes): nat
    requires |msg| >= 2
  {
    2 + AsnShift(as4, msg[1])
  }

  /**
   * How many numbers are read, and where number i is read. As written the loop counts bytes up to the number
   * of ASes and reads from the start of the segment; as intended it reads each AS behind the two header bytes.
   */
  function ReadCount(v: Variant, as4: bool, count: nat): nat {
    if v.AsWritten? then (if as4 then (count + 3) / 4 else (count + 1) / 2) else count
  }

  function ReadAt(v: Variant, as4: bool, i: nat): nat {
    if v.AsWritten? then AsnShift(as4, i) else 2 + AsnShift(as4, i)
  }

  lemma ReadsFit(v: Variant, as4: bool, msg: bytes, i: nat)
    requires HasSegment(as4, msg) && i < ReadCount(v, as4, msg[1])
    ensures ReadAt(v, as4, i) + AsnLength(as4) <= SegmentEnd(as4, msg)
  {}

  function ReadAses(v: Variant, as4: bool, msg: bytes): (ases: seq<nat>)
    requires HasSegment(as4, msg)
    ensures |ases| == ReadCount(v, as4, msg[1])
  {
    seq(ReadCount(v, as4, msg[1]), i requires 0 <= i < ReadCount(v, as4, msg[1]) =>
      ReadsFit(v, as4, msg, i); Asn(as4, msg, ReadAt(v, as4, i)))
  }

  /** get_segments; None is a failed assertion. */
  function Segments(v: Variant, as4: bool, msg: bytes): Option<seq<Segment>>
    decreases |msg|
  {
    if msg == [] then Some([])
    else if !HasSegment(as4, msg) then None
    else
      match Segments(v, as4, msg[SegmentEnd(as4, msg)..])
      case None => None
      case Some(rest) => Some([Segment(msg[0], ReadAses(v, as4, msg))] + rest)
  }

  /** The path: as four-byte numbers if that succeeds, else as two-byte ones, else none. */
  function ParsePath(v: Variant, attr: bytes): seq<Segment> {
    match Segments(v, true, attr)
    case Some(segments) => segments
    case None =>
      match Segments(v, false, attr)
      case Some(segments) => segments
      case None => []
  }

  // ---------- encoding ----------

  function PutAsn(as4: bool, a: nat): (b: bytes)
    requires a < if as4 then 0x1_0000_0000 else 0x1_0000
    ensures |b| == AsnLength(as4) && Asn(as4, b, 0) == a
  {
    if as4 then Put32(a) else Put16(a)
  }

  predicate Fits(as4: bool, ases: seq<nat>) {
    forall i :: 0 <= i < |ases| ==> ases[i] < if as4 then 0x1_0000_0000 else 0x1_0000
  }

  function EncodeAses(as4: bool, ases: seq<nat>): (b: bytes)
    requires Fits(as4, ases)
    ensures |b| == AsnShift(as4, |ases|)
  {
    if ases == [] then [] else PutAsn(as4, ases[0]) + EncodeAses(as4, ases[1..])
  }

  predicate WellFormed(as4: bool, s: Segment) {
    (s.kind == 1 || s.kind == 2) && |s.ases| < 0x100 && Fits(as4, s.ases)
  }

  predicate AllWellFormed(as4: bool, segments: seq<Segment>) {
    forall i :: 0 <= i < |segments| ==> WellFormed(as4, segments[i])
  }

  function EncodeSegment(as4: bool, s: Segment): (b: bytes)
    requires WellFormed(as4, s)
    ensures |b| == 2 + AsnShift(as4, |s.ases|)
  {
    [s.kind, |s.ases|] + EncodeAses(as4, s.ases)
  }

  function EncodePath(as4: bool, segments: seq<Segment>): bytes
    requires AllWellFormed(as4, segments)
  {
    if segments == [] then [] else EncodeSegment(as4, segments[0]) + EncodePath(as4, segments[1..])
  }

  // ---------- one segment ----------

  lemma AsnInFront(as4: bool, a: bytes, b: bytes, at: nat)
    requires at + AsnLength(as4) <= |a|
    ensures Asn(as4, a + b, at) == Asn(as4, a, at)
  {}

  lemma AsnBehind(as4: bool, a: bytes, b: bytes, at: nat)
    requires at + AsnLength(as4) <= |b|
    ensures Asn(as4, a + b, |a| + at) == Asn(as4, b, at)
  {}

  lemma {:induction false} EncodedAsnAt(as4: bool, ases: seq<nat>, i: nat)
    requires Fits(as4, ases) && i < |ases|
    ensures AsnShift(as4, i) + AsnLength(as4) <= |EncodeAses(as4, ases)|
    ensures Asn(as4, EncodeAses(as4, ases), AsnShift(as4, i)) == ases[i]
    decreases i
  {
    var first := PutAsn(as4, ases[0]);
    var rest := EncodeAses(as4, ases[1..]);
    if i == 0 {
      AsnInFront(as4, first, rest, 0);
    } else {
      EncodedAsnAt(as4, ases[1..], i - 1);
      AsnBehind(as4, first, rest, AsnShift(as4, i - 1));
    }
  }

  lemma EncodedSegmentReads(as4: bool, s: Segment, later: bytes)
    requires WellFormed(as4, s) && |EncodeSegment(as4, s) + later| >= 4
    ensures var msg := EncodeSegment(as4, s) + later;
      && HasSegment(as4, msg) && SegmentEnd(as4, msg) == |EncodeSegment(as4, s)|
      && msg[SegmentEnd(as4, msg)..] == later
      && ReadAses(Intended, as4, msg) == s.ases
  {
    var head: bytes := [s.kind, |s.ases|];
    var msg, body := EncodeSegment(as4, s) + later, EncodeAses(as4, s.ases);
    Associate(head, body, later);
    forall i | 0 <= i < |s.ases| ensures ReadAses(Intended, as4, msg)[i] == s.ases[i] {
      EncodedAsnAt(as4, s.ases, i);
      AsnInFront(as4, body, later, AsnShift(as4, i));
      AsnBehind(as4, head, body + later, AsnShift(as4, i));
    }
  }

  lemma DecodeHead(v: Variant, as4: bool, msg: bytes)
    requires HasSegment(as4, msg)
    ensures var rest := Segments(v, as4, msg[SegmentEnd(as4, msg)..]);
      Segments(v, as4, msg) ==
        if rest.None? then None else Some([Segment(msg[0], ReadAses(v, as4, msg))] + rest.value)
  {}

  // ---------- round trips ----------

  /** An encoded path decodes to itself exactly when it does not end in an empty segment. */
  lemma {:induction false} DecodeEncode(as4: bool, segments: seq<Segment>)
    requires AllWellFormed(as4, segments)
    ensures Segments(Intended, as4, EncodePath(as4, segments)) == Some(segments) <==>
      segments == [] || segments[|segments| - 1].ases != []
    ensures |EncodePath(as4, segments)| >= 2 * |segments|
    decreases |segments|
  {
    if segments != [] {
      var s, later, msg := segments[0], EncodePath(as4, segments[1..]), EncodePath(as4, segments);
      DecodeEncode(as4, segments[1..]);
      assert segments == [s] + segments[1..];
      if |msg| >= 4 {
        EncodedSegmentReads(as4, s, later);
        DecodeHead(Intended, as4, msg);
      }
    }
  }

  lemma {:induction false} EncodeReadAses(as4: bool, body: bytes, ases: seq<nat>)
    requires |body| == AsnShift(as4, |ases|)
    requires forall i :: 0 <= i < |ases| ==> ases[i] == Asn(as4, body, AsnShift(as4, i))
    ensures Fits(as4, ases) && EncodeAses(as4, ases) == body
    decreases |ases|
  {
    if ases != [] {
      var k := AsnLength(as4);
      var first, later := body[..k], body[k..];
      assert body == first + later;
      forall i | 0 <= i < |ases[1..]| ensures ases[1..][i] == Asn(as4, later, AsnShift(as4, i)) {
        assert ases[1..][i] == ases[i + 1] == Asn(as4, body, AsnShift(as4, i + 1));
        AsnBehind(as4, first, later, AsnShift(as4, i));
      }
      EncodeReadAses(as4, later, ases[1..]);
      if as4 { Put32Be32(body, 0); } else { Put16Be16(body, 0); }
    }
  }

  lemma EncodeReadSegment(as4: bool, msg: bytes)
    requires HasSegment(as4, msg)
    ensures var s, end := Segment(msg[0], ReadAses(Intended, as4, msg)), SegmentEnd(as4, msg);
      WellFormed(as4, s) && EncodeSegment(as4, s) == msg[..end]
  {
    var ases, end := ReadAses(Intended, as4, msg), SegmentEnd(as4, msg);
    var body := msg[2..end];
    forall i | 0 <= i < |ases| ensures ases[i] == Asn(as4, body, AsnShift(as4, i)) {
      ReadsFit(Intended, as4, msg, i);
      assert msg == msg[..2] + body + msg[end..];
      AsnInFront(as4, msg[..2] + body, msg[end..], 2 + AsnShift(as4, i));
      AsnBehind(as4, msg[..2], body, AsnShift(as4, i));
    }
    EncodeReadAses(as4, body, ases);
    assert msg[..end] == [msg[0], msg[1]] + body;
  }

  lemma EncodeCons(as4: bool, s: Segment, segments: seq<Segment>)
    requires WellFormed(as4, s) && AllWellFormed(as4, segments)
    ensures AllWellFormed(as4, [s] + segments)
    ensures EncodePath(as4, [s] + segments) == EncodeSegment(as4, s) + EncodePath(as4, segments)
  {
    assert ([s] + segments)[1..] == segments;
  }

  lemma CutAt(b: bytes, n: nat)
    requires n <= |b|
    ensures b == b[..n] + b[n..]
  {}

  /** Every accepted attribute is the encoding of the path it decodes to. */
  lemma {:induction false} EncodeDecode(as4: bool, msg: bytes)
    requires Segments(Intended, as4, msg).Some?
    ensures var segments := Segments(Intended, as4, msg).value;
      AllWellFormed(as4, segments) && EncodePath(as4, segments) == msg
    decreases |msg|
  {
    if msg != [] {
      var end := SegmentEnd(as4, msg);
      DecodeHead(Intended, as4, msg);
      EncodeDecode(as4, msg[end..]);
      EncodeReadSegment(as4, msg);
      EncodeCons(as4, Segment(msg[0], ReadAses(Intended, as4, msg)), Segments(Intended, as4, msg[end..]).value);
      CutAt(msg, end);
    }
  }

  // ---------- four bytes or two ----------

  predicate EndsNonEmpty(segments: seq<Segment>) {
    segments != [] && segments[|segments| - 1].ases != []
  }

  /** A path of four-byte numbers is read as such at once. */
  lemma Path4IsRead(segments: seq<Segment>)
    requires AllWellFormed(true, segments) && EndsNonEmpty(segments)
    ensures Segments(Intended, true, EncodePath(true, segments)) == Some(segments)
    ensures ParsePath(Intended, EncodePath(true, segments)) == segments
  {
    DecodeEncode(true, segments);
  }

  /** A single segment of two-byte numbers is too short for four-byte ones. */
  lemma SingleSegmentFallsBack(s: Segment)
    requires WellFormed(false, s) && s.ases != []
    ensures Segments(Intended, true, EncodeSegment(false, s)).None?
    ensures ParsePath(Intended, EncodeSegment(false, s)) == [s]
  {
    DecodeEncode(false, [s]);
    assert EncodePath(false, [s]) == EncodeSegment(false, s) + [];
    EmptyIsNeutral(EncodeSegment(false, s));
  }

  lemma {:induction false} EncodedLength(as4: bool, segments: seq<Segment>)
    requires AllWellFormed(as4, segments)
    ensures |EncodePath(as4, segments)| == 2 * |segments| + AsnShift(as4, AsCount(segments))
    decreases |segments|
  {
    if segments != [] { EncodedLength(as4, segments[1..]); }
  }

  function AsCount(segments: seq<Segment>): nat {
    if segments == [] then 0 else |segments[0].ases| + AsCount(segments[1..])
  }

  lemma {:induction false} LastHasAses(segments: seq<Segment>)
    requires EndsNonEmpty(segments)
    ensures AsCount(segments) > 0
    decreases |segments|
  {
    if |segments| > 1 { LastHasAses(segments[1..]); }
  }

  /** A path of two-byte numbers is read as itself if and only if it is not acceptable as four-byte numbers. */
  lemma Path2IsRead(segments: seq<Segment>)
    requires AllWellFormed(false, segments) && EndsNonEmpty(segments)
    ensures ParsePath(Intended, EncodePath(false, segments)) == segments <==>
      Segments(Intended, true, EncodePath(false, segments)).None?
  {
    var msg := EncodePath(false, segments);
    DecodeEncode(false, segments);
    if Segments(Intended, true, msg) == Some(segments) {
      EncodeDecode(true, msg);
      EncodedLength(true, segments);
      EncodedLength(false, segments);
      LastHasAses(segments);
    }
  }

  /** What is acceptable both ways has at least two segments of two-byte numbers. */
  lemma AmbiguousHasTwoSegments(msg: bytes)
    requires msg != [] && Segments(Intended, true, msg).Some? && Segments(Intended, false, msg).Some?
    ensures |Segments(Intended, false, msg).value| >= 2
  {
    DecodeHead(Intended, false, msg);
    var later := msg[SegmentEnd(false, msg)..];
    if later != [] { DecodeHead(Intended, false, later); }
  }

  const TWO_SEGMENTS := [Segment(2, [1, 2]), Segment(2, [3])]

  lemma EncodeTwoSegments()
    ensures AllWellFormed(false, TWO_SEGMENTS)
    ensures EncodePath(false, TWO_SEGMENTS) == [2, 2, 0, 1, 0, 2, 2, 1, 0, 3]
  {
    assert [1, 2][1..] == [2] && [2][1..] == [] && [3][1..] == [];
    assert EncodeAses(false, []) == [];
    assert EncodeAses(false, [3]) == [0, 3];
    assert EncodeAses(false, [2]) == [0, 2];
    assert EncodeAses(false, [1, 2]) == [0, 1, 0, 2];
    assert TWO_SEGMENTS[1..] == [Segment(2, [3])] && TWO_SEGMENTS[1..][1..] == [];
    assert EncodePath(false, TWO_SEGMENTS[1..]) == [2, 1, 0, 3];
  }

  /** Such attributes exist: two segments of two-byte numbers that read as one of four-byte numbers. */
  lemma AmbiguousPath()
    ensures AllWellFormed(false, TWO_SEGMENTS)
    ensures ParsePath(Intended, EncodePath(false, TWO_SEGMENTS)) == [Segment(2, [0x0001_0002, 0x0201_0003])]
  {
    EncodeTwoSegments();
    var msg: bytes := [2, 2, 0, 1, 0, 2, 2, 1, 0, 3];
    assert SegmentEnd(true, msg) == 10 && msg[10..] == [];
    assert ReadAses(Intended, true, msg) == [Be32(msg, 2), Be32(msg, 6)];
    DecodeHead(Intended, true, msg);
  }

  // ---------- as written ----------

  /** The framing does not depend on where the numbers are read. */
  lemma {:induction false} SameFraming(as4: bool, msg: bytes)
    ensures var written, meant := Segments(AsWritten, as4, msg), Segments(Intended, as4, msg);
      && (written.Some? <==> meant.Some?)
      && (written.Some? ==> |written.value| == |meant.value|)
      && (written.Some? ==> forall i :: 0 <= i < |written.value| ==> written.value[i].kind == meant.value[i].kind)
    decreases |msg|
  {
    if HasSegment(as4, msg) {
      SameFraming(as4, msg[SegmentEnd(as4, msg)..]);
      DecodeHead(AsWritten, as4, msg);
      DecodeHead(Intended, as4, msg);
    }
  }

  /**
   * What is read of a segment as written: one number in asn_len of those there are, each from where the segment
   * starts. So the first is made of the header, and every later one starts in its predecessor.
   */
  function ShiftedAs(as4: bool, s: Segment, i: nat): nat
    requires i < |s.ases|
  {
    if as4 then
      (if i == 0 then s.kind * 0x100 + |s.ases| else s.ases[i - 1] % 0x1_0000) * 0x1_0000 + s.ases[i] / 0x1_0000
    else if i == 0 then s.kind * 0x100 + |s.ases|
    else s.ases[i - 1]
  }

  function Shifted(as4: bool, s: Segment): Segment {
    var n := if as4 then (|s.ases| + 3) / 4 else (|s.ases| + 1) / 2;
    Segment(s.kind, seq(n, i requires 0 <= i < n => ShiftedAs(as4, s, i)))
  }

  function AllShifted(as4: bool, segments: seq<Segment>): (shifted: seq<Segment>)
    ensures |shifted| == |segments|
  {
    if segments == [] then [] else [Shifted(as4, segments[0])] + AllShifted(as4, segments[1..])
  }

  lemma Halves(msg: bytes, at: nat)
    requires at + 4 <= |msg|
    ensures Be32(msg, at) / 0x1_0000 == Be16(msg, at) && Be32(msg, at) % 0x1_0000 == Be16(msg, at + 2)
  {}

  lemma ShiftedAsRead4(msg: bytes, s: Segment, i: nat)
    requires HasSegment(true, msg) && msg[0] == s.kind && msg[1] == |s.ases| && i < |s.ases|
    requires forall j :: 0 <= j <= i ==> s.ases[j] == Be32(msg, 2 + 4 * j)
    ensures Be32(msg, 4 * i) == ShiftedAs(true, s, i)
  {
    Halves(msg, 2 + 4 * i);
    assert s.ases[i] == Be32(msg, 2 + 4 * i);
    if i == 0 {
      assert Be16(msg, 0) == s.kind * 0x100 + |s.ases|;
    } else {
      assert s.ases[i - 1] == Be32(msg, 2 + 4 * (i - 1));
      Halves(msg, 2 + 4 * (i - 1));
    }
  }

  lemma ShiftedAsRead(as4: bool, msg: bytes, s: Segment, i: nat)
    requires HasSegment(as4, msg) && msg[0] == s.kind && msg[1] == |s.ases| && i < |s.ases|
    requires ReadAses(Intended, as4, msg) == s.ases
    requires ReadAt(AsWritten, as4, i) + AsnLength(as4) <= |msg|
    ensures Asn(as4, msg, ReadAt(AsWritten, as4, i)) == ShiftedAs(as4, s, i)
  {
    forall j | 0 <= j <= i ensures s.ases[j] == Asn(as4, msg, 2 + AsnShift(as4, j)) {
      ReadsFit(Intended, as4, msg, j);
    }
    if as4 { ShiftedAsRead4(msg, s, i); }
  }

  lemma SegmentAsWritten(as4: bool, s: Segment, later: bytes)
    requires WellFormed(as4, s) && |EncodeSegment(as4, s) + later| >= 4
    ensures var msg := EncodeSegment(as4, s) + later;
      && HasSegment(as4, msg) && msg[SegmentEnd(as4, msg)..] == later
      && Segment(msg[0], ReadAses(AsWritten, as4, msg)) == Shifted(as4, s)
  {
    var msg := EncodeSegment(as4, s) + later;
    EncodedSegmentReads(as4, s, later);
    var read := ReadAses(AsWritten, as4, msg);
    forall i | 0 <= i < |read| ensures read[i] == Shifted(as4, s).ases[i] {
      ReadsFit(AsWritten, as4, msg, i);
      ShiftedAsRead(as4, msg, s, i);
    }
    assert read == Shifted(as4, s).ases;
  }

  /** As written every encoded path decodes to its shifted one. */
  lemma {:induction false} DecodeShifted(as4: bool, segments: seq<Segment>)
    requires AllWellFormed(as4, segments) && (segments == [] || EndsNonEmpty(segments))
    ensures Segments(AsWritten, as4, EncodePath(as4, segments)) == Some(AllShifted(as4, segments))
    decreases |segments|
  {
    if segments != [] {
      var s, later := segments[0], EncodePath(as4, segments[1..]);
      EncodedLength(as4, segments);
      LastHasAses(segments);
      SegmentAsWritten(as4, s, later);
      DecodeHead(AsWritten, as4, EncodePath(as4, segments));
      DecodeShifted(as4, segments[1..]);
    }
  }

  /** The one AS number that comes out right as written: the one that equals the bytes in front of it. */
  function Lucky(as4: bool, kind: nat): nat {
    if as4 then (kind * 0x100 + 1) * 0x1_0001 else kind * 0x100 + 1
  }

  predicate Survives(as4: bool, s: Segment) {
    s.ases == [] || s.ases == [Lucky(as4, s.kind)]
  }

  lemma AsWrittenReads(as4: bool, s: Segment, later: bytes)
    requires WellFormed(as4, s) && |EncodeSegment(as4, s) + later| >= 4
    ensures var msg := EncodeSegment(as4, s) + later;
      && HasSegment(as4, msg) && msg[SegmentEnd(as4, msg)..] == later && msg[0] == s.kind
      && (ReadAses(AsWritten, as4, msg) == s.ases <==> Survives(as4, s))
  {
    var msg := EncodeSegment(as4, s) + later;
    EncodedSegmentReads(as4, s, later);
    if |s.ases| == 1 {
      var a := s.ases[0];
      assert ReadAses(Intended, as4, msg)[0] == a == Asn(as4, msg, 2);
      var read := ReadAses(AsWritten, as4, msg);
      assert read == [Asn(as4, msg, 0)];
      if as4 {
        assert Be32(msg, 0) == (s.kind * 0x100 + 1) * 0x1_0000 + Be16(msg, 2);
        assert a == Be16(msg, 2) * 0x1_0000 + Be16(msg, 4);
      }
      assert s.ases == [a];
    }
  }

  /** No empty segment at the end, and only surviving ones. */
  predicate AllSurvive(as4: bool, segments: seq<Segment>) {
    && (segments == [] || EndsNonEmpty(segments))
    && forall i :: 0 <= i < |segments| ==> Survives(as4, segments[i])
  }

  lemma AllSurviveFirst(as4: bool, segments: seq<Segment>)
    requires segments != []
    ensures AllSurvive(as4, segments) <==>
      && Survives(as4, segments[0]) && AllSurvive(as4, segments[1..])
      && (|segments| == 1 ==> segments[0].ases != [])
  {
    assert forall i :: 0 < i < |segments| ==> segments[i] == segments[1..][i - 1];
    assert forall i :: 0 <= i < |segments[1..]| ==> segments[1..][i] == segments[i + 1];
  }

  /** As written a path decodes to itself exactly when in addition every segment is empty or a lucky one. */
  lemma {:induction false} DecodeEncodeAsWritten(as4: bool, segments: seq<Segment>)
    requires AllWellFormed(as4, segments)
    ensures Segments(AsWritten, as4, EncodePath(as4, segments)) == Some(segments) <==> AllSurvive(as4, segments)
    ensures |EncodePath(as4, segments)| >= 2 * |segments|
    decreases |segments|
  {
    if segments != [] {
      var s, later, msg := segments[0], EncodePath(as4, segments[1..]), EncodePath(as4, segments);
      DecodeEncodeAsWritten(as4, segments[1..]);
      AllSurviveFirst(as4, segments);
      assert segments == [s] + segments[1..];
      if |msg| >= 4 {
        AsWrittenReads(as4, s, later);
        DecodeHead(AsWritten, as4, msg);
        var first, rest := Segment(msg[0], ReadAses(AsWritten, as4, msg)), Segments(AsWritten, as4, later);
        if rest.Some? { SplitEqual([first], rest.value, [s], segments[1..]); }
      }
    }
  }

  /** So the four-byte path that parse_attribute_AS_path is given comes out right only if it is all luck. */
  lemma Path4AsWritten(segments: seq<Segment>)
    requires AllWellFormed(true, segments) && EndsNonEmpty(segments)
    ensures ParsePath(AsWritten, EncodePath(true, segments)) == segments <==>
      forall i :: 0 <= i < |segments| ==> Survives(true, segments[i])
  {
    DecodeEncode(true, segments);
    DecodeEncodeAsWritten(true, segments);
    SameFraming(true, EncodePath(true, segments));
  }

  /** Reading fewer AS numbers than there are, the code as written never reports more than the bytes can hold. */
  lemma {:induction false} FourByteLength(msg: bytes)
    requires Segments(AsWritten, true, msg).Some?
    ensures var segments := Segments(AsWritten, true, msg).value;
      |msg| >= 2 * |segments| + 4 * AsCount(segments)
    decreases |msg|
  {
    if msg != [] {
      var later := msg[SegmentEnd(true, msg)..];
      DecodeHead(AsWritten, true, msg);
      FourByteLength(later);
      var first, rest := Segment(msg[0], ReadAses(AsWritten, true, msg)), Segments(AsWritten, true, later).value;
      assert ([first] + rest)[1..] == rest;
    }
  }

  /** The two-byte path comes out right only if it is rejected as four-byte numbers and is all luck. */
  lemma Path2AsWritten(segments: seq<Segment>)
    requires AllWellFormed(false, segments) && EndsNonEmpty(segments)
    ensures ParsePath(AsWritten, EncodePath(false, segments)) == segments <==>
      && Segments(AsWritten, true, EncodePath(false, segments)).None?
      && forall i :: 0 <= i < |segments| ==> Survives(false, segments[i])
  {
    var msg := EncodePath(false, segments);
    DecodeEncode(false, segments);
    DecodeEncodeAsWritten(false, segments);
    SameFraming(false, msg);
    if Segments(AsWritten, true, msg) == Some(segments) {
      FourByteLength(msg);
      EncodedLength(false, segments);
      LastHasAses(segments);
    }
  }

  // ---------- the loops ----------

  method GetSegment(v: Variant, as4: bool, msg: bytes) returns (r: Option<(Segment, bytes)>)
    ensures r == if HasSegment(as4, msg) then
        Some((Segment(msg[0], ReadAses(v, as4, msg)), msg[SegmentEnd(as4, msg)..]))
      else None
  {
    if |msg| < 4 || (msg[0] != 1 && msg[0] != 2) {
      return None;
    }
    var count: nat := msg[1];
    if |msg| < 2 + AsnShift(as4, count) {
      return None;
    }
    var asList: seq<nat> := [];
    var offset, step := 0, if v.AsWritten? then AsnLength(as4) else 1;
    while offset < count
      invariant offset == (if v.AsWritten? then AsnShift(as4, |asList|) else |asList|)
      invariant |asList| <= ReadCount(v, as4, count)
      invariant asList == ReadAses(v, as4, msg)[..|asList|]
      decreases count - offset
    {
      ReadsFit(v, as4, msg, |asList|);
      var asn := Asn(as4, msg, if v.AsWritten? then offset else 2 + AsnShift(as4, offset));
      ghost var all := ReadAses(v, as4, msg);
      assert asn == all[|asList|] && all[..|asList| + 1] == all[..|asList|] + [asn];
      asList := asList + [asn];
      offset := offset + step;
    }
    ghost var all := ReadAses(v, as4, msg);
    assert |asList| == |all| && all[..|all|] == all;
    return Some((Segment(msg[0], asList), msg[2 + AsnShift(as4, count)..]));
  }

  function Ahead(done: seq<Segment>, r: Option<seq<Segment>>): Option<seq<Segment>> {
    if r.None? then None else Some(done + r.value)
  }

  method GetSegments(v: Variant, as4: bool, attr: bytes) returns (r: Option<seq<Segment>>)
    ensures r == Segments(v, as4, attr)
  {
    var msg := attr;
    var segments: seq<Segment> := [];
    ghost var whole := Segments(v, as4, attr);
    if whole.Some? { EmptyIsNeutral(whole.value); }
    while msg != []
      invariant whole == Ahead(segments, Segments(v, as4, msg))
      decreases |msg|
    {
      var next := GetSegment(v, as4, msg);
      if next.None? {
        return None;
      }
      DecodeHead(v, as4, msg);
      ghost var later := Segments(v, as4, next.value.1);
      if later.Some? { Associate(segments, [next.value.0], later.value); }
      segments, msg := segments + [next.value.0], next.value.1;
    }
    EmptyIsNeutral(segments);
    return Some(segments);
  }

  method ParseAttributeAsPath(v: Variant, attr: bytes) returns (segments: seq<Segment>)
    ensures segments == ParsePath(v, attr)
  {
    segments := [];
    var r := GetSegments(v, true, attr);
    if r.None? {
      r := GetSegments(v, false, attr);
    }
    if r.Some? {
      segments := r.value;
    }
  }
}
