/**
 * What the dictionary of an UPDATE holds: each attribute as the RFCs lay it out, what parse_attribute keeps
 * of it, and which of several attributes with one code is kept.
 */
module BgpAttributes {
  import opened Types
  import opened Bytes
  import opened BgpUpdate
  import P = AsPath

  // ---------- attributes as they are sent ----------

  datatype Sent =
    | Origin(n: nat)
    | NextHop(addr: nat)
    | MultiExitDisc(n: nat)
    | LocalPref(n: nat)
    | AtomicAggregate
    | Aggregator2(asn: nat, addr: nat)
    | Aggregator4(asn: nat, addr: nat)
    | Communities(cs: seq<nat>)
    | Reach(rest: bytes)
    | Unreach(rest: bytes)
    | ExtendedCommunities(es: seq<(nat, bytes)>)
    | As4Aggregator(asn: nat, addr: nat)
    | Connector(rest: bytes)
    | PathLimit(n: nat, asn: nat)
    | LargeCommunities(ls: seq<(nat, nat, nat)>)
    | AttributeSet(asn: nat, rest: bytes)

  predicate Word(n: nat) {
    n < 0x1_0000_0000
  }

  predicate AllWords(cs: seq<nat>) {
    forall i :: 0 <= i < |cs| ==> cs[i] < 0x1_0000_0000
  }

  predicate AllExtended(es: seq<(nat, bytes)>) {
    forall i :: 0 <= i < |es| ==> es[i].0 < 0x1_0000 && |es[i].1| == 6
  }

  predicate AllLarge(ls: seq<(nat, nat, nat)>) {
    forall i :: 0 <= i < |ls| ==>
      ls[i].0 < 0x1_0000_0000 && ls[i].1 < 0x1_0000_0000 && ls[i].2 < 0x1_0000_0000
  }

  predicate Fits(s: Sent) {
    match s
    case Origin(n) => n < 0x100
    case NextHop(addr) => Word(addr)
    case MultiExitDisc(n) => Word(n)
    case LocalPref(n) => Word(n)
    case AtomicAggregate => true
    case Aggregator2(asn, addr) => asn < 0x1_0000 && Word(addr)
    case Aggregator4(asn, addr) => Word(asn) && Word(addr)
    case Communities(cs) => AllWords(cs)
    case Reach(_) => true
    case Unreach(_) => true
    case ExtendedCommunities(es) => AllExtended(es)
    case As4Aggregator(asn, addr) => Word(asn) && Word(addr)
    case Connector(rest) => |rest| > 4
    case PathLimit(n, asn) => n < 0x100 && Word(asn)
    case LargeCommunities(ls) => AllLarge(ls)
    case AttributeSet(asn, rest) => Word(asn) && rest != []
  }

  /** The attribute type codes assigned by IANA. */
  function Code(s: Sent): byte {
    match s
    case Origin(_) => 1
    case NextHop(_) => 3
    case MultiExitDisc(_) => 4
    case LocalPref(_) => 5
    case AtomicAggregate => 6
    case Aggregator2(_, _) => 7
    case Aggregator4(_, _) => 7
    case Communities(_) => 8
    case Reach(_) => 14
    case Unreach(_) => 15
    case ExtendedCommunities(_) => 16
    case As4Aggregator(_, _) => 18
    case Connector(_) => 20
    case PathLimit(_, _) => 21
    case LargeCommunities(_) => 32
    case AttributeSet(_, _) => 128
  }

  function PutCommunities(cs: seq<nat>): (b: bytes)
    requires AllWords(cs)
    ensures |b| == 4 * |cs|
  {
    if cs == [] then [] else Put32(cs[0]) + PutCommunities(cs[1..])
  }

  function PutExtended(es: seq<(nat, bytes)>): (b: bytes)
    requires AllExtended(es)
    ensures |b| == 8 * |es|
  {
    if es == [] then [] else Put16(es[0].0) + es[0].1 + PutExtended(es[1..])
  }

  function PutLarge(ls: seq<(nat, nat, nat)>): (b: bytes)
    requires AllLarge(ls)
    ensures |b| == 12 * |ls|
  {
    if ls == [] then [] else Put32(ls[0].0) + Put32(ls[0].1) + Put32(ls[0].2) + PutLarge(ls[1..])
  }

  function Payload(s: Sent): bytes
    requires Fits(s)
  {
    match s
    case Origin(n) => [n]
    case NextHop(addr) => Put32(addr)
    case MultiExitDisc(n) => Put32(n)
    case LocalPref(n) => Put32(n)
    case AtomicAggregate => []
    case Aggregator2(asn, addr) => Put16(asn) + Put32(addr)
    case Aggregator4(asn, addr) => Put32(asn) + Put32(addr)
    case Communities(cs) => PutCommunities(cs)
    case Reach(rest) => rest
    case Unreach(rest) => rest
    case ExtendedCommunities(es) => PutExtended(es)
    case As4Aggregator(asn, addr) => Put32(asn) + Put32(addr)
    case Connector(rest) => rest
    case PathLimit(n, asn) => [n] + Put32(asn)
    case LargeCommunities(ls) => PutLarge(ls)
    case AttributeSet(asn, rest) => Put32(asn) + rest
  }

  /** The second number of a four-byte aggregator is read at offset 2: half the AS, then half the address. */
  function Straddled(asn: nat, addr: nat): nat {
    asn % 0x1_0000 * 0x1_0000 + addr / 0x1_0000
  }

  /** What is kept: of a community its upper half, of a large community its first number. */
  function Kept(s: Sent): Value {
    match s
    case Origin(n) => Number(n)
    case NextHop(addr) => Number(addr)
    case MultiExitDisc(n) => Number(n)
    case LocalPref(n) => Number(n)
    case AtomicAggregate => Present
    case Aggregator2(asn, addr) => Pair(asn, addr)
    case Aggregator4(asn, addr) => Pair(asn, Straddled(asn, addr))
    case Communities(cs) => Numbers(seq(|cs|, i requires 0 <= i < |cs| => cs[i] / 0x1_0000))
    case Reach(rest) => Raw(rest)
    case Unreach(rest) => Raw(rest)
    case ExtendedCommunities(es) => Tagged(es)
    case As4Aggregator(asn, addr) => Pair(asn, Straddled(asn, addr))
    case Connector(rest) => Raw(rest)
    case PathLimit(n, asn) => Pair(n, asn)
    case LargeCommunities(ls) => Numbers(seq(|ls|, i requires 0 <= i < |ls| => ls[i].0))
    case AttributeSet(asn, rest) => Owned(asn, rest)
  }

  // ---------- reading them ----------

  lemma Be32Tail(a: bytes, b: bytes, at: nat)
    requires at + 4 <= |b|
    ensures Be32(a + b, |a| + at) == Be32(b, at) && Be16(a + b, |a| + at) == Be16(b, at)
  {}

  lemma Be32Front(a: bytes, b: bytes)
    requires |a| >= 4
    ensures Be32(a + b, 0) == Be32(a, 0) && Be16(a + b, 0) == Be16(a, 0)
  {}

  lemma {:induction false} CommunityAt(cs: seq<nat>, i: nat)
    requires AllWords(cs) && i < |cs|
    ensures Be32(PutCommunities(cs), 4 * i) == cs[i]
    decreases i
  {
    var first, rest := Put32(cs[0]), PutCommunities(cs[1..]);
    if i == 0 {
      Be32Front(first, rest);
    } else {
      CommunityAt(cs[1..], i - 1);
      Be32Tail(first, rest, 4 * (i - 1));
    }
  }

  lemma {:induction false} LargeAt(ls: seq<(nat, nat, nat)>, i: nat)
    requires AllLarge(ls) && i < |ls|
    ensures Be32(PutLarge(ls), 12 * i) == ls[i].0
    decreases i
  {
    var first, rest := Put32(ls[0].0) + Put32(ls[0].1) + Put32(ls[0].2), PutLarge(ls[1..]);
    if i == 0 {
      Be32Front(Put32(ls[0].0), Put32(ls[0].1) + Put32(ls[0].2) + rest);
      assert PutLarge(ls) == Put32(ls[0].0) + (Put32(ls[0].1) + Put32(ls[0].2) + rest);
    } else {
      LargeAt(ls[1..], i - 1);
      Be32Tail(first, rest, 12 * (i - 1));
    }
  }

  lemma {:induction false} ExtendedAt(es: seq<(nat, bytes)>, i: nat)
    requires AllExtended(es) && i < |es|
    ensures var b := PutExtended(es); Be16(b, 8 * i) == es[i].0 && b[8 * i + 2..8 * i + 8] == es[i].1
    decreases i
  {
    var first, rest := Put16(es[0].0) + es[0].1, PutExtended(es[1..]);
    if i == 0 {
      assert (first + rest)[2..8] == es[0].1;
    } else {
      ExtendedAt(es[1..], i - 1);
      var k := 8 * (i - 1);
      assert (first + rest)[8 * i + 2..8 * i + 8] == rest[k + 2..k + 8];
    }
  }

  lemma DecodeCommunities(cs: seq<nat>)
    requires AllWords(cs)
    ensures Decode(8, PutCommunities(cs)) == Some(Kept(Communities(cs)))
  {
    var p := PutCommunities(cs);
    forall i | 0 <= i < |cs| ensures Be16(p, 4 * i) == cs[i] / 0x1_0000 { CommunityAt(cs, i); }
    assert Decode(8, p).value.ns == Kept(Communities(cs)).ns;
  }

  lemma DecodeExtended(es: seq<(nat, bytes)>)
    requires AllExtended(es)
    ensures Decode(16, PutExtended(es)) == Some(Kept(ExtendedCommunities(es)))
  {
    var p := PutExtended(es);
    forall i | 0 <= i < |es| ensures (Be16(p, 8 * i), p[8 * i + 2..8 * i + 8]) == es[i] { ExtendedAt(es, i); }
    assert Decode(16, p).value.items == es;
  }

  lemma DecodeLarge(ls: seq<(nat, nat, nat)>)
    requires AllLarge(ls)
    ensures Decode(32, PutLarge(ls)) == Some(Kept(LargeCommunities(ls)))
  {
    var p := PutLarge(ls);
    forall i | 0 <= i < |ls| ensures Be32(p, 12 * i) == ls[i].0 { LargeAt(ls, i); }
    assert Decode(32, p).value.ns == Kept(LargeCommunities(ls)).ns;
  }

  lemma StraddledIs(asn: nat, addr: nat)
    requires Word(asn) && Word(addr)
    ensures var p := Put32(asn) + Put32(addr); Be32(p, 0) == asn && Be32(p, 2) == Straddled(asn, addr)
  {
    var p := Put32(asn) + Put32(addr);
    assert Be16(p, 2) == Be16(Put32(asn), 2) && Be16(p, 4) == Be16(Put32(addr), 0);
  }

  lemma DecodePair(s: Sent)
    requires Fits(s)
    requires s.Aggregator2? || s.Aggregator4? || s.As4Aggregator? || s.PathLimit? || s.AttributeSet?
    ensures Decode(Code(s), Payload(s)) == Some(Kept(s))
  {
    match s
    case Aggregator4(asn, addr) => StraddledIs(asn, addr);
    case As4Aggregator(asn, addr) => StraddledIs(asn, addr);
    case Aggregator2(asn, addr) =>
      Be32Tail(Put16(asn), Put32(addr), 0);
      assert Be16(Put16(asn) + Put32(addr), 0) == asn;
    case PathLimit(n, asn) => Be32Tail([n], Put32(asn), 0);
    case AttributeSet(asn, rest) =>
      Be32Front(Put32(asn), rest);
      assert (Put32(asn) + rest)[4..] == rest;
  }

  /** Every attribute as it is laid out is accepted, and this is what is kept of it. */
  lemma DecodeSent(s: Sent)
    requires Fits(s)
    ensures Decode(Code(s), Payload(s)) == Some(Kept(s))
  {
    match s
    case Communities(cs) => DecodeCommunities(cs);
    case ExtendedCommunities(es) => DecodeExtended(es);
    case LargeCommunities(ls) => DecodeLarge(ls);
    case Aggregator4(_, _) => DecodePair(s);
    case As4Aggregator(_, _) => DecodePair(s);
    case Aggregator2(_, _) => DecodePair(s);
    case PathLimit(_, _) => DecodePair(s);
    case AttributeSet(_, _) => DecodePair(s);
    case _ =>
  }

  lemma {:induction false} CommunitiesOf(p: bytes) returns (cs: seq<nat>)
    requires |p| % 4 == 0
    ensures AllWords(cs) && PutCommunities(cs) == p
    decreases |p|
  {
    cs := [];
    if p != [] {
      var rest := CommunitiesOf(p[4..]);
      Put32Be32(p, 0);
      cs := [Be32(p, 0)] + rest;
      assert cs[1..] == rest && p == p[0..4] + p[4..];
    }
  }

  lemma {:induction false} ExtendedOf(p: bytes) returns (es: seq<(nat, bytes)>)
    requires |p| % 8 == 0
    ensures AllExtended(es) && PutExtended(es) == p
    decreases |p|
  {
    es := [];
    if p != [] {
      var rest := ExtendedOf(p[8..]);
      Put16Be16(p, 0);
      es := [(Be16(p, 0), p[2..8])] + rest;
      assert es[1..] == rest && p == p[0..2] + p[2..8] + p[8..];
    }
  }

  lemma {:induction false} LargeOf(p: bytes) returns (ls: seq<(nat, nat, nat)>)
    requires |p| % 12 == 0
    ensures AllLarge(ls) && PutLarge(ls) == p
    decreases |p|
  {
    ls := [];
    if p != [] {
      var rest := LargeOf(p[12..]);
      Put32Be32(p, 0);
      Put32Be32(p, 4);
      Put32Be32(p, 8);
      ls := [(Be32(p, 0), Be32(p, 4), Be32(p, 8))] + rest;
      assert ls[1..] == rest && p == p[0..4] + p[4..8] + p[8..12] + p[12..];
    }
  }

  lemma WordsOf(p: bytes)
    requires |p| == 4
    ensures Put32(Be32(p, 0)) == p
  {
    Put32Be32(p, 0);
    assert p[0..4] == p;
  }

  /** And nothing else is: an accepted payload is that of some attribute with its code. */
  lemma DecodedIsSent(code: byte, p: bytes) returns (s: Sent)
    requires Decode(code, p).Some?
    ensures Fits(s) && Code(s) == code && Payload(s) == p
  {
    if code == 1 { s := Origin(p[0]); }
    else if code == 3 { WordsOf(p); s := NextHop(Be32(p, 0)); }
    else if code == 4 { WordsOf(p); s := MultiExitDisc(Be32(p, 0)); }
    else if code == 5 { WordsOf(p); s := LocalPref(Be32(p, 0)); }
    else if code == 6 { s := AtomicAggregate; }
    else if code == 7 { s := AggregatorOf(p); }
    else if code == 8 { var cs := CommunitiesOf(p); s := Communities(cs); }
    else if code == 14 { s := Reach(p); }
    else if code == 15 { s := Unreach(p); }
    else if code == 16 { var es := ExtendedOf(p); s := ExtendedCommunities(es); }
    else if code == 18 {
      CutInTwo(p, 4);
      WordsOf(p[..4]);
      WordsOf(p[4..]);
      s := As4Aggregator(Be32(p[..4], 0), Be32(p[4..], 0));
    }
    else if code == 20 { s := Connector(p); }
    else if code == 21 { CutInTwo(p, 1); WordsOf(p[1..]); s := PathLimit(p[0], Be32(p[1..], 0)); }
    else if code == 32 { var ls := LargeOf(p); s := LargeCommunities(ls); }
    else { CutInTwo(p, 4); WordsOf(p[..4]); s := AttributeSet(Be32(p[..4], 0), p[4..]); }
  }

  lemma CutInTwo(p: bytes, n: nat)
    requires n <= |p|
    ensures p == p[..n] + p[n..]
  {}

  lemma AggregatorOf(p: bytes) returns (s: Sent)
    requires |p| == 8 || |p| == 6
    ensures Fits(s) && Code(s) == 7 && Payload(s) == p
  {
    if |p| == 8 {
      CutInTwo(p, 4);
      WordsOf(p[..4]);
      WordsOf(p[4..]);
      s := Aggregator4(Be32(p[..4], 0), Be32(p[4..], 0));
    } else {
      CutInTwo(p, 2);
      Put16Be16(p[..2], 0);
      WordsOf(p[2..]);
      s := Aggregator2(Be16(p[..2], 0), Be32(p[2..], 0));
      assert p[..2][0..2] == p[..2];
    }
  }

  /** A four-byte aggregator is kept right exactly when its address repeats the lower half of its AS. */
  lemma AggregatorIsKept(asn: nat, addr: nat)
    requires Word(asn) && Word(addr)
    ensures Kept(Aggregator4(asn, addr)) == Pair(asn, addr) <==> addr == asn % 0x1_0000 * 0x1_0001
  {}

  /** Community lists are kept apart exactly when some upper half differs. */
  lemma CommunitiesCollide(cs: seq<nat>, ds: seq<nat>)
    ensures Kept(Communities(cs)) == Kept(Communities(ds)) <==>
      |cs| == |ds| && forall i :: 0 <= i < |cs| ==> cs[i] / 0x1_0000 == ds[i] / 0x1_0000
  {
    var x, y := Kept(Communities(cs)).ns, Kept(Communities(ds)).ns;
    if |cs| == |ds| && forall i :: 0 <= i < |cs| ==> cs[i] / 0x1_0000 == ds[i] / 0x1_0000 {
      assert x == y;
    }
    if x == y {
      forall i | 0 <= i < |cs| ensures cs[i] / 0x1_0000 == ds[i] / 0x1_0000 { assert x[i] == y[i]; }
    }
  }

  // ---------- the dictionary ----------

  function Lookup(d: Attributes, code: byte): Option<Value> {
    if d == [] then None else if d[0].0 == code then Some(d[0].1) else Lookup(d[1..], code)
  }

  lemma {:induction false} SetLooksUp(d: Attributes, code: byte, x: Value, other: byte)
    ensures Lookup(Set(d, code, x), other) == if other == code then Some(x) else Lookup(d, other)
    decreases |d|
  {
    if d != [] && d[0].0 != code { SetLooksUp(d[1..], code, x, other); }
  }

  function Keys(d: Attributes): seq<byte> {
    seq(|d|, i requires 0 <= i < |d| => d[i].0)
  }

  /** Setting a key that is there keeps its place, and a new one goes last. */
  lemma {:induction false} SetKeepsOrder(d: Attributes, code: byte, x: Value)
    ensures Keys(Set(d, code, x)) == if code in Keys(d) then Keys(d) else Keys(d) + [code]
    decreases |d|
  {
    if d != [] {
      assert Keys(d) == [d[0].0] + Keys(d[1..]);
      if d[0].0 != code {
        SetKeepsOrder(d[1..], code, x);
        assert Keys(Set(d, code, x)) == [d[0].0] + Keys(Set(d[1..], code, x));
      } else {
        assert Keys(d)[0] == code;
        assert Keys(Set(d, code, x)) == Keys(d);
      }
    }
  }

  /** What one attribute leaves in the dictionary. */
  function Stored(v: Variant, a: RawAttribute): Option<Value> {
    if a.code == 2 || a.code == 17 then
      var segments := P.ParsePath(v, a.payload);
      if segments == [] then None else Some(AsPath(segments))
    else Decode(a.code, a.payload)
  }

  function LastStored(v: Variant, attributes: seq<RawAttribute>, code: byte, before: Option<Value>): Option<Value>
    decreases |attributes|
  {
    if attributes == [] then before
    else
      var a := attributes[0];
      LastStored(v, attributes[1..], code, if a.code == code && Stored(v, a).Some? then Stored(v, a) else before)
  }

  /** Under each code the dictionary holds what the last attribute with that code that left anything left. */
  lemma {:induction false} DictionaryHolds(v: Variant, d: Attributes, attributes: seq<RawAttribute>, code: byte)
    requires ParseAttributes(v, d, attributes).Ok?
    ensures Lookup(ParseAttributes(v, d, attributes).value, code) == LastStored(v, attributes, code, Lookup(d, code))
    decreases |attributes|
  {
    if attributes != [] {
      var a := attributes[0];
      var d1 := ParseAttribute(v, d, a).value;
      DictionaryHolds(v, d1, attributes[1..], code);
      if Stored(v, a).Some? { SetLooksUp(d, a.code, Stored(v, a).value, code); }
    }
  }

  /** A section is accepted exactly if every attribute is a path, readable or not, or one as laid out above. */
  lemma {:induction false} AcceptedWhen(v: Variant, d: Attributes, attributes: seq<RawAttribute>)
    ensures ParseAttributes(v, d, attributes).Ok? <==>
      forall i :: 0 <= i < |attributes| ==>
        attributes[i].code in {2, 17} || Decode(attributes[i].code, attributes[i].payload).Some?
    ensures ParseAttributes(v, d, attributes).Err? ==> ParseAttributes(v, d, attributes) == Err(SystemExit)
    decreases |attributes|
  {
    if attributes != [] {
      var a := attributes[0];
      assert forall i :: 0 < i < |attributes| ==> attributes[i] == attributes[1..][i - 1];
      if a.code in {2, 17} || Decode(a.code, a.payload).Some? {
        AcceptedWhen(v, ParseAttribute(v, d, a).value, attributes[1..]);
        assert forall i :: 0 <= i < |attributes[1..]| ==> attributes[1..][i] == attributes[i + 1];
      }
    }
  }

  /** Both path attributes are kept as segments; as written as the shifted ones. */
  lemma PathIsStored(flags: byte, code: byte, segments: seq<P.Segment>)
    requires code == 2 || code == 17
    requires P.AllWellFormed(true, segments) && P.EndsNonEmpty(segments)
    ensures var a := RawAttribute(flags, code, P.EncodePath(true, segments));
      && Stored(Intended, a) == Some(AsPath(segments))
      && Stored(AsWritten, a) == Some(AsPath(P.AllShifted(true, segments)))
  {
    P.Path4IsRead(segments);
    P.DecodeShifted(true, segments);
  }

  lemma SentIsStored(v: Variant, a: RawAttribute, s: Sent)
    requires Fits(s) && a.code == Code(s) && a.payload == Payload(s)
    ensures Stored(v, a) == Some(Kept(s))
  {
    DecodeSent(s);
  }

  lemma {:induction false} NotCarried(v: Variant, attributes: seq<RawAttribute>, code: byte, before: Option<Value>)
    requires forall i :: 0 <= i < |attributes| ==> attributes[i].code != code
    ensures LastStored(v, attributes, code, before) == before
    decreases |attributes|
  {
    if attributes != [] {
      assert attributes[0].code != code;
      NotCarried(v, attributes[1..], code, before);
    }
  }

  lemma {:induction false} OneCarries(v: Variant, attributes: seq<RawAttribute>, i: nat, before: Option<Value>)
    requires i < |attributes| && Stored(v, attributes[i]).Some?
    requires forall j :: i < j < |attributes| ==> attributes[j].code != attributes[i].code
    ensures LastStored(v, attributes, attributes[i].code, before) == Stored(v, attributes[i])
    decreases i
  {
    var a := attributes[0];
    if i == 0 {
      NotCarried(v, attributes[1..], a.code, Stored(v, a));
    } else {
      var next := if a.code == attributes[i].code && Stored(v, a).Some? then Stored(v, a) else before;
      OneCarries(v, attributes[1..], i - 1, next);
    }
  }

  /** From an encoded UPDATE: the last attribute with its code is found under that code. */
  lemma UpdateHolds(v: Variant, u: Routes, i: nat)
    requires Sendable(u) && ParseBody(v, EncodeBody(u)).Ok?
    requires i < |u.attributes| && Stored(v, u.attributes[i]).Some?
    requires forall j :: i < j < |u.attributes| ==> u.attributes[j].code != u.attributes[i].code
    ensures Lookup(ParseBody(v, EncodeBody(u)).value.attributes, u.attributes[i].code) == Stored(v, u.attributes[i])
  {
    BodyRoundTrip(v, u);
    DictionaryHolds(v, [], u.attributes, u.attributes[i].code);
    OneCarries(v, u.attributes, i, None);
  }

  /** So an AS path in an UPDATE is found as it was sent, or shifted as written, unless another follows. */
  lemma UpdateHoldsPath(v: Variant, u: Routes, i: nat, segments: seq<P.Segment>)
    requires Sendable(u) && ParseBody(v, EncodeBody(u)).Ok?
    requires P.AllWellFormed(true, segments) && P.EndsNonEmpty(segments)
    requires i < |u.attributes| && u.attributes[i].code == 2 && u.attributes[i].payload == P.EncodePath(true, segments)
    requires forall j :: i < j < |u.attributes| ==> u.attributes[j].code != 2
    ensures Lookup(ParseBody(v, EncodeBody(u)).value.attributes, 2) ==
      Some(AsPath(if v.Intended? then segments else P.AllShifted(true, segments)))
  {
    PathIsStored(u.attributes[i].flags, 2, segments);
    UpdateHolds(v, u, i);
  }

  /** And any other attribute as what is kept of it. */
  lemma UpdateHoldsSent(v: Variant, u: Routes, i: nat, s: Sent)
    requires Sendable(u) && ParseBody(v, EncodeBody(u)).Ok? && Fits(s)
    requires i < |u.attributes| && u.attributes[i].code == Code(s) && u.attributes[i].payload == Payload(s)
    requires forall j :: i < j < |u.attributes| ==> u.attributes[j].code != Code(s)
    ensures Lookup(ParseBody(v, EncodeBody(u)).value.attributes, Code(s)) == Some(Kept(s))
  {
    SentIsStored(v, u.attributes[i], s);
    UpdateHolds(v, u, i);
  }

  /** The except flag says that routes are announced without ORIGIN (1), AS_PATH (2) or NEXT_HOP (3). */
  lemma ExceptFlagMeans(v: Variant, u: Routes)
    requires Sendable(u) && ParseBody(v, EncodeBody(u)).Ok?
    ensures ParseBody(v, EncodeBody(u)).value.exceptFlag <==>
      u.prefixes != [] && !(Carries(v, u.attributes, 1) && Carries(v, u.attributes, 2) && Carries(v, u.attributes, 3))
  {
    BodyRoundTrip(v, u);
    DictionaryHas(v, [], u.attributes, 1);
    DictionaryHas(v, [], u.attributes, 2);
    DictionaryHas(v, [], u.attributes, 3);
  }
}
