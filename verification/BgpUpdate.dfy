/**
 * The BGP UPDATE message (sections 4.1 and 4.3 of RFC 4271) as bgpparse.py takes it apart: three
 * length-delimited sections, a walk over the attributes, and a value for each attribute.
 */
module BgpUpdate {
  import opened Types
  import opened Bytes
  import opened PrefixCodec
  import P = AsPath

  // ---------- the attribute walk ----------

  datatype RawAttribute = RawAttribute(flags: byte, code: byte, payload: bytes)

  const EXTENDED_LENGTH := 0x10

  predicate Extended(flags: byte) {
    flags / EXTENDED_LENGTH % 2 == 1
  }

  /** Bytes in front of the payload. */
  function Quantum(flags: byte): nat {
    if Extended(flags) then 4 else 3
  }

  /** The length the header at the front gives for its payload. */
  function PayloadLength(b: bytes): nat
    requires b != [] && |b| >= Quantum(b[0])
  {
    if Extended(b[0]) then Be16(b, 2) else b[2]
  }

  /** Where the attribute ends; the slice of a payload that is cut short ends with the section. */
  function AttributeEnd(b: bytes): nat
    requires b != [] && |b| >= Quantum(b[0])
  {
    var end := Quantum(b[0]) + PayloadLength(b);
    if end <= |b| then end else |b|
  }

  function First(b: bytes): RawAttribute
    requires b != [] && |b| >= Quantum(b[0])
  {
    RawAttribute(b[0], b[1], b[Quantum(b[0])..AttributeEnd(b)])
  }

  /** The attributes of a section in order; a header that is cut short raises struct.error. */
  function Walk(b: bytes): Result<seq<RawAttribute>>
    decreases |b|
  {
    if b == [] then Ok([])
    else if |b| < Quantum(b[0]) then Err(StructError)
    else Onto([First(b)], Walk(b[AttributeEnd(b)..]))
  }

  /** The flag that gives an attribute a length of two bytes: the fourth bit of the first byte. */
  predicate LongForm(flags: byte) {
    (flags / 16) % 2 == 1
  }

  predicate Encodable(a: RawAttribute) {
    |a.payload| < if LongForm(a.flags) then 0x1_0000 else 0x100
  }

  predicate AllEncodable(attributes: seq<RawAttribute>) {
    forall i :: 0 <= i < |attributes| ==> Encodable(attributes[i])
  }

  function EncodeAttribute(a: RawAttribute): (b: bytes)
    requires Encodable(a)
    ensures |b| == (if LongForm(a.flags) then 4 else 3) + |a.payload|
  {
    [a.flags, a.code] + (if LongForm(a.flags) then Put16(|a.payload|) else [|a.payload|]) + a.payload
  }

  function EncodeAttributes(attributes: seq<RawAttribute>): bytes
    requires AllEncodable(attributes)
  {
    if attributes == [] then [] else EncodeAttribute(attributes[0]) + EncodeAttributes(attributes[1..])
  }

  lemma FirstOfEncoded(a: RawAttribute, later: bytes)
    requires Encodable(a)
    ensures var b := EncodeAttribute(a) + later;
      && |b| >= Quantum(b[0]) && AttributeEnd(b) == |EncodeAttribute(a)| == Quantum(b[0]) + PayloadLength(b)
      && First(b) == a && b[AttributeEnd(b)..] == later
  {
    var b := EncodeAttribute(a) + later;
    assert b[0] == a.flags;
    assert PayloadLength(b) == |a.payload|;
    assert b[Quantum(b[0])..AttributeEnd(b)] == a.payload;
  }

  /** The walk visits each encoded attribute once, in order, whichever length form it uses. */
  lemma {:induction false} WalkEncoded(attributes: seq<RawAttribute>)
    requires AllEncodable(attributes)
    ensures Walk(EncodeAttributes(attributes)) == Ok(attributes)
    decreases |attributes|
  {
    if attributes != [] {
      FirstOfEncoded(attributes[0], EncodeAttributes(attributes[1..]));
      WalkEncoded(attributes[1..]);
      assert attributes == [attributes[0]] + attributes[1..];
    }
  }

  lemma {:induction false} WalkBehind(attributes: seq<RawAttribute>, later: bytes)
    requires AllEncodable(attributes)
    ensures Walk(EncodeAttributes(attributes) + later) == Onto(attributes, Walk(later))
    decreases |attributes|
  {
    if attributes == [] {
      EmptyIsNeutral(later);
      if Walk(later).Ok? { EmptyIsNeutral(Walk(later).value); }
    } else {
      var behind := EncodeAttributes(attributes[1..]) + later;
      Associate(EncodeAttribute(attributes[0]), EncodeAttributes(attributes[1..]), later);
      FirstOfEncoded(attributes[0], behind);
      WalkBehind(attributes[1..], later);
      if Walk(later).Ok? {
        Associate([attributes[0]], attributes[1..], Walk(later).value);
        assert attributes == [attributes[0]] + attributes[1..];
      }
    }
  }

  /** A last payload that is cut short is accepted as far as it goes. */
  lemma WalkTruncated(attributes: seq<RawAttribute>, a: RawAttribute, k: nat)
    requires AllEncodable(attributes) && Encodable(a) && k <= |a.payload|
    ensures var header := if LongForm(a.flags) then 4 else 3;
      Walk(EncodeAttributes(attributes) + EncodeAttribute(a)[..header + k])
        == Ok(attributes + [a.(payload := a.payload[..k])])
  {
    var header := if LongForm(a.flags) then 4 else 3;
    var b := EncodeAttribute(a)[..header + k];
    WalkBehind(attributes, b);
    TruncatedFirst(a, k);
    assert b[AttributeEnd(b)..] == [];
    assert Walk([]) == Ok([]);
    EmptyIsNeutral([First(b)]);
  }

  lemma TruncatedFirst(a: RawAttribute, k: nat)
    requires Encodable(a) && k <= |a.payload|
    ensures var header := if LongForm(a.flags) then 4 else 3;
      var b := EncodeAttribute(a)[..header + k];
      && |b| >= Quantum(b[0]) && AttributeEnd(b) == |b| && First(b) == a.(payload := a.payload[..k])
  {
    var header := if LongForm(a.flags) then 4 else 3;
    var all := EncodeAttribute(a);
    var b := all[..header + k];
    FirstOfEncoded(a, []);
    EmptyIsNeutral(all);
    assert |b| >= Quantum(b[0]) && PayloadLength(b) == PayloadLength(all) == |a.payload|;
    assert all[header..] == a.payload;
    assert b[header..] == a.payload[..k] && b[1] == a.code;
  }

  /** A last header that is cut short is not. */
  lemma WalkShortHeader(attributes: seq<RawAttribute>, part: bytes)
    requires AllEncodable(attributes) && part != [] && |part| < if LongForm(part[0]) then 4 else 3
    ensures Walk(EncodeAttributes(attributes) + part) == Err(StructError)
  {
    WalkBehind(attributes, part);
  }

  /** Whether the last payload is shorter than its header says. */
  predicate Truncated(b: bytes)
    decreases |b|
  {
    b != [] && |b| >= Quantum(b[0]) &&
      (Quantum(b[0]) + PayloadLength(b) > |b| || Truncated(b[AttributeEnd(b)..]))
  }

  lemma EncodeFirst(b: bytes)
    requires b != [] && |b| >= Quantum(b[0])
    ensures Encodable(First(b))
    ensures EncodeAttribute(First(b)) == b[..AttributeEnd(b)] <==> Quantum(b[0]) + PayloadLength(b) <= |b|
  {
    var a, q, end := First(b), Quantum(b[0]), AttributeEnd(b);
    var encoded := EncodeAttribute(a);
    assert encoded[q..] == b[q..end];
    if Extended(b[0]) { Put16Be16(b, 2); assert encoded[2..4] == Put16(|a.payload|); }
    if q + PayloadLength(b) <= |b| {
      assert encoded[..q] == b[..q];
      assert b[..end] == b[..q] + b[q..end];
      assert encoded == encoded[..q] + encoded[q..];
    }
  }

  lemma EncodeCons(a: RawAttribute, rest: seq<RawAttribute>)
    requires Encodable(a) && AllEncodable(rest)
    ensures AllEncodable([a] + rest)
    ensures EncodeAttributes([a] + rest) == EncodeAttribute(a) + EncodeAttributes(rest)
  {
    assert ([a] + rest)[1..] == rest;
  }

  lemma CutAt(b: bytes, n: nat)
    requires n <= |b|
    ensures b == b[..n] + b[n..]
  {}

  /** An accepted section is the encoding of its attributes, so ends where they end, unless it is truncated. */
  lemma {:induction false} EncodeWalked(b: bytes)
    requires Walk(b).Ok?
    ensures AllEncodable(Walk(b).value)
    ensures EncodeAttributes(Walk(b).value) == b <==> !Truncated(b)
    ensures |EncodeAttributes(Walk(b).value)| == |b|
    decreases |b|
  {
    if b != [] {
      var a, later := First(b), b[AttributeEnd(b)..];
      EncodeWalked(later);
      EncodeFirst(b);
      var rest := Walk(later).value;
      EncodeCons(a, rest);
      CutAt(b, AttributeEnd(b));
      SplitEqual(EncodeAttribute(a), EncodeAttributes(rest), b[..AttributeEnd(b)], later);
    }
  }

  // ---------- attribute values ----------

  /** What parse_attribute stores for an attribute. */
  datatype Value =
    | Number(n: nat)
    | Pair(a: nat, b: nat)
    | Numbers(ns: seq<nat>)
    | Tagged(items: seq<(nat, bytes)>)
    | Owned(asn: nat, rest: bytes)
    | Raw(payload: bytes)
    | Present
    | AsPath(segments: seq<P.Segment>)

  /** A dictionary with its insertion order, which is part of what gets pickled and hashed. */
  type Attributes = seq<(byte, Value)>

  predicate Has(d: Attributes, code: byte) {
    exists i :: 0 <= i < |d| && d[i].0 == code
  }

  /** Setting a key that is there keeps its place. */
  function Set(d: Attributes, code: byte, x: Value): Attributes {
    if d == [] then [(code, x)]
    else if d[0].0 == code then [(code, x)] + d[1..]
    else [d[0]] + Set(d[1..], code, x)
  }

  /** The value of a payload of a type other than AS path; None is a failed assertion. */
  function Decode(code: byte, p: bytes): Option<Value> {
    if code == 1 && |p| == 1 then Some(Number(p[0]))
    else if code in {3, 4, 5} && |p| == 4 then Some(Number(Be32(p, 0)))
    else if code == 6 && |p| == 0 then Some(Present)
    else if code in {7, 18} && |p| == 8 then Some(Pair(Be32(p, 0), Be32(p, 2)))
    else if code == 7 && |p| == 6 then Some(Pair(Be16(p, 0), Be32(p, 2)))
    else if code == 8 && |p| % 4 == 0 then
      Some(Numbers(seq(|p| / 4, i requires 0 <= i < |p| / 4 => Be16(p, 4 * i))))
    else if code in {14, 15} then Some(Raw(p))
    else if code == 16 && |p| % 8 == 0 then
      Some(Tagged(seq(|p| / 8, i requires 0 <= i < |p| / 8 => (Be16(p, 8 * i), p[8 * i + 2..8 * i + 8]))))
    else if code == 20 && |p| > 4 then Some(Raw(p))
    else if code == 21 && |p| == 5 then Some(Pair(p[0], Be32(p, 1)))
    else if code == 32 && |p| % 12 == 0 then
      Some(Numbers(seq(|p| / 12, i requires 0 <= i < |p| / 12 => Be32(p, 12 * i))))
    else if code == 128 && |p| > 4 then Some(Owned(Be32(p, 0), p[4..]))
    else None
  }

  /** parse_attribute: a failed assertion is reported and ends the process; an unreadable path is left out. */
  function ParseAttribute(v: Variant, d: Attributes, a: RawAttribute): Result<Attributes> {
    if a.code in {2, 17} then
      var segments := P.ParsePath(v, a.payload);
      Ok(if segments == [] then d else Set(d, a.code, AsPath(segments)))
    else
      match Decode(a.code, a.payload)
      case None => Err(SystemExit)
      case Some(x) => Ok(Set(d, a.code, x))
  }

  function ParseAttributes(v: Variant, d: Attributes, attributes: seq<RawAttribute>): Result<Attributes>
    decreases |attributes|
  {
    if attributes == [] then Ok(d)
    else
      match ParseAttribute(v, d, attributes[0])
      case Err(e) => Err(e)
      case Ok(d1) => ParseAttributes(v, d1, attributes[1..])
  }

  /** An attribute leaves something in the dictionary unless it is a path that cannot be read. */
  predicate Leaves(v: Variant, a: RawAttribute) {
    a.code in {2, 17} ==> P.ParsePath(v, a.payload) != []
  }

  lemma HasFirst(d: Attributes, code: byte)
    requires d != []
    ensures Has(d, code) <==> d[0].0 == code || Has(d[1..], code)
  {
    assert forall i :: 0 < i < |d| ==> d[i] == d[1..][i - 1];
    assert forall i :: 0 <= i < |d[1..]| ==> d[1..][i] == d[i + 1];
  }

  lemma {:induction false} SetHas(d: Attributes, code: byte, x: Value, other: byte)
    ensures Has(Set(d, code, x), other) <==> other == code || Has(d, other)
    decreases |d|
  {
    var e := Set(d, code, x);
    HasFirst(e, other);
    if d == [] {
      assert e[1..] == [];
    } else {
      HasFirst(d, other);
      if d[0].0 == code {
        assert e[1..] == d[1..];
      } else {
        SetHas(d[1..], code, x, other);
        assert e[1..] == Set(d[1..], code, x);
      }
    }
  }

  predicate Carries(v: Variant, attributes: seq<RawAttribute>, code: byte) {
    exists i :: 0 <= i < |attributes| && attributes[i].code == code && Leaves(v, attributes[i])
  }

  lemma CarriesFirst(v: Variant, attributes: seq<RawAttribute>, code: byte)
    requires attributes != []
    ensures Carries(v, attributes, code) <==>
      (attributes[0].code == code && Leaves(v, attributes[0])) || Carries(v, attributes[1..], code)
  {
    assert forall i :: 0 < i < |attributes| ==> attributes[i] == attributes[1..][i - 1];
    assert forall i :: 0 <= i < |attributes[1..]| ==> attributes[1..][i] == attributes[i + 1];
  }

  /** A code is in the dictionary at the end exactly when one of the attributes with that code left something. */
  lemma {:induction false} DictionaryHas(v: Variant, d: Attributes, attributes: seq<RawAttribute>, code: byte)
    requires ParseAttributes(v, d, attributes).Ok?
    ensures Has(ParseAttributes(v, d, attributes).value, code) <==> Has(d, code) || Carries(v, attributes, code)
    decreases |attributes|
  {
    if attributes != [] {
      var a := attributes[0];
      var d1 := ParseAttribute(v, d, a).value;
      CarriesFirst(v, attributes, code);
      DictionaryHas(v, d1, attributes[1..], code);
      if Leaves(v, a) {
        var x :| d1 == Set(d, a.code, x);
        SetHas(d, a.code, x, code);
      }
    }
  }

  /** The loop of process_path_attributes, which parses each attribute as it reaches it. */
  function ProcessAttributes(v: Variant, d: Attributes, b: bytes): Result<Attributes>
    decreases |b|
  {
    if b == [] then Ok(d)
    else if |b| < Quantum(b[0]) then Err(StructError)
    else
      match ParseAttribute(v, d, First(b))
      case Err(e) => Err(e)
      case Ok(d1) => ProcessAttributes(v, d1, b[AttributeEnd(b)..])
  }

  /** Parsing while walking is walking and then parsing, when the walk succeeds. */
  lemma {:induction false} ProcessIsWalk(v: Variant, d: Attributes, b: bytes)
    requires Walk(b).Ok?
    ensures ProcessAttributes(v, d, b) == ParseAttributes(v, d, Walk(b).value)
    decreases |b|
  {
    if b != [] {
      var later := b[AttributeEnd(b)..];
      assert Walk(b).value == [First(b)] + Walk(later).value;
      match ParseAttribute(v, d, First(b)) {
        case Err(_) =>
        case Ok(d1) => ProcessIsWalk(v, d1, later);
      }
    }
  }

  lemma {:induction false} ProcessedIsWalkable(v: Variant, d: Attributes, b: bytes)
    requires ProcessAttributes(v, d, b).Ok?
    ensures Walk(b).Ok?
    decreases |b|
  {
    if b != [] { ProcessedIsWalkable(v, ParseAttribute(v, d, First(b)).value, b[AttributeEnd(b)..]); }
  }

  // ---------- the message ----------

  datatype Update = Update(withdrawn: seq<Prefix>, prefixes: seq<Prefix>, attributes: Attributes, exceptFlag: bool)

  /**
   * The three sections behind the header, as the two length fields cut them. The withdrawn routes are decoded
   * between the two assertions; they can only fail with the same exception, so the order does not show.
   */
  function Sections(body: bytes): Result<(bytes, bytes, bytes)> {
    if |body| < 2 then Err(StructError)
    else
      var w := Be16(body, 0);
      if |body| <= w + 3 then Err(AssertionError)
      else
        var a := Be16(body, w + 2);
        if |body| <= w + 3 + a then Err(AssertionError)
        else Ok((body[2..2 + w], body[w + 4..w + 4 + a], body[w + 4 + a..]))
  }

  function EncodeSections(withdrawn: bytes, attributes: bytes, nlri: bytes): bytes
    requires |withdrawn| < 0x1_0000 && |attributes| < 0x1_0000
  {
    Put16(|withdrawn|) + withdrawn + Put16(|attributes|) + attributes + nlri
  }

  lemma SectionsOfTiles(w: bytes, a: bytes, n: bytes)
    requires |w| < 0x1_0000 && |a| < 0x1_0000
    ensures Sections(EncodeSections(w, a, n)) == Ok((w, a, n))
  {
    var body, rest := EncodeSections(w, a, n), Put16(|a|) + a + n;
    assert body == Put16(|w|) + w + rest;
    assert Be16(body, 0) == |w| && body[2..2 + |w|] == w;
    assert body[|w| + 2..] == rest && Be16(body, |w| + 2) == Be16(rest, 0) == |a|;
    assert body[|w| + 4..|w| + 4 + |a|] == rest[2..2 + |a|] == a;
    assert body[|w| + 4 + |a|..] == rest[2 + |a|..] == n;
  }

  /** The sections and the two length fields tile the body, and every such tiling is accepted. */
  lemma SectionsTile(body: bytes, w: bytes, a: bytes, n: bytes)
    ensures Sections(body) == Ok((w, a, n)) <==>
      |w| < 0x1_0000 && |a| < 0x1_0000 && body == EncodeSections(w, a, n)
  {
    if Sections(body) == Ok((w, a, n)) {
      Put16Be16(body, 0);
      Put16Be16(body, |w| + 2);
      TileCuts(body, |w|, |a|);
    }
    if |w| < 0x1_0000 && |a| < 0x1_0000 { SectionsOfTiles(w, a, n); }
  }

  lemma TileCuts(b: bytes, w: nat, a: nat)
    requires w + 4 + a <= |b|
    ensures b == b[0..2] + b[2..2 + w] + b[w + 2..w + 4] + b[w + 4..w + 4 + a] + b[w + 4 + a..]
  {}

  predicate Mandatory(d: Attributes) {
    Has(d, 1) && Has(d, 2) && Has(d, 3)
  }

  function ParseSections(v: Variant, w: bytes, a: bytes, n: bytes): Result<Update> {
    match DecodePrefixes(w)
    case Err(e) => Err(e)
    case Ok(withdrawn) =>
      match DecodePrefixes(n)
      case Err(e) => Err(e)
      case Ok(prefixes) =>
        match ProcessAttributes(v, [], a)
        case Err(e) => Err(e)
        case Ok(d) => Ok(Update(withdrawn, prefixes, d, prefixes != [] && !Mandatory(d)))
  }

  /** Which exception a body leaves with: struct.error without a first length, and else a failed assertion. */
  lemma SectionsFault(body: bytes)
    ensures Sections(body) == Err(StructError) <==> |body| < 2
    ensures Sections(body) == Err(AssertionError) <==>
      |body| >= 2 && (|body| < Be16(body, 0) + 4 || |body| < Be16(body, 0) + 4 + Be16(body, Be16(body, 0) + 2))
  {}

  /** Routes that cannot be read, in either section, fail an assertion before any attribute is looked at. */
  lemma RoutesFault(v: Variant, w: bytes, a: bytes, n: bytes)
    requires |w| < 0x1_0000 && |a| < 0x1_0000
    requires DecodePrefixes(w) == Err(AssertionError) || DecodePrefixes(n) == Err(AssertionError)
    ensures ParseBody(v, EncodeSections(w, a, n)) == Err(AssertionError)
  {
    SectionsTile(EncodeSections(w, a, n), w, a, n);
    DecodeFault(w);
    DecodeFault(n);
  }

  lemma {:induction false} DecodeFault(b: bytes)
    ensures DecodePrefixes(b).Ok? || DecodePrefixes(b) == Err(AssertionError)
    decreases |b|
  {
    if b != [] && |b| > ByteLength(b[0]) { DecodeFault(b[1 + ByteLength(b[0])..]); }
  }

  /** parse_bgp_update: withdrawn routes, then announced ones, then the attributes. */
  function ParseBody(v: Variant, body: bytes): Result<Update> {
    match Sections(body)
    case Err(e) => Err(e)
    case Ok((w, a, n)) => ParseSections(v, w, a, n)
  }

  /** The contents of an UPDATE before encoding. */
  datatype Routes = Routes(withdrawn: seq<Prefix>, attributes: seq<RawAttribute>, prefixes: seq<Prefix>)

  predicate AllCanonical(ps: seq<Prefix>) {
    forall i :: 0 <= i < |ps| ==> Canonical(ps[i])
  }

  predicate Sendable(u: Routes) {
    && AllCanonical(u.withdrawn) && AllCanonical(u.prefixes) && AllEncodable(u.attributes)
    && |EncodePrefixes(u.withdrawn)| < 0x1_0000 && |EncodeAttributes(u.attributes)| < 0x1_0000
  }

  function EncodeBody(u: Routes): bytes
    requires Sendable(u)
  {
    EncodeSections(EncodePrefixes(u.withdrawn), EncodeAttributes(u.attributes), EncodePrefixes(u.prefixes))
  }

  /** Parsing an encoded UPDATE gives back its withdrawn routes, its announced routes and its attributes. */
  lemma BodyRoundTrip(v: Variant, u: Routes)
    requires Sendable(u)
    ensures ParseBody(v, EncodeBody(u)) ==
      match ParseAttributes(v, [], u.attributes)
      case Err(e) => Err(e)
      case Ok(d) => Ok(Update(u.withdrawn, u.prefixes, d, u.prefixes != [] && !Mandatory(d)))
  {
    SectionsTile(EncodeBody(u), EncodePrefixes(u.withdrawn), EncodeAttributes(u.attributes),
                 EncodePrefixes(u.prefixes));
    DecodeEncode(u.withdrawn);
    DecodeEncode(u.prefixes);
    WalkEncoded(u.attributes);
    ProcessIsWalk(v, [], EncodeAttributes(u.attributes));
  }

  /** An accepted body is the encoding of what was read from it, unless its attributes are truncated. */
  lemma BodyIsEncoding(v: Variant, body: bytes)
    requires ParseBody(v, body).Ok?
    ensures var sections, u := Sections(body).value, ParseBody(v, body).value;
      Walk(sections.1).Ok? &&
      var routes := Routes(u.withdrawn, Walk(sections.1).value, u.prefixes);
      Sendable(routes) && (EncodeBody(routes) == body <==> !Truncated(sections.1))
  {
    var (w, a, n) := Sections(body).value;
    SectionsTile(body, w, a, n);
    EncodeDecode(w);
    EncodeDecode(n);
    ProcessedIsWalkable(v, [], a);
    EncodeWalked(a);
    var encoded := EncodeAttributes(Walk(a).value);
    var u := ParseBody(v, body).value;
    if EncodeBody(Routes(u.withdrawn, Walk(a).value, u.prefixes)) == body {
      SectionsTile(body, w, encoded, n);
    }
  }

  // ---------- the BGP header ----------

  const MARKER: bytes := [
    0xff, 0xff, 0xff, 0xff, 0xff, 0xff, 0xff, 0xff, 0xff, 0xff, 0xff, 0xff, 0xff, 0xff, 0xff, 0xff]
  const HEADER_LENGTH := 19
  const UPDATE := 2

  const OPEN := 1

  /** The body of an OPEN message (section 4.2 of RFC 4271), with its capabilities as a dictionary. */
  datatype Open = Open(version: nat, asn: nat, holdTime: nat, bgpId: nat, parameters: map<byte, bytes>)

  /** What BGP_message holds; only an UPDATE has routes. The type numbers are 1 to 4. */
  datatype Bgp = UpdateMessage(update: Update) | OpenMessage(body: Open) | OtherMessage(kind: byte)

  /** The constructor of BGP_message. Bytes behind the given length are ignored. */
  function ParseBgp(v: Variant, msg: bytes): Result<Bgp> {
    if |msg| <= 18 || msg[..16] != MARKER then Err(AssertionError)
    else
      var length := Be16(msg, 16);
      if length <= 18 || length > |msg| || msg[18] == 0 || msg[18] >= 5 then Err(AssertionError)
      else if msg[18] == UPDATE then
        match ParseBody(v, msg[HEADER_LENGTH..length])
        case Err(e) => Err(e)
        case Ok(u) => Ok(UpdateMessage(u))
      else if msg[18] == OPEN then
        match ParseOpen(msg[HEADER_LENGTH..length])
        case Err(e) => Err(e)
        case Ok(body) => Ok(OpenMessage(body))
      else Ok(OtherMessage(msg[18]))
  }

  /** Ten bytes of fixed fields, the last of which is the length of the optional parameters. */
  function ParseOpen(body: bytes): Result<Open> {
    if |body| < 10 then Err(StructError)
    else
      match Parameters(body[10..if 10 + body[9] <= |body| then 10 + body[9] else |body|], map[])
      case Err(e) => Err(e)
      case Ok(parameters) => Ok(Open(body[0], Be16(body, 1), Be16(body, 3), Be32(body, 5), parameters))
  }

  /** tlv_parse: each parameter has type 2 and holds exactly one capability; one or two bytes at the end are ignored. */
  function Parameters(msg: bytes, d: map<byte, bytes>): Result<map<byte, bytes>>
    decreases |msg|
  {
    if |msg| <= 2 then Ok(d)
    else
      var length: nat := msg[1];
      if msg[0] != 2 || |msg| < length + 2 then Err(AssertionError)
      else if length < 2 then Err(StructError)
      else if length - 2 != msg[3] then Err(AssertionError)
      else Parameters(msg[length + 2..], d[msg[2] := msg[4..length + 2]])
  }

  datatype Capability = Capability(code: byte, value: bytes)

  predicate AllShort(cs: seq<Capability>) {
    forall i :: 0 <= i < |cs| ==> |cs[i].value| < 0xfe
  }

  function EncodeCapabilities(cs: seq<Capability>): bytes
    requires AllShort(cs)
  {
    if cs == [] then []
    else
      [2, |cs[0].value| + 2, cs[0].code, |cs[0].value|] + cs[0].value + EncodeCapabilities(cs[1..])
  }

  /** What the dictionary holds after filing the capabilities: the last value of each code. */
  function Announced(d: map<byte, bytes>, cs: seq<Capability>): map<byte, bytes>
    decreases |cs|
  {
    if cs == [] then d else Announced(d[cs[0].code := cs[0].value], cs[1..])
  }

  /** Capabilities written one to a parameter, with anything of up to two bytes behind them, are read back. */
  lemma {:induction false} CapabilitiesComeBack(cs: seq<Capability>, d: map<byte, bytes>, later: bytes)
    requires AllShort(cs) && |later| <= 2
    ensures Parameters(EncodeCapabilities(cs) + later, d) == Ok(Announced(d, cs))
    decreases |cs|
  {
    if cs == [] {
      EmptyIsNeutral(later);
    } else {
      var c, rest := cs[0], EncodeCapabilities(cs[1..]) + later;
      var head: bytes := [2, |c.value| + 2, c.code, |c.value|];
      var msg := EncodeCapabilities(cs) + later;
      assert msg == head + c.value + rest;
      assert msg[4..|c.value| + 4] == c.value && msg[|c.value| + 4..] == rest;
      CapabilitiesComeBack(cs[1..], d[c.code := c.value], later);
    }
  }

  /** And nothing else is accepted. */
  lemma {:induction false} ParametersAreCapabilities(msg: bytes, d: map<byte, bytes>)
      returns (cs: seq<Capability>, later: bytes)
    requires Parameters(msg, d).Ok?
    ensures AllShort(cs) && |later| <= 2 && msg == EncodeCapabilities(cs) + later
    ensures Parameters(msg, d).value == Announced(d, cs)
    decreases |msg|
  {
    if |msg| <= 2 {
      cs, later := [], msg;
      EmptyIsNeutral(msg);
    } else {
      var end := msg[1] as nat + 2;
      var c := Capability(msg[2], msg[4..end]);
      var rest: seq<Capability>;
      rest, later := ParametersAreCapabilities(msg[end..], d[c.code := c.value]);
      cs := [c] + rest;
      assert cs[1..] == rest;
      ParameterFirst(msg);
      Associate([2, |c.value| + 2, c.code, |c.value|] + c.value, EncodeCapabilities(rest), later);
    }
  }

  lemma ParameterFirst(msg: bytes)
    requires |msg| > 2 && msg[0] == 2 && |msg| >= msg[1] as nat + 2 && msg[1] >= 2 && msg[1] - 2 == msg[3]
    ensures var end := msg[1] as nat + 2;
      msg == [2, end - 2, msg[2], end - 4] + msg[4..end] + msg[end..]
  {
    var end := msg[1] as nat + 2;
    assert msg[..4] == [2, end - 2, msg[2], end - 4];
    assert msg == msg[..4] + msg[4..end] + msg[end..];
  }

  predicate OpenFits(o: Open) {
    o.version < 0x100 && o.asn < 0x1_0000 && o.holdTime < 0x1_0000 && o.bgpId < 0x1_0000_0000
  }

  function OpenHead(o: Open, n: byte): (b: bytes)
    requires OpenFits(o)
    ensures |b| == 10
  {
    [o.version] + Put16(o.asn) + Put16(o.holdTime) + Put32(o.bgpId) + [n]
  }

  function EncodeOpen(o: Open, cs: seq<Capability>): bytes
    requires OpenFits(o) && AllShort(cs) && |EncodeCapabilities(cs)| < 0x100
  {
    OpenHead(o, |EncodeCapabilities(cs)|) + EncodeCapabilities(cs)
  }

  lemma OpenHeadReads(o: Open, n: byte)
    requires OpenFits(o)
    ensures var b := OpenHead(o, n);
      b[0] == o.version && Be16(b, 1) == o.asn && Be16(b, 3) == o.holdTime && Be32(b, 5) == o.bgpId && b[9] == n
  {
    var b := OpenHead(o, n);
    assert b[1..3] == Put16(o.asn) && Be16(b, 1) == Be16(b[1..3], 0);
    assert b[3..5] == Put16(o.holdTime) && Be16(b, 3) == Be16(b[3..5], 0);
    assert b[5..9] == Put32(o.bgpId) && Be32(b, 5) == Be32(b[5..9], 0);
  }

  /** An encoded OPEN gives back its fixed fields and, under each code, the last capability of that code. */
  lemma OpenComesBack(o: Open, cs: seq<Capability>)
    requires OpenFits(o) && AllShort(cs) && |EncodeCapabilities(cs)| < 0x100
    ensures ParseOpen(EncodeOpen(o, cs)) == Ok(o.(parameters := Announced(map[], cs)))
  {
    var parameters := EncodeCapabilities(cs);
    var head := OpenHead(o, |parameters|);
    OpenHeadReads(o, |parameters|);
    OpenReads(head, parameters);
    CapabilitiesComeBack(cs, map[], []);
    EmptyIsNeutral(parameters);
  }

  lemma OpenReads(head: bytes, parameters: bytes)
    requires |head| == 10 && head[9] == |parameters|
    ensures ParseOpen(head + parameters) ==
      match Parameters(parameters, map[]) {
        case Err(e) => Err(e)
        case Ok(d) => Ok(Open(head[0], Be16(head, 1), Be16(head, 3), Be32(head, 5), d))
      }
  {
    assert (head + parameters)[10..10 + |parameters|] == parameters;
  }

  /** Sixteen bytes of all ones. */
  predicate AllOnes(marker: bytes) {
    |marker| == 16 && forall i :: 0 <= i < 16 ==> marker[i] == 255
  }

  function EncodeBgp(body: bytes): (b: bytes)
    requires 19 + |body| < 0x1_0000
    ensures |b| == 19 + |body| && AllOnes(b[..16])
  {
    [255, 255, 255, 255, 255, 255, 255, 255, 255, 255, 255, 255, 255, 255, 255, 255]
      + Put16(19 + |body|) + [2] + body
  }

  lemma BgpRoundTrip(v: Variant, body: bytes)
    requires 19 + |body| < 0x1_0000
    ensures ParseBgp(v, EncodeBgp(body)) ==
      match ParseBody(v, body) {
        case Err(e) => Err(e)
        case Ok(u) => Ok(UpdateMessage(u))
      }
  {
    var b := EncodeBgp(body);
    MarkerIsOnes(b[..16]);
    assert b[19..|b|] == body;
    assert b[16..18] == Put16(19 + |body|) && Be16(b, 16) == Be16(b[16..18], 0);
  }

  lemma MarkerIsOnes(marker: bytes)
    ensures marker == MARKER <==> AllOnes(marker)
  {}

  /** Which messages pass the header checks (section 4.1 of RFC 4271), and what their type makes of them. */
  lemma BgpByType(v: Variant, msg: bytes)
    ensures var r := ParseBgp(v, msg);
      if |msg| < 19 || !AllOnes(msg[..16]) || !(19 <= Be16(msg, 16) <= |msg|) || !(1 <= msg[18] <= 4) then
        r == Err(AssertionError)
      else
        var body := msg[19..Be16(msg, 16)];
        match msg[18]
        case 1 => r == (match ParseOpen(body) case Err(e) => Err(e) case Ok(o) => Ok(OpenMessage(o)))
        case 2 => r == (match ParseBody(v, body) case Err(e) => Err(e) case Ok(u) => Ok(UpdateMessage(u)))
        case _ => r == Ok(OtherMessage(msg[18]))
  {
    if |msg| >= 19 { MarkerIsOnes(msg[..16]); }
  }
}
