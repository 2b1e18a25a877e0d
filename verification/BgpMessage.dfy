/** The BGP_message object of bgpparse.py, filled in field by field. */
module BgpMessage {
  import opened Types
  import opened Bytes
  import opened PrefixCodec
  import opened BgpUpdate
  import P = AsPath

  class BGPMessage {
    const variant: Variant
    var exceptFlag: bool
    var attribute: Attributes
    var withdrawnPrefixes: seq<Prefix>
    var prefixes: seq<Prefix>

    ghost function Value(): Update
      reads this
    {
      Update.Update(withdrawnPrefixes, prefixes, attribute, exceptFlag)
    }

    constructor (variant: Variant)
      ensures this.variant == variant && Value() == Update.Update([], [], [], false)
    {
      this.variant := variant;
      exceptFlag, attribute, withdrawnPrefixes, prefixes := false, [], [], [];
    }

    /** On an exception the object is never handed out, so only the fault is described. */
    method ParseBgpUpdate(msg: bytes) returns (fault: Option<Fault>)
      requires Value() == Update.Update([], [], [], false)
      modifies this
      ensures match ParseBody(variant, msg)
        case Err(e) => fault == Some(e)
        case Ok(u) => fault.None? && Value() == u
    {
      var sections := CutSections(msg);
      if sections.Err? {
        return Some(sections.fault);
      }
      var (w, a, n) := sections.value;
      fault := ParseThree(w, a, n);
    }

    method ParseThree(w: bytes, a: bytes, n: bytes) returns (fault: Option<Fault>)
      requires Value() == Update.Update([], [], [], false)
      modifies this
      ensures match ParseSections(variant, w, a, n)
        case Err(e) => fault == Some(e)
        case Ok(u) => fault.None? && Value() == u
    {
      var withdrawn := GetPrefixes(w);
      if withdrawn.Err? {
        return Some(withdrawn.fault);
      }
      var nlri := GetPrefixes(n);
      if nlri.Err? {
        return Some(nlri.fault);
      }
      withdrawnPrefixes, prefixes := withdrawn.value, nlri.value;
      fault := ProcessPathAttributes(a);
    }

    method ProcessPathAttributes(attributes: bytes) returns (fault: Option<Fault>)
      requires attribute == [] && !exceptFlag
      modifies this`attribute, this`exceptFlag
      ensures match ProcessAttributes(variant, [], attributes)
        case Err(e) => fault == Some(e)
        case Ok(d) => fault.None? && attribute == d && exceptFlag == (prefixes != [] && !Mandatory(d))
    {
      var offset := 0;
      assert attributes[0..] == attributes;
      while offset < |attributes|
        invariant 0 <= offset && !exceptFlag
        invariant ProcessAttributes(variant, [], attributes) ==
          ProcessAttributes(variant, attribute, if offset <= |attributes| then attributes[offset..] else [])
        decreases |attributes| - offset
      {
        var next := ReadAttribute(attributes, offset);
        ProcessStep(variant, attribute, attributes[offset..]);
        if next.Err? {
          return Some(StructError);
        }
        var (raw, after) := next.value;
        var r := AddAttribute(raw);
        if r.Some? {
          return r;
        }
        offset := after;
      }
      if prefixes != [] && !Mandatory(attribute) {
        exceptFlag := true;
      }
      fault := None;
    }

    /** parse_attribute writing into the dictionary; a failed assertion ends the process. */
    method AddAttribute(raw: RawAttribute) returns (fault: Option<Fault>)
      modifies this`attribute
      ensures match ParseAttribute(variant, old(attribute), raw)
        case Err(e) => fault == Some(e)
        case Ok(d) => fault.None? && attribute == d
    {
      var code, payload := raw.code, raw.payload;
      if code == 2 || code == 17 {
        var segments := P.ParseAttributeAsPath(variant, payload);
        if segments != [] {
          attribute := Set(attribute, code, AsPath(segments));
        }
        return None;
      }
      match Decode(code, payload)
      case None =>
        return Some(SystemExit);
      case Some(x) =>
        attribute := Set(attribute, code, x);
        return None;
    }
  }

  /** The offset behind the attribute at offset, past the end of the section when that cuts it short. */
  function NextOffset(attributes: bytes, offset: nat): nat
    requires offset < |attributes| && |attributes[offset..]| >= Quantum(attributes[offset])
  {
    offset + Quantum(attributes[offset]) + PayloadLength(attributes[offset..])
  }

  method ReadAttribute(attributes: bytes, offset: nat) returns (r: Result<(RawAttribute, nat)>)
    requires offset < |attributes|
    ensures r.Ok? <==> |attributes| - offset >= Quantum(attributes[offset])
    ensures r.Err? ==> r.fault == StructError
    ensures r.Ok? ==>
      var b, next := attributes[offset..], r.value.1;
      && r.value.0 == First(b) && next == NextOffset(attributes, offset)
      && b[AttributeEnd(b)..] == if next <= |attributes| then attributes[next..] else []
  {
    if offset + 2 > |attributes| {
      return Err(StructError);
    }
    var flags, code := attributes[offset], attributes[offset + 1];
    ghost var b := attributes[offset..];
    assert b[0] == flags && b[1] == code;
    var length: nat, quantum := 0, 0;
    if Extended(flags) {
      if offset + 4 > |attributes| {
        return Err(StructError);
      }
      length, quantum := Be16(attributes, offset + 2), 4;
      assert length == Be16(b, 2);
    } else {
      if offset + 3 > |attributes| {
        return Err(StructError);
      }
      length, quantum := attributes[offset + 2], 3;
    }
    assert quantum == Quantum(b[0]) && length == PayloadLength(b);
    var end := if offset + quantum + length <= |attributes| then offset + quantum + length else |attributes|;
    assert end == offset + AttributeEnd(b);
    SliceOfDrop(attributes, offset, quantum, AttributeEnd(b));
    return Ok((RawAttribute(flags, code, attributes[offset + quantum..end]), offset + length + quantum));
  }

  lemma ProcessStep(v: Variant, d: Attributes, b: bytes)
    requires b != []
    ensures ProcessAttributes(v, d, b) ==
      if |b| < Quantum(b[0]) then Err(StructError)
      else
        match ParseAttribute(v, d, First(b))
        case Err(e) => Err(e)
        case Ok(d1) => ProcessAttributes(v, d1, b[AttributeEnd(b)..])
  {}

  /** The two length fields and the assertions about them. */
  method CutSections(msg: bytes) returns (r: Result<(bytes, bytes, bytes)>)
    ensures r == Sections(msg)
  {
    if |msg| < 2 {
      return Err(StructError);
    }
    var withdrawnLength := Be16(msg, 0);
    if |msg| <= withdrawnLength + 3 {
      return Err(AssertionError);
    }
    var attributeLength := Be16(msg, withdrawnLength + 2);
    if |msg| <= withdrawnLength + 3 + attributeLength {
      return Err(AssertionError);
    }
    var a := withdrawnLength + 4;
    return Ok((msg[2..2 + withdrawnLength], msg[a..a + attributeLength], msg[a + attributeLength..]));
  }

  /** tlv_parse with inner_tlv_parse. */
  method ParseParameters(optional: bytes) returns (r: Result<map<byte, bytes>>)
    ensures r == Parameters(optional, map[])
  {
    var msg := optional;
    var parameters: map<byte, bytes> := map[];
    while 2 < |msg|
      invariant Parameters(msg, parameters) == Parameters(optional, map[])
      decreases |msg|
    {
      var length: nat := msg[1];
      if msg[0] != 2 || |msg| < length + 2 {
        return Err(AssertionError);
      }
      var capability := msg[2..2 + length];
      if |capability| < 2 {
        return Err(StructError);
      }
      if |capability| - 2 != capability[1] {
        return Err(AssertionError);
      }
      SliceOfDrop(msg[..2 + length], 2, 2, length);
      assert capability == msg[..2 + length][2..];
      parameters := parameters[capability[0] := capability[2..]];
      msg := msg[2 + length..];
    }
    return Ok(parameters);
  }

  method ParseBgpOpen(body: bytes) returns (r: Result<Open>)
    ensures r == ParseOpen(body)
  {
    if |body| < 10 {
      return Err(StructError);
    }
    var version: nat, asn, holdTime, bgpId := body[0], Be16(body, 1), Be16(body, 3), Be32(body, 5);
    var parameters := ParseParameters(body[10..if 10 + body[9] <= |body| then 10 + body[9] else |body|]);
    if parameters.Err? {
      return Err(parameters.fault);
    }
    return Ok(Open(version, asn, holdTime, bgpId, parameters.value));
  }

  /** The constructor of BGP_message: the header checks, and what the type of the message asks for. */
  method ParseMessage(v: Variant, msg: bytes) returns (r: Result<Bgp>)
    ensures r == ParseBgp(v, msg)
  {
    if |msg| <= 18 || msg[..16] != MARKER {
      return Err(AssertionError);
    }
    var length := Be16(msg, 16);
    if length <= 18 || length > |msg| || msg[18] == 0 || msg[18] >= 5 {
      return Err(AssertionError);
    }
    if msg[18] == UPDATE {
      var message := new BGPMessage(v);
      var fault := message.ParseBgpUpdate(msg[HEADER_LENGTH..length]);
      if fault.Some? {
        return Err(fault.value);
      }
      return Ok(UpdateMessage(
        Update.Update(message.withdrawnPrefixes, message.prefixes, message.attribute, message.exceptFlag)));
    }
    if msg[18] == OPEN {
      var body := ParseBgpOpen(msg[HEADER_LENGTH..length]);
      if body.Err? {
        return Err(body.fault);
      }
      return Ok(OpenMessage(body.value));
    }
    return Ok(OtherMessage(msg[18]));
  }
}
