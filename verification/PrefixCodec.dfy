/** Compressed prefixes (section 4.3 of RFC 4271), as get_prefixes of bgpparse.py unpacks them. */
module PrefixCodec {
  import opened Types
  import opened Bytes

  // ---------- shifts and bitwise or ----------

  function Pow2(n: nat): (p: nat)
    ensures p > 0
  {
    if n == 0 then 1 else 2 * Pow2(n - 1)
  }

  function Or(a: nat, b: nat): nat {
    if a == 0 then b else (if a % 2 == 1 || b % 2 == 1 then 1 else 0) + 2 * Or(a / 2, b / 2)
  }

  lemma {:induction false} OrZero(a: nat)
    ensures Or(a, 0) == a
  {
    if a != 0 { OrZero(a / 2); }
  }

  /** Or-ing something into bits that are all zero adds it. */
  lemma {:induction false} OrIsSum(a: nat, b: nat, k: nat)
    requires b < Pow2(k)
    ensures Or(a * Pow2(k), b) == a * Pow2(k) + b
  {
    if k == 0 {
      OrZero(a);
    } else {
      var high := a * Pow2(k - 1);
      assert a * Pow2(k) == 2 * high;
      OrIsSum(a, b / 2, k - 1);
    }
  }

  // ---------- one prefix ----------

  /** How many address bytes follow the length byte. */
  function ByteLength(length: nat): (n: nat)
    ensures n <= 4
  {
    if length > 24 then 4 else if length > 16 then 3 else if length > 8 then 2 else if length > 0 then 1 else 0
  }

  /** The address put together from the bytes that are there, as the source shifts and ors them. */
  function Address(b: bytes): nat
    requires |b| <= 4
  {
    var p0 := if |b| > 0 then b[0] * Pow2(24) else 0;
    var p1 := if |b| > 1 then Or(p0, b[1] * Pow2(16)) else p0;
    var p2 := if |b| > 2 then Or(p1, b[2] * Pow2(8)) else p1;
    if |b| > 3 then Or(p2, b[3]) else p2
  }

  /** The whole octets that hold a prefix of so many bits, of the four an address has. */
  function Octets(length: nat): nat {
    if length > 32 then 4 else (length + 7) / 8
  }

  lemma ByteLengthIsOctets(length: nat)
    ensures ByteLength(length) == Octets(length)
  {}

  const ZEROS: bytes := [0, 0, 0, 0]

  lemma Powers()
    ensures Pow2(8) == 0x100 && Pow2(16) == 0x1_0000 && Pow2(24) == 0x100_0000
  {
    assert Pow2(4) == 16;
    assert Pow2(8) == 0x100;
    assert Pow2(12) == 0x1000;
    assert Pow2(16) == 0x1_0000;
    assert Pow2(20) == 0x10_0000;
  }

  /** That is the network-order number whose missing bytes are zero. */
  lemma AddressIsBe32(b: bytes)
    requires |b| <= 4
    ensures Address(b) == Be32(b + ZEROS[|b|..], 0)
  {
    Powers();
    var full := b + ZEROS[|b|..];
    var x: nat, y: nat, z: nat, w: nat := full[0], full[1], full[2], full[3];
    OrIsSum(x, y * 0x1_0000, 24);
    OrIsSum(x * 0x100 + y, z * 0x100, 16);
    OrIsSum(x * 0x1_0000 + y * 0x100 + z, w, 8);
  }

  /** Nothing is set below the bytes the prefix length reaches. */
  predicate Canonical(p: Prefix) {
    p.length < 0x100 && p.addr < 0x1_0000_0000 && Put32(p.addr)[Octets(p.length)..] == ZEROS[Octets(p.length)..]
  }

  function EncodePrefix(p: Prefix): (b: bytes)
    requires Canonical(p)
    ensures |b| == 1 + Octets(p.length)
  {
    [p.length] + Put32(p.addr)[..Octets(p.length)]
  }

  lemma AddressOfEncoded(p: Prefix)
    requires Canonical(p)
    ensures Address(Put32(p.addr)[..ByteLength(p.length)]) == p.addr
  {
    var n, full := ByteLength(p.length), Put32(p.addr);
    ByteLengthIsOctets(p.length);
    AddressIsBe32(full[..n]);
    assert full[..n] + ZEROS[n..] == full[..n] + full[n..] == full;
  }

  lemma DecodedIsCanonical(length: byte, b: bytes)
    requires |b| == ByteLength(length)
    ensures var p := Prefix(length, Address(b)); Canonical(p) && EncodePrefix(p) == [length] + b
  {
    var full := b + ZEROS[|b|..];
    ByteLengthIsOctets(length);
    AddressIsBe32(b);
    Put32Be32(full, 0);
    assert full[0..4] == full;
  }

  // ---------- prefix lists ----------

  function EncodePrefixes(ps: seq<Prefix>): bytes
    requires forall i :: 0 <= i < |ps| ==> Canonical(ps[i])
  {
    if ps == [] then [] else EncodePrefix(ps[0]) + EncodePrefixes(ps[1..])
  }

  /** get_prefixes on values; a prefix that runs past the end fails its assertion. */
  function DecodePrefixes(b: bytes): Result<seq<Prefix>>
    decreases |b|
  {
    if b == [] then Ok([])
    else
      var n := ByteLength(b[0]);
      if |b| <= n then Err(AssertionError)
      else
        match DecodePrefixes(b[1 + n..])
        case Err(e) => Err(e)
        case Ok(ps) => Ok([Prefix(b[0], Address(b[1..1 + n]))] + ps)
  }

  function Onto<T>(done: seq<T>, r: Result<seq<T>>): Result<seq<T>> {
    match r
    case Err(e) => Err(e)
    case Ok(more) => Ok(done + more)
  }

  lemma OntoTwice<T>(done: seq<T>, x: T, r: Result<seq<T>>)
    ensures Onto(done, Onto([x], r)) == Onto(done + [x], r)
  {
    if r.Ok? { Associate(done, [x], r.value); }
  }

  lemma DecodeHead(b: bytes)
    requires b != [] && |b| > ByteLength(b[0])
    ensures var n := ByteLength(b[0]);
      DecodePrefixes(b) == Onto([Prefix(b[0], Address(b[1..1 + n]))], DecodePrefixes(b[1 + n..]))
  {}

  lemma DecodeEncodedHead(p: Prefix, rest: bytes)
    requires Canonical(p)
    ensures DecodePrefixes(EncodePrefix(p) + rest) == Onto([p], DecodePrefixes(rest))
  {
    var n, b := ByteLength(p.length), EncodePrefix(p) + rest;
    ByteLengthIsOctets(p.length);
    AddressOfEncoded(p);
    assert b[0] == p.length && b[1..1 + n] == Put32(p.addr)[..n] && b[1 + n..] == rest;
    DecodeHead(b);
  }

  /** Decoding what was encoded gives it back, for every list of canonical prefixes. */
  lemma {:induction false} DecodeEncode(ps: seq<Prefix>)
    requires forall i :: 0 <= i < |ps| ==> Canonical(ps[i])
    ensures DecodePrefixes(EncodePrefixes(ps)) == Ok(ps)
    decreases |ps|
  {
    if ps != [] {
      DecodeEncode(ps[1..]);
      DecodeEncodedHead(ps[0], EncodePrefixes(ps[1..]));
      assert ps == [ps[0]] + ps[1..];
    }
  }

  /** A prefix that runs past the end is an assertion failure, whatever came before it. */
  lemma {:induction false} DecodeCutShort(ps: seq<Prefix>, part: bytes)
    requires forall i :: 0 <= i < |ps| ==> Canonical(ps[i])
    requires part != [] && |part| <= Octets(part[0])
    ensures DecodePrefixes(EncodePrefixes(ps) + part) == Err(AssertionError)
    decreases |ps|
  {
    if ps == [] {
      EmptyIsNeutral(part);
      ByteLengthIsOctets(part[0]);
    } else {
      Associate(EncodePrefix(ps[0]), EncodePrefixes(ps[1..]), part);
      DecodeEncodedHead(ps[0], EncodePrefixes(ps[1..]) + part);
      DecodeCutShort(ps[1..], part);
    }
  }

  lemma EncodeCons(p: Prefix, ps: seq<Prefix>)
    requires Canonical(p) && forall i :: 0 <= i < |ps| ==> Canonical(ps[i])
    ensures var all := [p] + ps;
      (forall i :: 0 <= i < |all| ==> Canonical(all[i])) && EncodePrefixes(all) == EncodePrefix(p) + EncodePrefixes(ps)
  {
    assert ([p] + ps)[1..] == ps;
  }

  lemma CutHead(b: bytes, n: nat)
    requires n < |b|
    ensures b == [b[0]] + b[1..1 + n] + b[1 + n..]
  {}

  /** Every accepted byte string is the encoding of what it decodes to, which is canonical. */
  lemma {:induction false} EncodeDecode(b: bytes)
    requires DecodePrefixes(b).Ok?
    ensures var ps := DecodePrefixes(b).value;
      (forall i :: 0 <= i < |ps| ==> Canonical(ps[i])) && EncodePrefixes(ps) == b
    decreases |b|
  {
    if b != [] {
      var n := ByteLength(b[0]);
      var head, later := b[1..1 + n], b[1 + n..];
      DecodeHead(b);
      EncodeDecode(later);
      DecodedIsCanonical(b[0], head);
      EncodeCons(Prefix(b[0], Address(head)), DecodePrefixes(later).value);
      CutHead(b, n);
    }
  }

  /** One round of the loop, at an offset into the list. */
  lemma DecodeAt(list: bytes, offset: nat, done: seq<Prefix>)
    requires offset < |list| && ByteLength(list[offset]) + offset < |list|
    ensures var next := offset + 1 + ByteLength(list[offset]);
      Onto(done, DecodePrefixes(list[offset..])) ==
        Onto(done + [Prefix(list[offset], Address(list[offset + 1..next]))], DecodePrefixes(list[next..]))
  {
    var b, n := list[offset..], ByteLength(list[offset]);
    assert b[1..1 + n] == list[offset + 1..offset + 1 + n] && b[1 + n..] == list[offset + 1 + n..];
    DecodeHead(b);
    OntoTwice(done, Prefix(b[0], Address(b[1..1 + n])), DecodePrefixes(b[1 + n..]));
  }

  method UnpackAddress(list: bytes, at: nat, n: nat) returns (prefix: nat)
    requires n <= 4 && at + n <= |list|
    ensures prefix == Address(list[at..at + n])
  {
    prefix := 0;
    if n > 0 { prefix := list[at] * Pow2(24); }
    if n > 1 { prefix := Or(prefix, list[at + 1] * Pow2(16)); }
    if n > 2 { prefix := Or(prefix, list[at + 2] * Pow2(8)); }
    if n > 3 { prefix := Or(prefix, list[at + 3]); }
  }

  method GetPrefixes(prefixList: bytes) returns (r: Result<seq<Prefix>>)
    ensures r == DecodePrefixes(prefixList)
  {
    var offset := 0;
    var prefixes: seq<Prefix> := [];
    assert prefixList[0..] == prefixList;
    ghost var whole := DecodePrefixes(prefixList);
    if whole.Ok? { EmptyIsNeutral(whole.value); }
    while offset < |prefixList|
      invariant offset <= |prefixList|
      invariant whole == Onto(prefixes, DecodePrefixes(prefixList[offset..]))
      decreases |prefixList| - offset
    {
      var prefixLength := prefixList[offset];
      var n := ByteLength(prefixLength);
      if n + offset >= |prefixList| {
        return Err(AssertionError);
      }
      var prefix := UnpackAddress(prefixList, offset + 1, n);
      DecodeAt(prefixList, offset, prefixes);
      prefixes := prefixes + [Prefix(prefixLength, prefix)];
      offset := offset + 1 + n;
    }
    EmptyIsNeutral(prefixes);
    r := Ok(prefixes);
  }
}
