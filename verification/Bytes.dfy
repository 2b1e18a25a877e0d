/** Byte strings and network-order integers, as struct packs and unpacks them. */
module Bytes {

  type byte = x: int | 0 <= x < 256

  type bytes = seq<byte>

  function Be16(b: bytes, i: nat): (n: nat)
    requires i + 2 <= |b|
    ensures n < 0x1_0000
  {
    b[i] as int * 0x100 + b[i + 1] as int
  }

  function Be32(b: bytes, i: nat): (n: nat)
    requires i + 4 <= |b|
    ensures n < 0x1_0000_0000
  {
    Be16(b, i) * 0x1_0000 + Be16(b, i + 2)
  }

  function Put16(n: nat): (b: bytes)
    requires n < 0x1_0000
    ensures |b| == 2 && Be16(b, 0) == n
  {
    [n / 0x100, n % 0x100]
  }

  function Put32(n: nat): (b: bytes)
    requires n < 0x1_0000_0000
    ensures |b| == 4 && Be32(b, 0) == n
  {
    Put16(n / 0x1_0000) + Put16(n % 0x1_0000)
  }

  lemma Put16Be16(b: bytes, i: nat)
    requires i + 2 <= |b|
    ensures Put16(Be16(b, i)) == b[i..i + 2]
  {}

  lemma Put32Be32(b: bytes, i: nat)
    requires i + 4 <= |b|
    ensures Put32(Be32(b, i)) == b[i..i + 4]
  {
    var n := Be32(b, i);
    assert n / 0x1_0000 == Be16(b, i) && n % 0x1_0000 == Be16(b, i + 2);
    Put16Be16(b, i);
    Put16Be16(b, i + 2);
    assert b[i..i + 4] == b[i..i + 2] + b[i + 2..i + 4];
  }

  function Concat(parts: seq<bytes>): bytes {
    if parts == [] then [] else parts[0] + Concat(parts[1..])
  }

  lemma Associate<T>(a: seq<T>, b: seq<T>, c: seq<T>)
    ensures a + (b + c) == a + b + c
  {}

  lemma EmptyIsNeutral<T>(a: seq<T>)
    ensures [] + a == a == a + []
  {}

  lemma ConcatCons(x: bytes, xs: seq<bytes>)
    ensures Concat([x] + xs) == x + Concat(xs)
  {
    assert ([x] + xs)[1..] == xs;
  }

  /** Slices of a suffix are slices of the whole. */
  lemma SliceOfDrop<T>(b: seq<T>, at: nat, lo: nat, hi: nat)
    requires lo <= hi && at + hi <= |b|
    ensures b[at..][lo..hi] == b[at + lo..at + hi] && b[at..][hi..] == b[at + hi..]
  {}

  /** Concatenations with first parts of equal length are equal part by part. */
  lemma SplitEqual<T>(a: seq<T>, b: seq<T>, c: seq<T>, d: seq<T>)
    requires |a| == |c|
    ensures a + b == c + d <==> a == c && b == d
  {
    if a + b == c + d {
      assert a == (a + b)[..|a|] && b == (a + b)[|a|..];
      assert c == (c + d)[..|a|] && d == (c + d)[|a|..];
    }
  }
}
