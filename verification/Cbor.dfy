/** CBOR item heads as bytes (sections 3 and 4.2.1 of RFC 8949): shortest-form encoding and a decoder
    that accepts any definite-length head. */
module Cbor {
  import opened Octets

  datatype Head = NoHead | Head(major: nat, ai: nat, val: nat, rest: seq<byte>)

  /** Big-endian bytes. */
  function BigBytes(v: nat, n: nat): (s: seq<byte>)
    ensures |s| == n
  {
    if n == 0 then [] else BigBytes(v / 256, n - 1) + [v % 256]
  }

  function BigNumber(s: seq<byte>): nat
  {
    if s == [] then 0 else 256 * BigNumber(s[..|s| - 1]) + s[|s| - 1]
  }

  lemma {:induction false} BigRoundTrip(v: nat, n: nat)
    requires v < Pow256(n)
    ensures BigNumber(BigBytes(v, n)) == v
  {
    if n > 0 {
      BigRoundTrip(v / 256, n - 1);
      assert BigBytes(v, n)[..n - 1] == BigBytes(v / 256, n - 1);
    }
  }

  /** The bytes that follow the initial byte, by additional information; none for a reserved value. */
  function ArgumentBytes(ai: nat): nat
  {
    if ai == 24 then 1 else if ai == 25 then 2 else if ai == 26 then 4 else if ai == 27 then 8 else 0
  }

  /** The shortest additional information for a value. */
  function Shortest(v: nat): (ai: nat)
    ensures ai < 28
  {
    if v < 24 then v
    else if v <= 0xff then 24
    else if v <= 0xffff then 25
    else if v <= 0xffff_ffff then 26
    else 27
  }

  function HeadWith(major: nat, ai: nat, v: nat): (s: seq<byte>)
    requires major < 8 && ai < 28
    ensures |s| == 1 + ArgumentBytes(ai)
  {
    [major * 32 + ai] + BigBytes(v, ArgumentBytes(ai))
  }

  function PutHead(major: nat, v: nat): seq<byte>
    requires major < 8
  {
    HeadWith(major, Shortest(v), v)
  }

  function ReadHead(s: seq<byte>): Head
  {
    if s == [] then NoHead
    else
      var major, ai := s[0] / 32, s[0] % 32;
      if ai < 24 then Head(major, ai, ai, s[1..])
      else if ai >= 28 || |s| < 1 + ArgumentBytes(ai) then NoHead
      else
        var n := ArgumentBytes(ai);
        Head(major, ai, BigNumber(s[1..1 + n]), s[1 + n..])
  }

  /** A head is read back with its argument, whatever follows it. */
  lemma ReadHeadWith(major: nat, ai: nat, v: nat, rest: seq<byte>)
    requires major < 8 && ai < 28 && (if ai < 24 then v == ai else v < Pow256(ArgumentBytes(ai)))
    ensures ReadHead(HeadWith(major, ai, v) + rest) == Head(major, ai, v, rest)
  {
    var n := ArgumentBytes(ai);
    var s := HeadWith(major, ai, v) + rest;
    assert s[0] == major * 32 + ai && s[0] / 32 == major && s[0] % 32 == ai;
    assert s[1 + n..] == rest;
    if ai >= 24 {
      assert s[1..1 + n] == BigBytes(v, n);
      BigRoundTrip(v, n);
    }
  }

  lemma ShortestFits(v: nat)
    requires v < 0x1_0000_0000_0000_0000
    ensures var ai := Shortest(v); if ai < 24 then v == ai else v < Pow256(ArgumentBytes(ai))
  {
    Powers();
    assert Pow256(1) == 256;
  }

  /** No form that can carry the value is shorter than the one chosen, and none of the same length differs. */
  lemma ShortestIsLeast(major: nat, ai: nat, v: nat)
    requires major < 8 && ai < 28 && (if ai < 24 then v == ai else v < Pow256(ArgumentBytes(ai)))
    ensures |PutHead(major, v)| <= |HeadWith(major, ai, v)|
    ensures |PutHead(major, v)| == |HeadWith(major, ai, v)| ==> ai == Shortest(v)
  {
    Powers();
    assert Pow256(1) == 256;
  }

  lemma ReadPutHead(major: nat, v: nat, rest: seq<byte>)
    requires major < 8 && v < 0x1_0000_0000_0000_0000
    ensures ReadHead(PutHead(major, v) + rest) == Head(major, Shortest(v), v, rest)
  {
    ShortestFits(v);
    ReadHeadWith(major, Shortest(v), v, rest);
  }

  /** The head of a map whose entries can still fit: each costs at least two bytes, counted in 64 bits. */
  function ReadMap(s: seq<byte>): (m: Head)
    ensures m.Head? ==> m == ReadHead(s) && m.major == 5
  {
    var m := ReadHead(s);
    if m.Head? && m.major == 5 && (m.val * 2) % 0x1_0000_0000_0000_0000 <= |m.rest| then m else NoHead
  }

  lemma ReadPutMap(n: nat, rest: seq<byte>)
    requires n < 0x1_0000_0000_0000_0000 && 2 * n <= |rest|
    ensures ReadMap(PutHead(5, n) + rest) == Head(5, Shortest(n), n, rest)
  {
    ReadPutHead(5, n, rest);
    assert (n * 2) % 0x1_0000_0000_0000_0000 <= n * 2;
  }
}
