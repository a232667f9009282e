/** Bytes and little-endian scalars. */
module Octets {

  type byte = x: int | 0 <= x < 256

  function Pow256(n: nat): (p: nat)
    ensures p > 0
  {
    if n == 0 then 1 else 256 * Pow256(n - 1)
  }

  function Bytes(x: nat, n: nat): (s: seq<byte>)
    ensures |s| == n
  {
    if n == 0 then [] else [x % 256] + Bytes(x / 256, n - 1)
  }

  function Number(s: seq<byte>): nat
  {
    if s == [] then 0 else s[0] + 256 * Number(s[1..])
  }

  lemma {:induction false} NumberOfBytes(x: nat, n: nat)
    requires x < Pow256(n)
    ensures Number(Bytes(x, n)) == x
  {
    if n > 0 {
      NumberOfBytes(x / 256, n - 1);
      assert Bytes(x, n)[1..] == Bytes(x / 256, n - 1);
    }
  }

  lemma {:induction false} BytesOfNumber(s: seq<byte>)
    ensures Bytes(Number(s), |s|) == s
  {
    if s != [] {
      BytesOfNumber(s[1..]);
      var n := s[0] + 256 * Number(s[1..]);
      assert n % 256 == s[0] && n / 256 == Number(s[1..]);
      assert s == [s[0]] + s[1..];
    }
  }

  lemma {:induction false} NumberBound(s: seq<byte>)
    ensures Number(s) < Pow256(|s|)
  {
    if s != [] {
      NumberBound(s[1..]);
    }
  }

  lemma Powers()
    ensures Pow256(2) == 0x1_0000 && Pow256(4) == 0x1_0000_0000 && Pow256(8) == 0x1_0000_0000_0000_0000
  {
    assert Pow256(3) == 0x100_0000;
    assert Pow256(5) == 0x100_0000_0000;
    assert Pow256(6) == 0x1_0000_0000_0000;
    assert Pow256(7) == 0x100_0000_0000_0000;
  }
}
