/** Fixed-width little-endian integers. */
module LittleEndian {
  import opened Common

  const U32: nat := 0x1_0000_0000

  type u32 = x: int | 0 <= x < U32

  function Pow256(k: nat): (r: nat)
    ensures r >= 1
  {
    if k == 0 then 1 else 256 * Pow256(k - 1)
  }

  /** The low size bytes of v, least significant first. */
  function ToLE(v: nat, size: nat): (r: bytes)
    ensures |r| == size
  {
    if size == 0 then [] else [v % 256] + ToLE(v / 256, size - 1)
  }

  function FromLE(s: bytes): nat {
    if s == [] then 0 else s[0] + 256 * FromLE(s[1..])
  }

  lemma {:induction false} FromToLE(v: nat, size: nat)
    requires v < Pow256(size)
    ensures FromLE(ToLE(v, size)) == v
  {
    if size > 0 {
      assert v / 256 < Pow256(size - 1);
      FromToLE(v / 256, size - 1);
      assert ToLE(v, size)[1..] == ToLE(v / 256, size - 1);
    }
  }

  lemma LowByte(low: byte, high: nat)
    ensures (low + 256 * high) % 256 == low && (low + 256 * high) / 256 == high
  {}

  lemma {:induction false} ToFromLE(s: bytes)
    ensures FromLE(s) < Pow256(|s|) && ToLE(FromLE(s), |s|) == s
  {
    if s != [] {
      ToFromLE(s[1..]);
      LowByte(s[0], FromLE(s[1..]));
    }
  }

  lemma Four(v: u32)
    ensures FromLE(ToLE(v, 4)) == v
  {
    assert Pow256(4) == U32 by { assert Pow256(2) == 0x1_0000; }
    FromToLE(v, 4);
  }

  lemma FourBack(s: bytes)
    requires |s| == 4
    ensures FromLE(s) < U32 && ToLE(FromLE(s), 4) == s
  {
    assert Pow256(4) == U32 by { assert Pow256(2) == 0x1_0000; }
    ToFromLE(s);
  }

  /** binary.LittleEndian.Uint32. */
  function Uint32(s: bytes): (v: u32)
    requires |s| == 4
  {
    FourBack(s);
    FromLE(s)
  }

  lemma FourBytes(v: u32)
    ensures ToLE(v, 4) == [v % 256, v / 0x100 % 256, v / 0x1_0000 % 256, v / 0x100_0000 % 256]
  {
    assert ToLE(v / 0x1_0000, 2) == [v / 0x1_0000 % 256] + ToLE(v / 0x100_0000, 1);
    assert ToLE(v / 0x100, 3) == [v / 0x100 % 256] + ToLE(v / 0x1_0000, 2);
  }

  /** binary.LittleEndian.PutUint32, in place. */
  method PutUint32(a: array<byte>, at: nat, v: u32)
    requires at + 4 <= a.Length
    modifies a
    ensures a[..at + 4] == old(a[..at]) + ToLE(v, 4)
    ensures a[at + 4..] == old(a[at + 4..])
  {
    FourBytes(v);
    a[at] := v % 256;
    a[at + 1] := v / 0x100 % 256;
    a[at + 2] := v / 0x1_0000 % 256;
    a[at + 3] := v / 0x100_0000 % 256;
  }
}
