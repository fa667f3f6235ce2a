/** Byte-level vocabulary shared by the wire codec and the relay:
    bytes, the signed widths that `struct.pack` accepts, 128-bit identities
    as their 16 raw bytes, and big-endian integer encodings. */
module Bytes {

  type byte = x: int | 0 <= x < 0x100
  type int8 = x: int | -0x80 <= x < 0x80
  type int32 = x: int | -0x8000_0000 <= x < 0x8000_0000

  /** A UUID as its 16 raw bytes, in the byte order of section 4.1.2 of RFC 4122. */
  type Uuid = s: seq<byte> | |s| == 16 witness NilUuid

  const NilUuid: seq<byte> := [0, 0, 0, 0, 0, 0, 0, 0, 0, 0, 0, 0, 0, 0, 0, 0]

  function Pow256(n: nat): (r: nat)
    ensures r > 0
  {
    if n == 0 then 1 else 0x100 * Pow256(n - 1)
  }

  /** `int.from_bytes(b, "big", signed=False)` */
  function BeToNat(b: seq<byte>): (r: nat)
    ensures r < Pow256(|b|)
  {
    if b == [] then 0 else BeToNat(b[..|b| - 1]) * 0x100 + b[|b| - 1]
  }

  /** The `n`-byte big-endian rendering of `x` (`struct.pack` of an unsigned field). */
  function NatToBe(x: nat, n: nat): (r: seq<byte>)
    requires x < Pow256(n)
    ensures |r| == n
  {
    if n == 0 then [] else NatToBe(x / 0x100, n - 1) + [x % 0x100]
  }

  lemma {:induction false} NatToBeToNat(x: nat, n: nat)
    requires x < Pow256(n)
    ensures BeToNat(NatToBe(x, n)) == x
  {
    if n > 0 {
      var r := NatToBe(x, n);
      assert r[..n - 1] == NatToBe(x / 0x100, n - 1);
      NatToBeToNat(x / 0x100, n - 1);
    }
  }

  lemma {:induction false} BeToNatToBe(b: seq<byte>)
    ensures NatToBe(BeToNat(b), |b|) == b
  {
    if b != [] {
      var n := |b|;
      var init := b[..n - 1];
      BeToNatToBe(init);
      assert BeToNat(b) / 0x100 == BeToNat(init);
      assert BeToNat(b) % 0x100 == b[n - 1];
      assert init + [b[n - 1]] == b;
    }
  }

  /** `struct.pack(">i", x)`: four bytes, big-endian, two's complement. */
  function Int32ToBe(x: int32): (r: seq<byte>)
    ensures |r| == 4
    ensures 0 <= x ==> BeToNat(r) == x
    ensures x < 0 ==> BeToNat(r) == x + 0x1_0000_0000
  {
    var r := NatToBe(if x < 0 then x + 0x1_0000_0000 else x, 4);
    NatToBeToNat(if x < 0 then x + 0x1_0000_0000 else x, 4);
    r
  }

  /** `struct.unpack(">i", b)[0]` */
  function BeToInt32(b: seq<byte>): (r: int32)
    requires |b| == 4
    ensures 0 <= r <==> b[0] < 0x80
  {
    var n := BeToNat(b);
    BeToNat4(b);
    if n >= 0x8000_0000 then n - 0x1_0000_0000 else n
  }

  lemma BeToNat4(b: seq<byte>)
    requires |b| == 4
    ensures BeToNat(b) == b[0] as int * 0x100_0000 + b[1] as int * 0x1_0000 + b[2] as int * 0x100 + b[3] as int
  {
    assert BeToNat(b[..1]) == b[0] by { assert b[..1][..0] == []; }
    assert BeToNat(b[..2]) == b[0] as int * 0x100 + b[1] by { assert b[..2][..1] == b[..1]; }
    assert BeToNat(b[..3]) == b[0] as int * 0x1_0000 + b[1] as int * 0x100 + b[2] by { assert b[..3][..2] == b[..2]; }
    assert b[..4] == b;
  }

  lemma Int32RoundTrip(x: int32)
    ensures BeToInt32(Int32ToBe(x)) == x
  {
  }

  lemma Int32ToBeInverse(b: seq<byte>)
    requires |b| == 4
    ensures Int32ToBe(BeToInt32(b)) == b
  {
    BeToNatToBe(b);
  }
}
