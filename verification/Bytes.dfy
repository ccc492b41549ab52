/** Little-endian encodings of the integer types the on-disk formats use. */
module Bytes {

  type Byte = x: int | 0 <= x < 256

  const TWO_32: int := 0x1_0000_0000
  const TWO_64: int := 0x1_0000_0000_0000_0000

  ghost function Pow256(width: nat): nat {
    if width == 0 then 1 else 256 * Pow256(width - 1)
  }

  function ToLe(n: nat, width: nat): (b: seq<Byte>)
    ensures |b| == width
  {
    if width == 0 then [] else [n % 256] + ToLe(n / 256, width - 1)
  }

  function FromLe(b: seq<Byte>): nat {
    if b == [] then 0 else b[0] + 256 * FromLe(b[1..])
  }

  lemma {:induction false} LeRoundTrip(n: nat, width: nat)
    requires n < Pow256(width)
    ensures FromLe(ToLe(n, width)) == n
  {
    if width > 0 {
      LeRoundTrip(n / 256, width - 1);
      assert ToLe(n, width)[1..] == ToLe(n / 256, width - 1);
    }
  }

  lemma {:induction false} LeInverse(b: seq<Byte>)
    ensures FromLe(b) < Pow256(|b|) && ToLe(FromLe(b), |b|) == b
  {
    if b != [] {
      LeInverse(b[1..]);
      assert FromLe(b) % 256 == b[0] && FromLe(b) / 256 == FromLe(b[1..]);
    }
  }

  lemma Widths()
    ensures Pow256(1) == 256 && Pow256(2) == 0x1_0000 && Pow256(4) == TWO_32 && Pow256(8) == TWO_64
  {
    assert Pow256(2) == 256 * Pow256(1);
    assert Pow256(4) == 256 * Pow256(3) && Pow256(3) == 256 * Pow256(2);
    assert Pow256(8) == 256 * Pow256(7) && Pow256(7) == 256 * Pow256(6);
    assert Pow256(6) == 256 * Pow256(5) && Pow256(5) == 256 * Pow256(4);
  }

  /** Two's complement, as i64::to_le_bytes. */
  function I64ToLe(v: int): (b: seq<Byte>)
    requires -(TWO_64 / 2) <= v < TWO_64 / 2
    ensures |b| == 8
  {
    ToLe(if v < 0 then v + TWO_64 else v, 8)
  }

  function I64FromLe(b: seq<Byte>): int {
    var n := FromLe(b);
    if n >= TWO_64 / 2 then n - TWO_64 else n
  }

  lemma I64RoundTrip(v: int)
    requires -(TWO_64 / 2) <= v < TWO_64 / 2
    ensures I64FromLe(I64ToLe(v)) == v
  {
    Widths();
    LeRoundTrip(if v < 0 then v + TWO_64 else v, 8);
  }
}
