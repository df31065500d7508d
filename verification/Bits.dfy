/** `bits::Align` and the little-endian layout of machine integers. */
module Bits {

  const SIZE_LIMIT: int := 0x1_0000_0000_0000_0000  // size_t is 64 bits wide
  const UINT32_LIMIT: int := 0x1_0000_0000
  const INT32_LIMIT: int := 0x8000_0000
  const INT64_LIMIT: int := 0x8000_0000_0000_0000

  type Byte = x: int | 0 <= x < 256
  type Uint16 = x: int | 0 <= x < 0x1_0000
  type Uint32 = x: int | 0 <= x < UINT32_LIMIT
  type Uint64 = x: int | 0 <= x < SIZE_LIMIT
  type Int32 = x: int | -INT32_LIMIT <= x < INT32_LIMIT
  type Int64 = x: int | -INT64_LIMIT <= x < INT64_LIMIT

  // ---------------------------------------------------------------- alignment

  /** Bitwise and. */
  function And(x: nat, y: nat): nat {
    if x == 0 || y == 0 then 0 else 2 * And(x / 2, y / 2) + if x % 2 == 1 && y % 2 == 1 then 1 else 0
  }

  /** `(size + alignment - 1) & ~(alignment - 1)` in 64-bit arithmetic. */
  function Align(size: nat, alignment: nat): nat
    requires 0 < alignment <= SIZE_LIMIT
  { And((size + alignment - 1) % SIZE_LIMIT, SIZE_LIMIT - 1 - (alignment - 1)) }

  function Pow2(n: nat): (p: nat)
    ensures p > 0
  { if n == 0 then 1 else 2 * Pow2(n - 1) }

  lemma {:induction false} Pow2Sum(a: nat, b: nat)
    ensures Pow2(a + b) == Pow2(a) * Pow2(b)
  {
    if a > 0 {
      Pow2Sum(a - 1, b);
      Twice(Pow2(a - 1), Pow2(b));
    }
  }

  lemma Twice(p: nat, q: nat)
    ensures (2 * p) * q == 2 * (p * q) == p * (2 * q)
  {}

  lemma Pow2Of64()
    ensures Pow2(64) == SIZE_LIMIT
  {
    assert Pow2(8) == 0x100;
    Pow2Sum(8, 8);
    Pow2Sum(16, 16);
    Pow2Sum(32, 32);
  }

  lemma {:induction false} AndOnes(x: nat, ones: nat)
    requires x < Pow2(ones)
    ensures And(x, Pow2(ones) - 1) == x
  {
    if x > 0 {
      var p := Pow2(ones - 1);
      assert (2 * p - 1) / 2 == p - 1 && (2 * p - 1) % 2 == 1;
      AndOnes(x / 2, ones - 1);
    }
  }

  lemma AndEven(x: nat, y: nat)
    ensures And(x, 2 * y) == 2 * And(x / 2, y)
  {
    assert 2 * y / 2 == y && 2 * y % 2 == 0;
  }

  /** Masking with ones above zeros keeps the multiple of a power of two that is at or below `x`. */
  lemma {:induction false} MaskDropsLowBits(x: nat, zeros: nat, ones: nat) returns (q: nat)
    requires x < Pow2(zeros + ones)
    ensures Pow2(zeros) <= Pow2(zeros + ones)
    ensures And(x, Pow2(zeros + ones) - Pow2(zeros)) == q * Pow2(zeros) <= x < q * Pow2(zeros) + Pow2(zeros)
  {
    if zeros == 0 {
      AndOnes(x, ones);
      q := x;
    } else {
      var p := Pow2(zeros - 1);
      q := MaskDropsLowBits(x / 2, zeros - 1, ones);
      Twice(q, p);
      AndEven(x, Pow2(zeros - 1 + ones) - p);
    }
  }

  /** Away from the top of the address range, `Align` is the multiple in `[size, size + 2^k)`. */
  lemma AlignToPowerOf2(size: nat, k: nat) returns (q: nat)
    requires k <= 64 && size + Pow2(k) <= SIZE_LIMIT
    ensures size <= Align(size, Pow2(k)) == q * Pow2(k) < size + Pow2(k)
  {
    var x := size + Pow2(k) - 1;
    Pow2Of64();
    assert x % SIZE_LIMIT == x;
    q := MaskDropsLowBits(x, k, 64 - k);
  }

  lemma AlignRoundsUp(size: nat, alignment: nat)
    requires alignment in {4, 64, 4096} && size + alignment <= SIZE_LIMIT
    ensures Align(size, alignment) % alignment == 0
    ensures size <= Align(size, alignment) < size + alignment
    ensures Align(size, alignment) == (size + alignment - 1) / alignment * alignment
  {
    var k := if alignment == 4 then 2 else if alignment == 64 then 6 else 12;
    assert Pow2(2) == 4 && Pow2(6) == 64 && Pow2(12) == 4096;
    var q := AlignToPowerOf2(size, k);
    IsMultiple(q, alignment, size);
  }

  lemma IsMultiple(q: nat, n: nat, size: nat)
    requires n in {4, 64, 4096} && size <= q * n < size + n
    ensures q * n % n == 0 && q == (size + n - 1) / n
  {}

  // ---------------------------------------------------------------- bytes

  function Pow256(n: nat): nat { if n == 0 then 1 else 256 * Pow256(n - 1) }

  /** Byte `i` of `v`, counted from the least significant. */
  function ByteAt(v: nat, i: nat): Byte { if i == 0 then v % 256 else ByteAt(v / 256, i - 1) }

  /** The low `n` bytes of `v`, least significant first. */
  function ToBytes(v: nat, n: nat): (b: seq<Byte>)
    ensures |b| == n
  { seq(n, i requires 0 <= i < n => ByteAt(v, i)) }

  function FromBytes(b: seq<Byte>): (v: nat)
    ensures v < Pow256(|b|)
  {
    if b == [] then 0 else b[0] + 256 * FromBytes(b[1..])
  }

  lemma Regroup(p: nat, x: nat)
    ensures 256 * (p * x) == (256 * p) * x
  {}

  /** Byte `i` is the digit of weight 256^i. */
  lemma {:induction false} ByteAtIsDigit(v: nat, i: nat) returns (low: nat, high: nat)
    ensures v == low + Pow256(i) * (ByteAt(v, i) + 256 * high) && low < Pow256(i)
    decreases i
  {
    if i == 0 {
      low, high := 0, v / 256;
    } else {
      low, high := ByteAtIsDigit(v / 256, i - 1);
      Regroup(Pow256(i - 1), ByteAt(v, i) + 256 * high);
      low := v % 256 + 256 * low;
    }
  }

  lemma {:induction false} BytesRoundTrip(v: nat, n: nat)
    requires v < Pow256(n)
    ensures FromBytes(ToBytes(v, n)) == v
  {
    if n > 0 {
      BytesRoundTrip(v / 256, n - 1);
      assert ToBytes(v, n)[1..] == ToBytes(v / 256, n - 1);
    }
  }

  lemma Widths()
    ensures Pow256(1) == 0x100 && Pow256(2) == 0x1_0000
    ensures Pow256(4) == UINT32_LIMIT && Pow256(8) == SIZE_LIMIT
  {
    assert Pow256(3) == 0x100_0000;
    assert Pow256(5) == 0x100_0000_0000;
    assert Pow256(6) == 0x1_0000_0000_0000;
    assert Pow256(7) == 0x100_0000_0000_0000;
  }
}
