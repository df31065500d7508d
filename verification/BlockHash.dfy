/**
 What MD5 and SHA-1 share: words made of octets, the padding rule and the fold of a
 compression function over 64-octet blocks.
 */
module BlockHash {
  import opened Bits

  type Octet = bv8
  type Word = bv32

  const BLOCK: nat := 64

  // ---------------------------------------------------------------- words and octets of the standards

  /** Four octets as a word, low-order octet first. */
  function LowOrderFirst(b0: Octet, b1: Octet, b2: Octet, b3: Octet): Word {
    (b0 as bv32) + 0x100 * (b1 as bv32) + 0x1_0000 * (b2 as bv32) + 0x100_0000 * (b3 as bv32)
  }

  function HighOrderFirst(b0: Octet, b1: Octet, b2: Octet, b3: Octet): Word { LowOrderFirst(b3, b2, b1, b0) }

  /** Digit `k` of a word to the base 256. */
  function Digit(w: Word, k: nat): Octet
    requires k < 4
  {
    if k == 0 then (w % 0x100) as bv8
    else if k == 1 then (w / 0x100 % 0x100) as bv8
    else if k == 2 then (w / 0x1_0000 % 0x100) as bv8
    else (w / 0x100_0000 % 0x100) as bv8
  }

  function Turned(w: Word): Word { w.RotateLeft(1) }

  /** A word shifted circularly to the left by `n` places. */
  function CircularShift(w: Word, n: nat): Word { if n == 0 then w else Turned(CircularShift(w, n - 1)) }

  // ---------------------------------------------------------------- words and octets of the host

  /** Octet `k` of a word in the memory of a little-endian host. */
  function OctetOf(w: Word, k: nat): Octet
    requires k < 4
  {
    if k == 0 then (w & 0xff) as bv8
    else if k == 1 then ((w >> 8) & 0xff) as bv8
    else if k == 2 then ((w >> 16) & 0xff) as bv8
    else ((w >> 24) & 0xff) as bv8
  }

  /** The word that these octets in memory are. */
  function LittleWord(b0: Octet, b1: Octet, b2: Octet, b3: Octet): Word {
    (b0 as bv32) | ((b1 as bv32) << 8) | ((b2 as bv32) << 16) | ((b3 as bv32) << 24)
  }

  lemma OctetsOfLittleWord(b0: Octet, b1: Octet, b2: Octet, b3: Octet)
    ensures var w := LittleWord(b0, b1, b2, b3);
            OctetOf(w, 0) == b0 && OctetOf(w, 1) == b1 && OctetOf(w, 2) == b2 && OctetOf(w, 3) == b3
  {}

  lemma LittleWordIsLowOrderFirst(b0: Octet, b1: Octet, b2: Octet, b3: Octet)
    ensures LittleWord(b0, b1, b2, b3) == LowOrderFirst(b0, b1, b2, b3)
  {}

  lemma OctetsAreDigits(w: Word)
    ensures OctetOf(w, 0) == Digit(w, 0) && OctetOf(w, 1) == Digit(w, 1)
    ensures OctetOf(w, 2) == Digit(w, 2) && OctetOf(w, 3) == Digit(w, 3)
  {}

  /** The octets of consecutive words in memory. */
  function Memory(words: seq<Word>): (m: seq<Octet>)
    ensures |m| == 4 * |words|
  { seq(4 * |words|, i requires 0 <= i < 4 * |words| => OctetOf(words[i / 4], i % 4)) }

  lemma MemoryAt(words: seq<Word>, t: nat)
    requires t < |words|
    ensures var m, w := Memory(words), words[t];
            && m[4 * t] == OctetOf(w, 0) && m[4 * t + 1] == OctetOf(w, 1)
            && m[4 * t + 2] == OctetOf(w, 2) && m[4 * t + 3] == OctetOf(w, 3)
  {
    assert (4 * t + 1) / 4 == t && (4 * t + 2) / 4 == t && (4 * t + 3) / 4 == t;
  }

  // ---------------------------------------------------------------- rotation

  /** `w << s | w >> (32 - s)` */
  function RotateLeft(w: Word, s: Word): Word
    requires 0 < s < 32
  { (w << s) | (w >> (32 - s)) }

  // Two shifts joined by "or" are the circular shift, for every number of places.
  lemma Rotate1(w: Word) ensures RotateLeft(w, 1) == CircularShift(w, 1) { assert CircularShift(w, 0) == w; }
  lemma Rotate2(w: Word) ensures RotateLeft(w, 2) == CircularShift(w, 2) { Rotate1(w); }
  lemma Rotate3(w: Word) ensures RotateLeft(w, 3) == CircularShift(w, 3) { Rotate2(w); }
  lemma Rotate4(w: Word) ensures RotateLeft(w, 4) == CircularShift(w, 4) { Rotate3(w); }
  lemma Rotate5(w: Word) ensures RotateLeft(w, 5) == CircularShift(w, 5) { Rotate4(w); }
  lemma Rotate6(w: Word) ensures RotateLeft(w, 6) == CircularShift(w, 6) { Rotate5(w); }
  lemma Rotate7(w: Word) ensures RotateLeft(w, 7) == CircularShift(w, 7) { Rotate6(w); }
  lemma Rotate8(w: Word) ensures RotateLeft(w, 8) == CircularShift(w, 8) { Rotate7(w); }
  lemma Rotate9(w: Word) ensures RotateLeft(w, 9) == CircularShift(w, 9) { Rotate8(w); }
  lemma Rotate10(w: Word) ensures RotateLeft(w, 10) == CircularShift(w, 10) { Rotate9(w); }
  lemma Rotate11(w: Word) ensures RotateLeft(w, 11) == CircularShift(w, 11) { Rotate10(w); }
  lemma Rotate12(w: Word) ensures RotateLeft(w, 12) == CircularShift(w, 12) { Rotate11(w); }
  lemma Rotate13(w: Word) ensures RotateLeft(w, 13) == CircularShift(w, 13) { Rotate12(w); }
  lemma Rotate14(w: Word) ensures RotateLeft(w, 14) == CircularShift(w, 14) { Rotate13(w); }
  lemma Rotate15(w: Word) ensures RotateLeft(w, 15) == CircularShift(w, 15) { Rotate14(w); }
  lemma Rotate16(w: Word) ensures RotateLeft(w, 16) == CircularShift(w, 16) { Rotate15(w); }
  lemma Rotate17(w: Word) ensures RotateLeft(w, 17) == CircularShift(w, 17) { Rotate16(w); }
  lemma Rotate18(w: Word) ensures RotateLeft(w, 18) == CircularShift(w, 18) { Rotate17(w); }
  lemma Rotate19(w: Word) ensures RotateLeft(w, 19) == CircularShift(w, 19) { Rotate18(w); }
  lemma Rotate20(w: Word) ensures RotateLeft(w, 20) == CircularShift(w, 20) { Rotate19(w); }
  lemma Rotate21(w: Word) ensures RotateLeft(w, 21) == CircularShift(w, 21) { Rotate20(w); }
  lemma Rotate22(w: Word) ensures RotateLeft(w, 22) == CircularShift(w, 22) { Rotate21(w); }
  lemma Rotate23(w: Word) ensures RotateLeft(w, 23) == CircularShift(w, 23) { Rotate22(w); }
  lemma Rotate24(w: Word) ensures RotateLeft(w, 24) == CircularShift(w, 24) { Rotate23(w); }
  lemma Rotate25(w: Word) ensures RotateLeft(w, 25) == CircularShift(w, 25) { Rotate24(w); }
  lemma Rotate26(w: Word) ensures RotateLeft(w, 26) == CircularShift(w, 26) { Rotate25(w); }
  lemma Rotate27(w: Word) ensures RotateLeft(w, 27) == CircularShift(w, 27) { Rotate26(w); }
  lemma Rotate28(w: Word) ensures RotateLeft(w, 28) == CircularShift(w, 28) { Rotate27(w); }
  lemma Rotate29(w: Word) ensures RotateLeft(w, 29) == CircularShift(w, 29) { Rotate28(w); }
  lemma Rotate30(w: Word) ensures RotateLeft(w, 30) == CircularShift(w, 30) { Rotate29(w); }
  lemma Rotate31(w: Word) ensures RotateLeft(w, 31) == CircularShift(w, 31) { Rotate30(w); }

  /** Rotating by `s` is the circular shift by `n` places. */
  ghost predicate Turns(s: Word, n: nat) { 0 < s < 32 && forall w :: RotateLeft(w, s) == CircularShift(w, n) }

  // ---------------------------------------------------------------- padding

  function Zeros(n: nat): (z: seq<Octet>)
    ensures |z| == n
  { seq(n, _ => 0) }

  lemma AppendZeros(s: seq<Octet>, i: nat, j: nat)
    ensures s + Zeros(i) + Zeros(j) == s + Zeros(i + j)
  {}

  /** The least number of zero octets that takes `n + 1` octets to 56 modulo 64. */
  function ZeroCount(n: nat): (k: nat)
    ensures k < BLOCK && (n + 1 + k) % BLOCK == 56
  { (119 - n % BLOCK) % BLOCK }

  lemma ZeroCountIsUnique(n: nat, k: nat)
    requires k < BLOCK && (n + 1 + k) % BLOCK == 56
    ensures k == ZeroCount(n)
  {}

  /** After `used` octets of a block: to the length field of this block, or of the next. */
  lemma ZeroCountInBlock(n: nat, blocks: nat, used: nat)
    requires n == 64 * blocks + used && used < 64
    ensures ZeroCount(n) == if used > 55 then 119 - used else 55 - used
  {
    ZeroCountIsUnique(n, if used > 55 then 119 - used else 55 - used);
  }

  /** A message, a one bit, zeros, and the length field. */
  function Padded(m: seq<Octet>, lengthField: seq<Octet>): (p: seq<Octet>)
  { m + [0x80] + Zeros(ZeroCount(|m|)) + lengthField }

  /** The message length in bits, as far as 64 bits hold it. */
  function BitLength(m: seq<Octet>): nat { 8 * |m| % SIZE_LIMIT }

  // ---------------------------------------------------------------- folding

  /** `compress` over the 64-octet blocks of `s`, first block first; `s` is a number of whole blocks. */
  function Fold<H>(compress: (H, seq<Octet>) -> H, h: H, s: seq<Octet>): H {
    if |s| < BLOCK then h
    else compress(Fold(compress, h, s[..|s| - BLOCK]), s[|s| - BLOCK..])
  }

  lemma FoldBlock<H>(compress: (H, seq<Octet>) -> H, h: H, s: seq<Octet>, block: seq<Octet>)
    requires |block| == BLOCK
    ensures Fold(compress, h, s + block) == compress(Fold(compress, h, s), block)
  {
    assert (s + block)[..|s|] == s && (s + block)[|s|..] == block;
  }

  lemma FoldLast<H>(compress: (H, seq<Octet>) -> H, h: H, s: seq<Octet>, done: nat, block: seq<Octet>)
    requires |s| == done + BLOCK && block == s[done..]
    ensures Fold(compress, h, s) == compress(Fold(compress, h, s[..done]), block)
  {}

  // The streaming proofs treat the compression function as unknown: that it is the
  // standard's is a quantified fact which only a `Mark` brings into play.
  ghost predicate Mark<H>(h: H, block: seq<Octet>) { true }

  ghost predicate Agree<H(!new)>(f: (H, seq<Octet>) -> H, g: (H, seq<Octet>) -> H) {
    forall h, block {:trigger Mark(h, block)} :: Mark(h, block) ==> f(h, block) == g(h, block)
  }

  lemma {:induction false} FoldAgrees<H(!new)>(f: (H, seq<Octet>) -> H, g: (H, seq<Octet>) -> H, h: H, s: seq<Octet>)
    requires Agree(f, g)
    ensures Fold(f, h, s) == Fold(g, h, s)
  {
    if |s| >= BLOCK {
      FoldAgrees(f, g, h, s[..|s| - BLOCK]);
      assert Mark(Fold(f, h, s[..|s| - BLOCK]), s[|s| - BLOCK..]);
    }
  }

  /** A count that wrapped `wraps` times. */
  lemma CountedBits(m: seq<Octet>, count: nat, wraps: nat)
    requires count < SIZE_LIMIT && 8 * |m| == count + SIZE_LIMIT * wraps
    ensures BitLength(m) == count
  {}

  /** The concatenation of the chunks handed over one by one. */
  function Flatten(chunks: seq<seq<Octet>>): seq<Octet> {
    if chunks == [] then [] else Flatten(chunks[..|chunks| - 1]) + chunks[|chunks| - 1]
  }
}
