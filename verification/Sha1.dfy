/**
 SHA-1. The first part is FIPS 180-3 (sections 4.1.1, 5.1.1 and 6.1.2) as functions;
 the second is the streaming implementation, whose block buffer `M` and message
 schedule `W` occupy the same memory.
 */
module Sha1 {
  import opened Bits
  import opened BlockHash

  // ---------------------------------------------------------------- FIPS 180-3

  datatype Regs = Regs(a: Word, b: Word, c: Word, d: Word, e: Word)

  const H0: Regs := Regs(0x67452301, 0xefcdab89, 0x98badcfe, 0x10325476, 0xc3d2e1f0)

  function Ch(x: Word, y: Word, z: Word): Word { (x & y) ^ (!x & z) }
  function Parity(x: Word, y: Word, z: Word): Word { x ^ y ^ z }
  function Maj(x: Word, y: Word, z: Word): Word { (x & y) ^ (x & z) ^ (y & z) }

  function StandardF(t: nat, x: Word, y: Word, z: Word): Word {
    if t < 20 then Ch(x, y, z) else if t < 40 then Parity(x, y, z) else if t < 60 then Maj(x, y, z) else Parity(x, y, z)
  }

  const ROUND_CONSTANTS: seq<Word> := [0x5a827999, 0x6ed9eba1, 0x8f1bbcdc, 0xca62c1d6]

  /** One constant for each twenty rounds. */
  function StandardK(t: nat): Word { ROUND_CONSTANTS[if t < 80 then t / 20 else 3] }

  function Mixed(w3: Word, w8: Word, w14: Word, w16: Word): Word { CircularShift(w3 ^ w8 ^ w14 ^ w16, 1) }

  /** Word `t` of the message schedule of a block. */
  function Schedule(block: seq<Octet>, t: nat): Word
    requires |block| == BLOCK
  {
    if t < 16 then HighOrderFirst(block[4 * t], block[4 * t + 1], block[4 * t + 2], block[4 * t + 3])
    else Mixed(Schedule(block, t - 3), Schedule(block, t - 8), Schedule(block, t - 14), Schedule(block, t - 16))
  }

  function Temp(rotated: Word, f: Word, e: Word, k: Word, w: Word): Word { rotated + f + e + k + w }

  function Round(r: Regs, t: nat, w: Word): Regs {
    var temp := Temp(CircularShift(r.a, 5), StandardF(t, r.b, r.c, r.d), r.e, StandardK(t), w);
    Regs(temp, r.a, CircularShift(r.b, 30), r.c, r.d)
  }

  /** The working variables after `t` rounds. */
  function Rounds(h: Regs, block: seq<Octet>, t: nat): Regs
    requires |block| == BLOCK
  { if t == 0 then h else Round(Rounds(h, block, t - 1), t - 1, Schedule(block, t - 1)) }

  function Add(x: Word, y: Word): Word { x + y }

  function Sum(h: Regs, r: Regs): Regs {
    Regs(Add(h.a, r.a), Add(h.b, r.b), Add(h.c, r.c), Add(h.d, r.d), Add(h.e, r.e))
  }

  function Compress(h: Regs, block: seq<Octet>): Regs {
    if |block| == BLOCK then Sum(h, Rounds(h, block, 80)) else h
  }

  function BigOctets(w: Word): seq<Octet> { [Digit(w, 3), Digit(w, 2), Digit(w, 1), Digit(w, 0)] }

  /** The 64-bit length field, most significant octet first. */
  function LengthField(m: seq<Octet>): (f: seq<Octet>)
    ensures |f| == 8
  { BigLength(BitLength(m)) }

  function BigLength(n: nat): (f: seq<Octet>)
    ensures |f| == 8
  { seq(8, i requires 0 <= i < 8 => ByteAt(n, 7 - i) as bv8) }

  function Concat(words: seq<Word>): seq<Octet> {
    if words == [] then [] else BigOctets(words[0]) + Concat(words[1..])
  }

  function RegsOctets(h: Regs): seq<Octet> { Concat([h.a, h.b, h.c, h.d, h.e]) }

  function Digest(m: seq<Octet>): seq<Octet> { RegsOctets(Fold(Compress, H0, Padded(m, LengthField(m)))) }

  // ---------------------------------------------------------------- sha1.cc

  function F(t: nat, b: Word, c: Word, d: Word): Word {
    if t < 20 then (b & c) | ((!b) & d)
    else if t < 40 then b ^ c ^ d
    else if t < 60 then (b & c) | (b & d) | (c & d)
    else b ^ c ^ d
  }

  function K(t: nat): Word {
    if t < 20 then 0x5a827999 else if t < 40 then 0x6ed9eba1 else if t < 60 then 0x8f1bbcdc else 0xca62c1d6
  }

  /** The right-hand side of `TEMP` with its summands in the order of the source. */
  function CodedTemp(rotated: Word, f: Word, e: Word, w: Word, k: Word): Word { rotated + f + e + w + k }

  /** A 64-bit sum of a counter and 8. */
  function Wrapped(n: nat): nat
    requires n < SIZE_LIMIT + 8
  { if n < SIZE_LIMIT then n else n - SIZE_LIMIT }

  function ByteSwap(w: Word): Word {
    ((w & 0xff) << 24) | ((w & 0xff00) << 8) | ((w & 0xff0000) >> 8) | ((w & 0xff000000) >> 24)
  }

  /** `M[k] = b` seen as a change of the word the octet lies in. */
  function SetOctet(w: Word, k: nat, b: Octet): Word
    requires k < 4
  {
    if k == 0 then (w & !0xff) | (b as bv32)
    else if k == 1 then (w & !0xff00) | ((b as bv32) << 8)
    else if k == 2 then (w & !0xff0000) | ((b as bv32) << 16)
    else (w & !0xff000000) | ((b as bv32) << 24)
  }

  lemma SetOctet0(w: Word, b: Octet)
    ensures var v := (w & !0xff) | (b as bv32);
            && OctetOf(v, 0) == b && OctetOf(v, 1) == OctetOf(w, 1)
            && OctetOf(v, 2) == OctetOf(w, 2) && OctetOf(v, 3) == OctetOf(w, 3)
  {}
  lemma SetOctet1(w: Word, b: Octet)
    ensures var v := (w & !0xff00) | ((b as bv32) << 8);
            && OctetOf(v, 0) == OctetOf(w, 0) && OctetOf(v, 1) == b
            && OctetOf(v, 2) == OctetOf(w, 2) && OctetOf(v, 3) == OctetOf(w, 3)
  {}
  lemma SetOctet2(w: Word, b: Octet)
    ensures var v := (w & !0xff0000) | ((b as bv32) << 16);
            && OctetOf(v, 0) == OctetOf(w, 0) && OctetOf(v, 1) == OctetOf(w, 1)
            && OctetOf(v, 2) == b && OctetOf(v, 3) == OctetOf(w, 3)
  {}
  lemma SetOctet3(w: Word, b: Octet)
    ensures var v := (w & !0xff000000) | ((b as bv32) << 24);
            && OctetOf(v, 0) == OctetOf(w, 0) && OctetOf(v, 1) == OctetOf(w, 1)
            && OctetOf(v, 2) == OctetOf(w, 2) && OctetOf(v, 3) == b
  {}

  lemma SetsFirst(w: Word, b: Octet, j: nat)
    requires j < 4
    ensures OctetOf(SetOctet(w, 0, b), j) == if j == 0 then b else OctetOf(w, j)
  { SetOctet0(w, b); }
  lemma SetsSecond(w: Word, b: Octet, j: nat)
    requires j < 4
    ensures OctetOf(SetOctet(w, 1, b), j) == if j == 1 then b else OctetOf(w, j)
  { SetOctet1(w, b); }
  lemma SetsThird(w: Word, b: Octet, j: nat)
    requires j < 4
    ensures OctetOf(SetOctet(w, 2, b), j) == if j == 2 then b else OctetOf(w, j)
  { SetOctet2(w, b); }
  lemma SetsFourth(w: Word, b: Octet, j: nat)
    requires j < 4
    ensures OctetOf(SetOctet(w, 3, b), j) == if j == 3 then b else OctetOf(w, j)
  { SetOctet3(w, b); }

  /** The octet set is the new one and the others stay. */
  lemma SetOctetSets(w: Word, k: nat, b: Octet, j: nat)
    requires k < 4 && j < 4
    ensures OctetOf(SetOctet(w, k, b), j) == if j == k then b else OctetOf(w, j)
  {
    SetsFirst(w, b, j); SetsSecond(w, b, j); SetsThird(w, b, j); SetsFourth(w, b, j);
  }

  lemma ChByOr(x: Word, y: Word, z: Word) ensures (x & y) | ((!x) & z) == Ch(x, y, z) {}
  lemma MajByOr(x: Word, y: Word, z: Word) ensures (x & y) | (x & z) | (y & z) == Maj(x, y, z) {}
  lemma SwapSummands(rotated: Word, f: Word, e: Word, k: Word, w: Word)
    ensures CodedTemp(rotated, f, e, w, k) == Temp(rotated, f, e, k, w)
  {}

  /** The implementation's `f` joins with "or" where the standard adds modulo two. */
  lemma FMatchesStandard(t: nat, b: Word, c: Word, d: Word)
    ensures F(t, b, c, d) == StandardF(t, b, c, d)
  {
    if t < 20 { ChByOr(b, c, d); } else if 40 <= t < 60 { MajByOr(b, c, d); }
  }

  lemma ByteSwapIsLittleWord(w: Word, b0: Octet, b1: Octet, b2: Octet, b3: Octet)
    requires OctetOf(w, 0) == b0 && OctetOf(w, 1) == b1 && OctetOf(w, 2) == b2 && OctetOf(w, 3) == b3
    ensures ByteSwap(w) == LittleWord(b3, b2, b1, b0)
  {}

  lemma ByteSwapIsBigEndian(w: Word, b0: Octet, b1: Octet, b2: Octet, b3: Octet)
    requires OctetOf(w, 0) == b0 && OctetOf(w, 1) == b1 && OctetOf(w, 2) == b2 && OctetOf(w, 3) == b3
    ensures ByteSwap(w) == HighOrderFirst(b0, b1, b2, b3)
  {
    ByteSwapIsLittleWord(w, b0, b1, b2, b3);
    LittleWordIsLowOrderFirst(b3, b2, b1, b0);
  }

  lemma KMatchesStandard(t: nat)
    ensures K(t) == StandardK(t)
  {}

  /** The loop body of step b. */
  function CodedMixed(w3: Word, w8: Word, w14: Word, w16: Word): Word { RotateLeft(w3 ^ w8 ^ w14 ^ w16, 1) }

  lemma MixedMatches(w3: Word, w8: Word, w14: Word, w16: Word)
    ensures CodedMixed(w3, w8, w14, w16) == Mixed(w3, w8, w14, w16)
  {
    Rotate1(w3 ^ w8 ^ w14 ^ w16);
  }

  /** `H0 += A` and so on. */
  function CodedAdd(h: Word, x: Word): Word { h + x }

  lemma AddMatches(h: Word, x: Word) ensures CodedAdd(h, x) == Add(h, x) {}

  lemma TempMatchesRound(r: Regs, t: nat, w: Word)
    ensures CodedTemp(RotateLeft(r.a, 5), F(t, r.b, r.c, r.d), r.e, w, K(t)) == Round(r, t, w).a
    ensures RotateLeft(r.b, 30) == Round(r, t, w).c
  {
    FMatchesStandard(t, r.b, r.c, r.d);
    KMatchesStandard(t);
    Rotate5(r.a);
    Rotate30(r.b);
    SwapSummands(RotateLeft(r.a, 5), F(t, r.b, r.c, r.d), r.e, K(t), w);
  }

  lemma MemoryUpdate(words: seq<Word>, i: nat, b: Octet)
    requires i < 4 * |words|
    ensures Memory(words[i / 4 := SetOctet(words[i / 4], i % 4, b)]) == Memory(words)[i := b]
  {
    var changed := words[i / 4 := SetOctet(words[i / 4], i % 4, b)];
    forall j | 0 <= j < 4 * |words| ensures Memory(changed)[j] == Memory(words)[i := b][j] {
      if j / 4 == i / 4 { SetOctetSets(words[i / 4], i % 4, b, j % 4); }
    }
  }

  /** Swapping the octets of a word in a block gives the block's big-endian word. */
  lemma SwappedWord(words: seq<Word>, t: nat)
    requires |words| == 16 && t < 16
    ensures ByteSwap(words[t]) == Schedule(Memory(words), t)
  {
    var m := Memory(words);
    MemoryAt(words, t);
    ByteSwapIsBigEndian(words[t], m[4 * t], m[4 * t + 1], m[4 * t + 2], m[4 * t + 3]);
  }

  lemma FoldedDigest(compress: (Regs, seq<Octet>) -> Regs, m: seq<Octet>, h: Regs)
    requires Agree(compress, Compress) && h == Fold(compress, H0, Padded(m, LengthField(m)))
    ensures RegsOctets(h) == Digest(m)
  {
    FoldAgrees(compress, Compress, H0, Padded(m, LengthField(m)));
  }

  lemma ByteSwapReverses(w: Word, v: Word)
    requires v == ByteSwap(w)
    ensures OctetOf(v, 0) == OctetOf(w, 3) && OctetOf(v, 1) == OctetOf(w, 2)
    ensures OctetOf(v, 2) == OctetOf(w, 1) && OctetOf(v, 3) == OctetOf(w, 0)
  {}

  /** Five swapped words in memory are the five words in big-endian order. */
  lemma {:induction false} MemoryOfSwapped(words: seq<Word>, swapped: seq<Word>)
    requires |swapped| == |words| && forall t :: 0 <= t < |words| ==> swapped[t] == ByteSwap(words[t])
    ensures Memory(swapped) == Concat(words)
  {
    if words != [] {
      MemoryOfSwapped(words[1..], swapped[1..]);
      ByteSwapReverses(words[0], swapped[0]);
      OctetsAreDigits(words[0]);
      MemoryAt(swapped, 0);
      assert Memory(swapped)[4..] == Memory(swapped[1..]);
      assert Memory(swapped)[..4] == BigOctets(words[0]);
    }
  }

  class SecureHashAlgorithm {
    var A: Word
    var B: Word
    var C: Word
    var D: Word
    var E: Word
    const H: array<Word>
    const W: array<Word>   // M[64] is the same memory as W[0..16]
    var cursor: nat
    var l: nat             // length in bits, 64 bits wide
    ghost var stream: seq<Octet>  // every octet put into M since Init
    ghost var blocks: nat         // how many blocks of it were processed
    ghost var wraps: nat          // how often l wrapped
    ghost const compress: (Regs, seq<Octet>) -> Regs

    /** The block buffer `M`. */
    ghost function M(): (m: seq<Octet>)
      requires W.Length == 80
      reads W
      ensures |m| == BLOCK
    { Memory(W[..16]) }

    ghost function State(): Regs
      requires H.Length == 5
      reads H
    { Regs(H[0], H[1], H[2], H[3], H[4]) }

    /** Whole blocks of the stream are hashed, the rest lies in M below the cursor. */
    ghost predicate Absorbing()
      reads this, H, W
    {
      && H.Length == 5 && W.Length == 80 && H != W
      && cursor <= BLOCK && |stream| == 64 * blocks + cursor
      && M()[..cursor] == stream[64 * blocks..]
      && State() == Fold(compress, H0, stream[..64 * blocks])
      && Agree(compress, Compress)
    }

    /** Between calls: there is room in the block and `l` counts the stream's bits. */
    ghost predicate Valid()
      reads this, H, W
    { Absorbing() && cursor < BLOCK && l < SIZE_LIMIT && 8 * |stream| == l + 0x1_0000_0000_0000_0000 * wraps }

    constructor ()
      ensures Valid() && stream == [] && fresh(H) && fresh(W)
    {
      A, B, C, D, E := 0, 0, 0, 0, 0;
      H := new Word[5];
      W := new Word[80];
      cursor, l := 0, 0;
      stream, blocks, wraps := [], 0, 0;
      compress := Compress;
      new;
      Init();
    }

    method Init()
      requires H.Length == 5 && W.Length == 80 && H != W && Agree(compress, Compress)
      modifies this, H
      ensures Valid() && stream == []
    {
      A, B, C, D, E := 0, 0, 0, 0, 0;
      cursor, l := 0, 0;
      H[0], H[1], H[2], H[3], H[4] := 0x67452301, 0xefcdab89, 0x98badcfe, 0x10325476, 0xc3d2e1f0;
      stream, blocks, wraps := [], 0, 0;
    }

    /** `M[cursor++] = b` */
    method Put(b: Octet)
      requires Absorbing() && cursor < BLOCK
      modifies this`cursor, this`stream, W
      ensures Absorbing() && cursor == old(cursor) + 1 && stream == old(stream) + [b]
    {
      MemoryUpdate(W[..16], cursor, b);
      W[cursor / 4] := SetOctet(W[cursor / 4], cursor % 4, b);
      assert W[..16] == old(W[..16])[cursor / 4 := W[cursor / 4]];
      assert M()[..cursor + 1] == old(M())[..cursor] + [b];
      cursor := cursor + 1;
      stream := stream + [b];
      assert stream[..64 * blocks] == old(stream[..64 * blocks]);
      assert stream[64 * blocks..] == old(stream[64 * blocks..]) + [b];
    }

    /** Step a: the block's octets become big-endian words in place. */
    method SwapBlock()
      requires W.Length == 80
      modifies W
      ensures forall t :: 0 <= t < 16 ==> W[t] == Schedule(old(M()), t)
    {
      ghost var words, block := W[..16], M();
      for t := 0 to 16
        invariant forall u :: 0 <= u < t ==> W[u] == Schedule(block, u)
        invariant forall u :: t <= u < 16 ==> W[u] == words[u]
      {
        SwappedWord(words, t);
        assert block == Memory(words) && W[t] == words[t];
        W[t] := ByteSwap(W[t]);
      }
    }

    /** Step b: the rest of the schedule. */
    method Expand(ghost block: seq<Octet>)
      requires W.Length == 80 && |block| == BLOCK && forall t :: 0 <= t < 16 ==> W[t] == Schedule(block, t)
      modifies W
      ensures forall t :: 0 <= t < 80 ==> W[t] == Schedule(block, t)
    {
      for t := 16 to 80
        invariant forall u :: 0 <= u < t ==> W[u] == Schedule(block, u)
      {
        MixedMatches(W[t - 3], W[t - 8], W[t - 14], W[t - 16]);
        W[t] := CodedMixed(W[t - 3], W[t - 8], W[t - 14], W[t - 16]);
      }
    }

    /** Steps c and d: eighty rounds. */
    method Run(ghost block: seq<Octet>)
      requires H.Length == 5 && W.Length == 80 && H != W
      requires |block| == BLOCK && forall t :: 0 <= t < 80 ==> W[t] == Schedule(block, t)
      modifies this`A, this`B, this`C, this`D, this`E
      ensures Regs(A, B, C, D, E) == Rounds(State(), block, 80)
    {
      A, B, C, D, E := H[0], H[1], H[2], H[3], H[4];
      for t := 0 to 80
        invariant Regs(A, B, C, D, E) == Rounds(State(), block, t)
      {
        TempMatchesRound(Regs(A, B, C, D, E), t, W[t]);
        var temp := CodedTemp(RotateLeft(A, 5), F(t, B, C, D), E, W[t], K(t));
        E, D, C, B, A := D, C, RotateLeft(B, 30), A, temp;
      }
    }

    /** Steps a to e: one application of the compression function to the block in M. */
    method CompressBlock()
      requires H.Length == 5 && W.Length == 80 && H != W && Agree(compress, Compress)
      modifies this`A, this`B, this`C, this`D, this`E, H, W
      ensures State() == compress(old(State()), old(M()))
    {
      ghost var h, block := State(), M();
      SwapBlock();
      Expand(block);
      Run(block);
      AddState();
      assert State() == Compress(h, block);
      assert Mark(h, block);
    }

    /** Step e. */
    method AddState()
      requires H.Length == 5
      modifies H
      ensures State() == Sum(old(State()), Regs(A, B, C, D, E))
    {
      AddMatches(H[0], A);
      AddMatches(H[1], B);
      AddMatches(H[2], C);
      AddMatches(H[3], D);
      AddMatches(H[4], E);
      H[0] := CodedAdd(H[0], A);
      H[1] := CodedAdd(H[1], B);
      H[2] := CodedAdd(H[2], C);
      H[3] := CodedAdd(H[3], D);
      H[4] := CodedAdd(H[4], E);
    }

    method Process()
      requires Absorbing() && cursor == BLOCK
      modifies this`A, this`B, this`C, this`D, this`E, this`cursor, this`blocks, H, W
      ensures Absorbing() && cursor == 0
    {
      ghost var done := stream[..64 * blocks];
      assert M()[..BLOCK] == M();
      FoldBlock(compress, H0, done, M());
      assert done + M() == stream == stream[..|stream|];
      CompressBlock();
      cursor := 0;
      blocks := blocks + 1;
    }

    /** The loop body of `Update`. */
    method UpdateOctet(b: Octet)
      requires Valid()
      modifies this, H, W
      ensures Valid() && stream == old(stream) + [b]
    {
      Put(b);
      if cursor >= BLOCK { Process(); }
      l, wraps := Wrapped(l + 8), if l + 8 < SIZE_LIMIT then wraps else wraps + 1;
    }

    method Update(data: seq<Octet>)
      requires Valid()
      modifies this, H, W
      ensures Valid() && stream == old(stream) + data
    {
      ghost var m := stream;
      var d := 0;
      while d < |data|
        invariant 0 <= d <= |data| && Valid() && stream == m + data[..d]
      {
        assert data[..d + 1] == data[..d] + [data[d]];
        UpdateOctet(data[d]);
        d := d + 1;
      }
    }

    /** Zeros up to `limit`. */
    method PutZeros(limit: nat)
      requires Absorbing() && cursor <= limit <= BLOCK
      modifies this`cursor, this`stream, W
      ensures Absorbing() && cursor == limit && stream == old(stream) + Zeros(limit - old(cursor))
    {
      while cursor < limit
        invariant Absorbing() && old(cursor) <= cursor <= limit
        invariant stream == old(stream) + Zeros(cursor - old(cursor))
      {
        Put(0);
      }
    }

    /** The one bit and the zeros: pads out to the next block first when the length does not fit. */
    method PadToLength()
      requires Absorbing() && cursor < BLOCK
      modifies this, H, W
      ensures Absorbing() && cursor == BLOCK - 8 && l == old(l)
      ensures stream == old(stream) + [0x80] + Zeros(ZeroCount(|old(stream)|))
    {
      ghost var m, used := stream, cursor;
      ZeroCountInBlock(|m|, blocks, used);
      Put(0x80);
      if cursor > BLOCK - 8 {
        PadOutBlock(m + [0x80]);
        AppendZeros(m + [0x80], BLOCK - used - 1, BLOCK - 8);
      } else {
        PutZeros(BLOCK - 8);
      }
    }

    /** Zeros to the end of this block and then to the length field of the next. */
    method PadOutBlock(ghost start: seq<Octet>)
      requires Absorbing() && stream == start
      modifies this, H, W
      ensures Absorbing() && cursor == BLOCK - 8 && l == old(l)
      ensures stream == start + Zeros(BLOCK - old(cursor)) + Zeros(BLOCK - 8)
    {
      PutZeros(BLOCK);
      Process();
      PutZeros(BLOCK - 8);
    }

    method Pad()
      requires Valid()
      modifies this, H, W
      ensures Absorbing() && cursor == BLOCK && stream == Padded(old(stream), LengthField(old(stream)))
    {
      CountedBits(stream, l, wraps);
      PadToLength();
      PutLength();
    }

    /** Octet `k` of the length field. */
    method PutLengthOctet(k: nat, ghost start: seq<Octet>)
      requires Absorbing() && k < 8 && cursor == BLOCK - 8 + k && stream == start + BigLength(l)[..k]
      modifies this`cursor, this`stream, W
      ensures Absorbing() && cursor == BLOCK - 8 + k + 1 && stream == start + BigLength(l)[..k + 1]
    {
      ghost var field := BigLength(l);
      assert field[k] == ByteAt(l, 7 - k) as bv8;
      assert field[..k + 1] == field[..k] + [field[k]];
      Put(ByteAt(l, 7 - k) as bv8);
    }

    method PutLengthHalf(k: nat, ghost start: seq<Octet>)
      requires Absorbing() && k <= 4 && cursor == BLOCK - 8 + k && stream == start + BigLength(l)[..k]
      modifies this`cursor, this`stream, W
      ensures Absorbing() && cursor == BLOCK - 8 + k + 4 && stream == start + BigLength(l)[..k + 4]
    {
      PutLengthOctet(k, start);
      PutLengthOctet(k + 1, start);
      PutLengthOctet(k + 2, start);
      PutLengthOctet(k + 3, start);
    }

    method PutLength()
      requires Absorbing() && cursor == BLOCK - 8
      modifies this`cursor, this`stream, W
      ensures Absorbing() && cursor == BLOCK && stream == old(stream) + BigLength(l)
    {
      ghost var start := stream;
      assert stream == start + BigLength(l)[..0];
      PutLengthHalf(0, start);
      PutLengthHalf(4, start);
      assert BigLength(l)[..8] == BigLength(l);
    }

    /** Turns the state words to big-endian order in place and reads them as octets. */
    method SwapState() returns (digest: seq<Octet>)
      requires H.Length == 5
      modifies H
      ensures digest == RegsOctets(old(State()))
    {
      ghost var words := H[..];
      for t := 0 to 5
        invariant forall u :: 0 <= u < 5 ==> H[u] == if u < t then ByteSwap(words[u]) else words[u]
      {
        H[t] := ByteSwap(H[t]);
      }
      MemoryOfSwapped(words, H[..]);
      digest := Memory(H[..]);
      assert words == [words[0], words[1], words[2], words[3], words[4]];
    }

    /** Ends the computation; the digest is what `Digest()` points to afterwards. */
    method Final() returns (digest: seq<Octet>)
      requires Valid()
      modifies this, H, W
      ensures digest == Digest(old(stream))
    {
      Pad();
      Process();
      assert stream[..|stream|] == stream;
      FoldedDigest(compress, old(stream), State());
      digest := SwapState();
    }
  }

  /** One `Update` per chunk and `Final`: only the concatenation matters. */
  method HashChunks(chunks: seq<seq<Octet>>) returns (digest: seq<Octet>)
    ensures digest == Digest(Flatten(chunks))
  {
    var sha := new SecureHashAlgorithm();
    for i := 0 to |chunks|
      invariant sha.Valid() && fresh(sha) && fresh(sha.H) && fresh(sha.W)
      invariant sha.stream == Flatten(chunks[..i])
    {
      assert chunks[..i + 1][..i] == chunks[..i];
      sha.Update(chunks[i]);
    }
    assert chunks[..|chunks|] == chunks;
    digest := sha.Final();
  }
}
