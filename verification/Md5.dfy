/**
 MD5. The first part is RFC 1321 (sections 3.1 to 3.5) as functions; the second is the
 streaming implementation with its two 32-bit bit counters and its 64-octet buffer on a
 little-endian host.
 */
module Md5 {
  import opened Bits
  import opened BlockHash

  // ---------------------------------------------------------------- RFC 1321

  datatype Regs = Regs(a: Word, b: Word, c: Word, d: Word)

  const H0: Regs := Regs(0x67452301, 0xefcdab89, 0x98badcfe, 0x10325476)

  function F(x: Word, y: Word, z: Word): Word { (x & y) | (!x & z) }
  function G(x: Word, y: Word, z: Word): Word { (x & z) | (y & !z) }
  function H(x: Word, y: Word, z: Word): Word { x ^ y ^ z }
  function I(x: Word, y: Word, z: Word): Word { y ^ (x | !z) }

  function Mix(round: nat, x: Word, y: Word, z: Word): Word {
    if round == 0 then F(x, y, z) else if round == 1 then G(x, y, z) else if round == 2 then H(x, y, z) else I(x, y, z)
  }

  // T[i] is the integer part of 4294967296 times abs(sin(i)), i in radians, from i = 1.
  const T1: seq<Word> := [
    0xd76aa478, 0xe8c7b756, 0x242070db, 0xc1bdceee,
    0xf57c0faf, 0x4787c62a, 0xa8304613, 0xfd469501,
    0x698098d8, 0x8b44f7af, 0xffff5bb1, 0x895cd7be,
    0x6b901122, 0xfd987193, 0xa679438e, 0x49b40821]
  const T2: seq<Word> := [
    0xf61e2562, 0xc040b340, 0x265e5a51, 0xe9b6c7aa,
    0xd62f105d, 0x02441453, 0xd8a1e681, 0xe7d3fbc8,
    0x21e1cde6, 0xc33707d6, 0xf4d50d87, 0x455a14ed,
    0xa9e3e905, 0xfcefa3f8, 0x676f02d9, 0x8d2a4c8a]
  const T3: seq<Word> := [
    0xfffa3942, 0x8771f681, 0x6d9d6122, 0xfde5380c,
    0xa4beea44, 0x4bdecfa9, 0xf6bb4b60, 0xbebfbc70,
    0x289b7ec6, 0xeaa127fa, 0xd4ef3085, 0x04881d05,
    0xd9d4d039, 0xe6db99e5, 0x1fa27cf8, 0xc4ac5665]
  const T4: seq<Word> := [
    0xf4292244, 0x432aff97, 0xab9423a7, 0xfc93a039,
    0x655b59c3, 0x8f0ccc92, 0xffeff47d, 0x85845dd1,
    0x6fa87e4f, 0xfe2ce6e0, 0xa3014314, 0x4e0811a1,
    0xf7537e82, 0xbd3af235, 0x2ad7d2bb, 0xeb86d391]

  function T(i: nat): Word
    requires i < 64
  { if i < 16 then T1[i] else if i < 32 then T2[i - 16] else if i < 48 then T3[i - 32] else T4[i - 48] }

  /** Which message word step `i` uses. */
  function Index(i: nat): (k: nat)
    ensures k < 16
  { if i < 16 then i else if i < 32 then (5 * i + 1) % 16 else if i < 48 then (3 * i + 5) % 16 else 7 * i % 16 }

  /** How far step `i` rotates; `j` counts modulo four. */
  function Shift(round: nat, j: nat): (s: nat)
    requires j < 4
    ensures 0 < s < 32
  {
    if round == 0 then [7, 12, 17, 22][j]
    else if round == 1 then [5, 9, 14, 20][j]
    else if round == 2 then [4, 11, 16, 23][j]
    else [6, 10, 15, 21][j]
  }

  function Add(x: Word, y: Word): Word { x + y }
  function Sum4(a: Word, f: Word, x: Word, t: Word): Word { a + f + x + t }

  /** `a = b + ((a + f + X[k] + T[i]) <<< s)`, and the roles of the registers move on. */
  function Turn(round: nat, j: nat, r: Regs, x: Word, t: Word): Regs
    requires j < 4
  {
    Regs(r.d, Add(r.b, CircularShift(Sum4(r.a, Mix(round, r.b, r.c, r.d), x, t), Shift(round, j))), r.b, r.c)
  }

  /** The registers after the first `n` of the 64 steps. */
  function Steps(r: Regs, x: seq<Word>, n: nat): Regs
    requires |x| == 16 && n <= 64
  {
    if n == 0 then r
    else Turn((n - 1) / 16, (n - 1) % 4, Steps(r, x, n - 1), x[Index(n - 1)], T(n - 1))
  }

  function Sum(h: Regs, r: Regs): Regs { Regs(Add(h.a, r.a), Add(h.b, r.b), Add(h.c, r.c), Add(h.d, r.d)) }

  /** The sixteen little-endian words of a block. */
  function Words(block: seq<Octet>): (x: seq<Word>)
    requires |block| == BLOCK
    ensures |x| == 16
  {
    seq(16, i requires 0 <= i < 16 => LowOrderFirst(block[4 * i], block[4 * i + 1], block[4 * i + 2], block[4 * i + 3]))
  }

  function Compress(h: Regs, block: seq<Octet>): Regs {
    if |block| == BLOCK then Sum(h, Steps(h, Words(block), 64)) else h
  }

  /** The 64-bit length field, least significant octet first. */
  function LengthField(m: seq<Octet>): (f: seq<Octet>)
    ensures |f| == 8
  { LittleLength(BitLength(m)) }

  function LittleLength(n: nat): (f: seq<Octet>)
    ensures |f| == 8
  { seq(8, i requires 0 <= i < 8 => ByteAt(n, i) as bv8) }

  function LittleOctets(w: Word): seq<Octet> { [Digit(w, 0), Digit(w, 1), Digit(w, 2), Digit(w, 3)] }

  function RegsOctets(h: Regs): seq<Octet> {
    LittleOctets(h.a) + LittleOctets(h.b) + LittleOctets(h.c) + LittleOctets(h.d)
  }

  function Digest(m: seq<Octet>): seq<Octet> { RegsOctets(Fold(Compress, H0, Padded(m, LengthField(m)))) }

  // ---------------------------------------------------------------- md5.cc: MD5Transform

  function F1(x: Word, y: Word, z: Word): Word { z ^ (x & (y ^ z)) }
  function F2(x: Word, y: Word, z: Word): Word { F1(z, x, y) }
  function F3(x: Word, y: Word, z: Word): Word { x ^ y ^ z }
  function F4(x: Word, y: Word, z: Word): Word { y ^ (x | !z) }

  function CodedMix(round: nat, x: Word, y: Word, z: Word): Word {
    if round == 0 then F1(x, y, z) else if round == 1 then F2(x, y, z)
    else if round == 2 then F3(x, y, z) else F4(x, y, z)
  }

  lemma SelectByXor(x: Word, y: Word, z: Word) ensures F1(x, y, z) == (x & y) | (!x & z) {}
  lemma SelectSwapped(x: Word, y: Word, z: Word) ensures F1(z, x, y) == (x & z) | (y & !z) {}
  lemma F1IsF(x: Word, y: Word, z: Word) ensures F1(x, y, z) == F(x, y, z) { SelectByXor(x, y, z); }
  lemma F2IsG(x: Word, y: Word, z: Word) ensures F2(x, y, z) == G(x, y, z) { SelectSwapped(x, y, z); }
  lemma F3IsH(x: Word, y: Word, z: Word) ensures F3(x, y, z) == H(x, y, z) {}
  lemma F4IsI(x: Word, y: Word, z: Word) ensures F4(x, y, z) == I(x, y, z) {}

  /** The optimised auxiliary functions are those of the standard. */
  lemma MixMatches(round: nat, x: Word, y: Word, z: Word)
    ensures CodedMix(round, x, y, z) == Mix(round, x, y, z)
  {
    F1IsF(x, y, z);
    F2IsG(x, y, z);
    F3IsH(x, y, z);
    F4IsI(x, y, z);
  }

  /** `w + (f(x, y, z) + (in[k] + constant))` */
  function CodedSum(w: Word, f: Word, x: Word, t: Word): Word { w + (f + (x + t)) }

  lemma SumMatches(w: Word, f: Word, x: Word, t: Word) ensures CodedSum(w, f, x, t) == Sum4(w, f, x, t) {}

  /** `w += x` */
  function CodedAdd(w: Word, x: Word): Word { w + x }

  lemma AddMatches(w: Word, x: Word) ensures CodedAdd(w, x) == Add(x, w) == Add(w, x) {}

  /** The macro `MD5STEP` with data `in[k] + constant`: the new value of `w`. */
  function Md5Step(f: Word, w: Word, x: Word, data: Word, constant: Word, s: Word): Word
    requires 0 < s < 32
  { CodedAdd(RotateLeft(CodedSum(w, f, data, constant), s), x) }

  lemma StepMatches(round: nat, j: nat, r: Regs, x: Word, t: Word, s: Word)
    requires j < 4 && Turns(s, Shift(round, j))
    ensures Md5Step(CodedMix(round, r.b, r.c, r.d), r.a, r.b, x, t, s) == Turn(round, j, r, x, t).b
  {
    var sum := Sum4(r.a, Mix(round, r.b, r.c, r.d), x, t);
    MixMatches(round, r.b, r.c, r.d);
    SumMatches(r.a, Mix(round, r.b, r.c, r.d), x, t);
    assert RotateLeft(sum, s) == CircularShift(sum, Shift(round, j));
    AddMatches(RotateLeft(sum, s), r.b);
  }

  function FourTurns(round: nat, r: Regs, x0: Word, t0: Word, x1: Word, t1: Word,
                     x2: Word, t2: Word, x3: Word, t3: Word): Regs
  {
    Turn(round, 3, Turn(round, 2, Turn(round, 1, Turn(round, 0, r, x0, t0), x1, t1), x2, t2), x3, t3)
  }

  /** The rotation counts of four consecutive lines are the standard's. */
  ghost predicate Rotates(round: nat, s0: Word, s1: Word, s2: Word, s3: Word) {
    && Turns(s0, Shift(round, 0)) && Turns(s1, Shift(round, 1))
    && Turns(s2, Shift(round, 2)) && Turns(s3, Shift(round, 3))
  }

  /** Four consecutive `MD5STEP` lines of one round. */
  method FourSteps(round: nat, r: Regs, x0: Word, t0: Word, x1: Word, t1: Word, x2: Word, t2: Word, x3: Word, t3: Word,
                   s0: Word, s1: Word, s2: Word, s3: Word) returns (r': Regs)
    requires Rotates(round, s0, s1, s2, s3)
    ensures r' == FourTurns(round, r, x0, t0, x1, t1, x2, t2, x3, t3)
  {
    var a, b, c, d := r.a, r.b, r.c, r.d;
    StepMatches(round, 0, Regs(a, b, c, d), x0, t0, s0);
    a := Md5Step(CodedMix(round, b, c, d), a, b, x0, t0, s0);
    StepMatches(round, 1, Regs(d, a, b, c), x1, t1, s1);
    d := Md5Step(CodedMix(round, a, b, c), d, a, x1, t1, s1);
    StepMatches(round, 2, Regs(c, d, a, b), x2, t2, s2);
    c := Md5Step(CodedMix(round, d, a, b), c, d, x2, t2, s2);
    StepMatches(round, 3, Regs(b, c, d, a), x3, t3, s3);
    b := Md5Step(CodedMix(round, c, d, a), b, c, x3, t3, s3);
    r' := Regs(a, b, c, d);
  }

  lemma StepsByFour(r: Regs, x: seq<Word>, n: nat)
    requires |x| == 16 && n % 4 == 0 && n + 4 <= 64
    ensures Steps(r, x, n + 4) ==
            FourTurns(n / 16, Steps(r, x, n), x[Index(n)], T(n), x[Index(n + 1)], T(n + 1),
                      x[Index(n + 2)], T(n + 2), x[Index(n + 3)], T(n + 3))
  {
    assert (n + 1) / 16 == (n + 2) / 16 == (n + 3) / 16 == n / 16;
    assert (n + 1) % 4 == 1 && (n + 2) % 4 == 2 && (n + 3) % 4 == 3;
    assert Steps(r, x, n + 1) == Turn(n / 16, 0, Steps(r, x, n), x[Index(n)], T(n));
    assert Steps(r, x, n + 2) == Turn(n / 16, 1, Steps(r, x, n + 1), x[Index(n + 1)], T(n + 1));
    assert Steps(r, x, n + 3) == Turn(n / 16, 2, Steps(r, x, n + 2), x[Index(n + 2)], T(n + 2));
    assert Steps(r, x, n + 4) == Turn(n / 16, 3, Steps(r, x, n + 3), x[Index(n + 3)], T(n + 3));
  }

  /** The message words and constants that the four lines from step `n` on use. */
  predicate Uses(n: nat, k0: nat, t0: Word, k1: nat, t1: Word, k2: nat, t2: Word, k3: nat, t3: Word)
    requires n + 4 <= 64
  {
    && k0 == Index(n) && k1 == Index(n + 1) && k2 == Index(n + 2) && k3 == Index(n + 3)
    && t0 == T(n) && t1 == T(n + 1) && t2 == T(n + 2) && t3 == T(n + 3)
  }

  method Four(ghost h: Regs, n: nat, round: nat, r: Regs, x: seq<Word>, k0: nat, t0: Word, k1: nat, t1: Word,
              k2: nat, t2: Word, k3: nat, t3: Word, s0: Word, s1: Word, s2: Word, s3: Word) returns (r': Regs)
    requires |x| == 16 && n % 4 == 0 && n + 4 <= 64 && r == Steps(h, x, n)
    requires Uses(n, k0, t0, k1, t1, k2, t2, k3, t3) && round == n / 16 && Rotates(round, s0, s1, s2, s3)
    ensures r' == Steps(h, x, n + 4)
  {
    r' := FourSteps(round, r, x[k0], t0, x[k1], t1, x[k2], t2, x[k3], t3, s0, s1, s2, s3);
    StepsByFour(h, x, n);
  }

  // The constants of the 64 lines are those of the standard's table.
  lemma Lines0() ensures Uses(0, 0, 0xd76aa478, 1, 0xe8c7b756, 2, 0x242070db, 3, 0xc1bdceee) {}
  lemma Lines4() ensures Uses(4, 4, 0xf57c0faf, 5, 0x4787c62a, 6, 0xa8304613, 7, 0xfd469501) {}
  lemma Lines8() ensures Uses(8, 8, 0x698098d8, 9, 0x8b44f7af, 10, 0xffff5bb1, 11, 0x895cd7be) {}
  lemma Lines12() ensures Uses(12, 12, 0x6b901122, 13, 0xfd987193, 14, 0xa679438e, 15, 0x49b40821) {}
  lemma Lines16() ensures Uses(16, 1, 0xf61e2562, 6, 0xc040b340, 11, 0x265e5a51, 0, 0xe9b6c7aa) {}
  lemma Lines20() ensures Uses(20, 5, 0xd62f105d, 10, 0x02441453, 15, 0xd8a1e681, 4, 0xe7d3fbc8) {}
  lemma Lines24() ensures Uses(24, 9, 0x21e1cde6, 14, 0xc33707d6, 3, 0xf4d50d87, 8, 0x455a14ed) {}
  lemma Lines28() ensures Uses(28, 13, 0xa9e3e905, 2, 0xfcefa3f8, 7, 0x676f02d9, 12, 0x8d2a4c8a) {}
  lemma Lines32() ensures Uses(32, 5, 0xfffa3942, 8, 0x8771f681, 11, 0x6d9d6122, 14, 0xfde5380c) {}
  lemma Lines36() ensures Uses(36, 1, 0xa4beea44, 4, 0x4bdecfa9, 7, 0xf6bb4b60, 10, 0xbebfbc70) {}
  lemma Lines40() ensures Uses(40, 13, 0x289b7ec6, 0, 0xeaa127fa, 3, 0xd4ef3085, 6, 0x04881d05) {}
  lemma Lines44() ensures Uses(44, 9, 0xd9d4d039, 12, 0xe6db99e5, 15, 0x1fa27cf8, 2, 0xc4ac5665) {}
  lemma Lines48() ensures Uses(48, 0, 0xf4292244, 7, 0x432aff97, 14, 0xab9423a7, 5, 0xfc93a039) {}
  lemma Lines52() ensures Uses(52, 12, 0x655b59c3, 3, 0x8f0ccc92, 10, 0xffeff47d, 1, 0x85845dd1) {}
  lemma Lines56() ensures Uses(56, 8, 0x6fa87e4f, 15, 0xfe2ce6e0, 6, 0xa3014314, 13, 0x4e0811a1) {}
  lemma Lines60() ensures Uses(60, 4, 0xf7537e82, 11, 0xbd3af235, 2, 0x2ad7d2bb, 9, 0xeb86d391) {}

  lemma Turns7() ensures Turns(7, 7) { forall w ensures RotateLeft(w, 7) == CircularShift(w, 7) { Rotate7(w); } }
  lemma Turns12() ensures Turns(12, 12) { forall w ensures RotateLeft(w, 12) == CircularShift(w, 12) { Rotate12(w); } }
  lemma Turns17() ensures Turns(17, 17) { forall w ensures RotateLeft(w, 17) == CircularShift(w, 17) { Rotate17(w); } }
  lemma Turns22() ensures Turns(22, 22) { forall w ensures RotateLeft(w, 22) == CircularShift(w, 22) { Rotate22(w); } }
  lemma Turns5() ensures Turns(5, 5) { forall w ensures RotateLeft(w, 5) == CircularShift(w, 5) { Rotate5(w); } }
  lemma Turns9() ensures Turns(9, 9) { forall w ensures RotateLeft(w, 9) == CircularShift(w, 9) { Rotate9(w); } }
  lemma Turns14() ensures Turns(14, 14) { forall w ensures RotateLeft(w, 14) == CircularShift(w, 14) { Rotate14(w); } }
  lemma Turns20() ensures Turns(20, 20) { forall w ensures RotateLeft(w, 20) == CircularShift(w, 20) { Rotate20(w); } }
  lemma Turns4() ensures Turns(4, 4) { forall w ensures RotateLeft(w, 4) == CircularShift(w, 4) { Rotate4(w); } }
  lemma Turns11() ensures Turns(11, 11) { forall w ensures RotateLeft(w, 11) == CircularShift(w, 11) { Rotate11(w); } }
  lemma Turns16() ensures Turns(16, 16) { forall w ensures RotateLeft(w, 16) == CircularShift(w, 16) { Rotate16(w); } }
  lemma Turns23() ensures Turns(23, 23) { forall w ensures RotateLeft(w, 23) == CircularShift(w, 23) { Rotate23(w); } }
  lemma Turns6() ensures Turns(6, 6) { forall w ensures RotateLeft(w, 6) == CircularShift(w, 6) { Rotate6(w); } }
  lemma Turns10() ensures Turns(10, 10) { forall w ensures RotateLeft(w, 10) == CircularShift(w, 10) { Rotate10(w); } }
  lemma Turns15() ensures Turns(15, 15) { forall w ensures RotateLeft(w, 15) == CircularShift(w, 15) { Rotate15(w); } }
  lemma Turns21() ensures Turns(21, 21) { forall w ensures RotateLeft(w, 21) == CircularShift(w, 21) { Rotate21(w); } }

  lemma Rotations1(round: nat)
    requires round == 0
    ensures Rotates(round, 7, 12, 17, 22)
  {
    Turns7();
    Turns12();
    Turns17();
    Turns22();
  }

  lemma Rotations2(round: nat)
    requires round == 1
    ensures Rotates(round, 5, 9, 14, 20)
  {
    Turns5();
    Turns9();
    Turns14();
    Turns20();
  }

  lemma Rotations3(round: nat)
    requires round == 2
    ensures Rotates(round, 4, 11, 16, 23)
  {
    Turns4();
    Turns11();
    Turns16();
    Turns23();
  }

  lemma Rotations4(round: nat)
    requires round == 3
    ensures Rotates(round, 6, 10, 15, 21)
  {
    Turns6();
    Turns10();
    Turns15();
    Turns21();
  }

  method Round1(ghost h: Regs, n: nat, r: Regs, x: seq<Word>) returns (r': Regs)
    requires |x| == 16 && n == 0 && r == Steps(h, x, n)
    ensures r' == Steps(h, x, n + 16)
  {
    Lines0(); Lines4(); Lines8(); Lines12();
    var round := n / 16;
    Rotations1(round);
    r' := Four(h, n, round, r, x, 0, 0xd76aa478, 1, 0xe8c7b756, 2, 0x242070db, 3, 0xc1bdceee, 7, 12, 17, 22);
    r' := Four(h, n + 4, round, r', x, 4, 0xf57c0faf, 5, 0x4787c62a, 6, 0xa8304613, 7, 0xfd469501, 7, 12, 17, 22);
    r' := Four(h, n + 8, round, r', x, 8, 0x698098d8, 9, 0x8b44f7af, 10, 0xffff5bb1, 11, 0x895cd7be, 7, 12, 17, 22);
    r' := Four(h, n + 12, round, r', x, 12, 0x6b901122, 13, 0xfd987193, 14, 0xa679438e, 15, 0x49b40821, 7, 12, 17, 22);
  }

  method Round2(ghost h: Regs, n: nat, r: Regs, x: seq<Word>) returns (r': Regs)
    requires |x| == 16 && n == 16 && r == Steps(h, x, n)
    ensures r' == Steps(h, x, n + 16)
  {
    Lines16(); Lines20(); Lines24(); Lines28();
    var round := n / 16;
    Rotations2(round);
    r' := Four(h, n, round, r, x, 1, 0xf61e2562, 6, 0xc040b340, 11, 0x265e5a51, 0, 0xe9b6c7aa, 5, 9, 14, 20);
    r' := Four(h, n + 4, round, r', x, 5, 0xd62f105d, 10, 0x02441453, 15, 0xd8a1e681, 4, 0xe7d3fbc8, 5, 9, 14, 20);
    r' := Four(h, n + 8, round, r', x, 9, 0x21e1cde6, 14, 0xc33707d6, 3, 0xf4d50d87, 8, 0x455a14ed, 5, 9, 14, 20);
    r' := Four(h, n + 12, round, r', x, 13, 0xa9e3e905, 2, 0xfcefa3f8, 7, 0x676f02d9, 12, 0x8d2a4c8a, 5, 9, 14, 20);
  }

  method Round3(ghost h: Regs, n: nat, r: Regs, x: seq<Word>) returns (r': Regs)
    requires |x| == 16 && n == 32 && r == Steps(h, x, n)
    ensures r' == Steps(h, x, n + 16)
  {
    Lines32(); Lines36(); Lines40(); Lines44();
    var round := n / 16;
    Rotations3(round);
    r' := Four(h, n, round, r, x, 5, 0xfffa3942, 8, 0x8771f681, 11, 0x6d9d6122, 14, 0xfde5380c, 4, 11, 16, 23);
    r' := Four(h, n + 4, round, r', x, 1, 0xa4beea44, 4, 0x4bdecfa9, 7, 0xf6bb4b60, 10, 0xbebfbc70, 4, 11, 16, 23);
    r' := Four(h, n + 8, round, r', x, 13, 0x289b7ec6, 0, 0xeaa127fa, 3, 0xd4ef3085, 6, 0x04881d05, 4, 11, 16, 23);
    r' := Four(h, n + 12, round, r', x, 9, 0xd9d4d039, 12, 0xe6db99e5, 15, 0x1fa27cf8, 2, 0xc4ac5665, 4, 11, 16, 23);
  }

  method Round4(ghost h: Regs, n: nat, r: Regs, x: seq<Word>) returns (r': Regs)
    requires |x| == 16 && n == 48 && r == Steps(h, x, n)
    ensures r' == Steps(h, x, n + 16)
  {
    Lines48(); Lines52(); Lines56(); Lines60();
    var round := n / 16;
    Rotations4(round);
    r' := Four(h, n, round, r, x, 0, 0xf4292244, 7, 0x432aff97, 14, 0xab9423a7, 5, 0xfc93a039, 6, 10, 15, 21);
    r' := Four(h, n + 4, round, r', x, 12, 0x655b59c3, 3, 0x8f0ccc92, 10, 0xffeff47d, 1, 0x85845dd1, 6, 10, 15, 21);
    r' := Four(h, n + 8, round, r', x, 8, 0x6fa87e4f, 15, 0xfe2ce6e0, 6, 0xa3014314, 13, 0x4e0811a1, 6, 10, 15, 21);
    r' := Four(h, n + 12, round, r', x, 4, 0xf7537e82, 11, 0xbd3af235, 2, 0x2ad7d2bb, 9, 0xeb86d391, 6, 10, 15, 21);
  }

  /** `MD5Transform` on register values; `x` is the block as sixteen words. */
  method Transform(h: Regs, x: seq<Word>) returns (h': Regs)
    requires |x| == 16
    ensures h' == Sum(h, Steps(h, x, 64))
  {
    var n := 0;
    var r := Round1(h, n, h, x);
    n := n + 16;
    r := Round2(h, n, r, x);
    n := n + 16;
    r := Round3(h, n, r, x);
    n := n + 16;
    r := Round4(h, n, r, x);
    h' := Regs(CodedAdd(h.a, r.a), CodedAdd(h.b, r.b), CodedAdd(h.c, r.c), CodedAdd(h.d, r.d));
    AddMatches(h.a, r.a);
    AddMatches(h.b, r.b);
    AddMatches(h.c, r.c);
    AddMatches(h.d, r.d);
  }

  /** A block in memory read as sixteen words of the host. */
  function Loaded(block: seq<Octet>): (x: seq<Word>)
    requires |block| == BLOCK
    ensures |x| == 16
  {
    seq(16, i requires 0 <= i < 16 => LittleWord(block[4 * i], block[4 * i + 1], block[4 * i + 2], block[4 * i + 3]))
  }

  lemma WordLoaded(block: seq<Octet>, i: nat)
    requires |block| == BLOCK && i < 16
    ensures Loaded(block)[i] == Words(block)[i]
  {
    LittleWordIsLowOrderFirst(block[4 * i], block[4 * i + 1], block[4 * i + 2], block[4 * i + 3]);
  }

  lemma LoadedIsWords(block: seq<Octet>)
    requires |block| == BLOCK
    ensures Loaded(block) == Words(block)
  {
    forall i | 0 <= i < 16 ensures Loaded(block)[i] == Words(block)[i] { WordLoaded(block, i); }
  }

  lemma WordInMemory(words: seq<Word>, m: seq<Octet>, t: nat)
    requires t < |words| && m == Memory(words)
    ensures m[4 * t..4 * t + 4] == LittleOctets(words[t])
  {
    MemoryAt(words, t);
    OctetsAreDigits(words[t]);
  }

  lemma FourParts<T>(m: seq<T>, a: seq<T>, b: seq<T>, c: seq<T>, d: seq<T>)
    requires |m| == 16 && m[0..4] == a && m[4..8] == b && m[8..12] == c && m[12..16] == d
    ensures m == a + b + c + d
  {}

  lemma MemoryOfRegs(words: seq<Word>, h: Regs)
    requires words == [h.a, h.b, h.c, h.d]
    ensures Memory(words) == RegsOctets(h)
  {
    var m := Memory(words);
    WordInMemory(words, m, 0);
    WordInMemory(words, m, 1);
    WordInMemory(words, m, 2);
    WordInMemory(words, m, 3);
    FourParts(m, LittleOctets(h.a), LittleOctets(h.b), LittleOctets(h.c), LittleOctets(h.d));
  }

  // ---------------------------------------------------------------- md5.cc: the context

  const WORD: nat := UINT32_LIMIT

  /** The two count words of a context after `len` more octets, with the carry from low to high. */
  function CountUp(bits0: nat, bits1: nat, len: nat): (nat, nat) {
    var low := (bits0 + len % WORD * 8 % WORD) % WORD;
    var carried := if low < bits0 then (bits1 + 1) % WORD else bits1;
    (low, (carried + len / 0x2000_0000 % WORD) % WORD)
  }

  lemma RemainderIs(x: nat, quotient: nat, remainder: nat)
    requires remainder < 0x1_0000_0000 && x == 0x1_0000_0000 * quotient + remainder
    ensures x % 0x1_0000_0000 == remainder
  {}

  /** Eight times the length, cut to a word, and the length shifted by 29 make the 64-bit product. */
  lemma ShiftedLength(len: nat)
    ensures len % WORD * 8 % WORD + 0x1_0000_0000 * (len / 0x2000_0000) == 8 * len
  {
    var high := len / 0x2000_0000;
    var low := len - 0x2000_0000 * high;
    RemainderIs(len, high / 8, low + 0x2000_0000 * (high % 8));
    RemainderIs(len % WORD * 8, high % 8, 8 * low);
  }

  /** Adding a carry and a shifted length to the high word, each sum cut to a word. */
  lemma HighWord(bits1: nat, carry: nat, high: nat) returns (more: nat)
    requires bits1 < WORD && carry <= 1
    ensures ((bits1 + carry) % WORD + high % WORD) % WORD + 0x1_0000_0000 * more == bits1 + carry + high
  {
    var x, y := (bits1 + carry) % WORD, high % WORD;
    more := (bits1 + carry) / WORD + high / WORD + (x + y) / WORD;
  }

  /** Together they count bits: 2^64 of them are lost each time the high word overflows. */
  lemma CountUpCountsBits(bits0: nat, bits1: nat, len: nat) returns (more: nat)
    requires bits0 < WORD && bits1 < WORD
    ensures var (low, high) := CountUp(bits0, bits1, len);
            && low < WORD && high < WORD
            && bits0 + 0x1_0000_0000 * bits1 + 8 * len ==
               low + 0x1_0000_0000 * high + 0x1_0000_0000_0000_0000 * more
  {
    ShiftedLength(len);
    var low := len % WORD * 8 % WORD;
    var carry := if bits0 + low >= WORD then 1 else 0;
    RemainderIs(bits0 + low, carry, bits0 + low - 0x1_0000_0000 * carry);
    more := HighWord(bits1, carry, len / 0x2000_0000);
    RemainderIs(bits1, 0, bits1);
  }

  /** The octets of the two count words in memory are the octets of the 64-bit count. */
  lemma CountOctets(low: nat, high: nat, i: nat)
    requires low < WORD && i < 4
    ensures ByteAt(low + WORD * high, i) == ByteAt(low, i)
    ensures ByteAt(low + WORD * high, i + 4) == ByteAt(high, i)
  {
    var n0, n1 := low + WORD * high, low / 0x100 + 0x100_0000 * high;
    var n2, n3 := low / 0x1_0000 + 0x1_0000 * high, low / 0x100_0000 + 0x100 * high;
    assert n0 / 256 == n1 && n1 / 256 == n2 && n2 / 256 == n3 && n3 / 256 == high;
    assert ByteAt(n0, i + 4) == ByteAt(n1, i + 3) == ByteAt(n2, i + 2) == ByteAt(n3, i + 1) == ByteAt(high, i);
    assert low / 256 / 256 == low / 0x1_0000 && low / 0x1_0000 / 256 == low / 0x100_0000;
    if i == 1 {
      assert ByteAt(n0, 1) == ByteAt(n1, 0) && ByteAt(low, 1) == ByteAt(low / 256, 0);
    } else if i == 2 {
      assert ByteAt(n0, 2) == ByteAt(n1, 1) == ByteAt(n2, 0);
      assert ByteAt(low, 2) == ByteAt(low / 256, 1) == ByteAt(low / 0x1_0000, 0);
    } else if i == 3 {
      assert ByteAt(n0, 3) == ByteAt(n1, 2) == ByteAt(n2, 1) == ByteAt(n3, 0);
      assert ByteAt(low, 3) == ByteAt(low / 256, 2) == ByteAt(low / 0x1_0000, 1) == ByteAt(low / 0x100_0000, 0);
    }
  }

  function CountOctet(bits0: nat, bits1: nat, i: nat): Octet {
    (if i < 4 then ByteAt(bits0, i) else ByteAt(bits1, i - 4)) as bv8
  }

  function CountField(bits0: nat, bits1: nat): (f: seq<Octet>)
    ensures |f| == 8
  { seq(8, i requires 0 <= i < 8 => CountOctet(bits0, bits1, i)) }

  lemma CountOctetIs(bits0: nat, bits1: nat, n: nat, i: nat)
    requires bits0 < WORD && i < 8 && n == bits0 + WORD * bits1
    ensures CountOctet(bits0, bits1, i) == ByteAt(n, i) as bv8
  {
    if i < 4 { CountOctets(bits0, bits1, i); } else { CountOctets(bits0, bits1, i - 4); }
  }

  lemma CountFieldIsLength(bits0: nat, bits1: nat)
    requires bits0 < WORD
    ensures CountField(bits0, bits1) == LittleLength(bits0 + WORD * bits1)
  {
    var n := bits0 + WORD * bits1;
    forall i | 0 <= i < 8 ensures CountField(bits0, bits1)[i] == LittleLength(n)[i] {
      CountOctetIs(bits0, bits1, n, i);
    }
  }

  lemma LowCountIsUsed(bits0: nat, bits1: nat, wraps: nat, blocks: nat, used: nat)
    requires bits0 < WORD && used < 64
    requires 8 * (64 * blocks + used) == bits0 + 0x1_0000_0000 * bits1 + 0x1_0000_0000_0000_0000 * wraps
    ensures bits0 / 8 % 64 == used
  {
    var k := blocks - 0x80_0000 * bits1 - 0x80_0000_0000_0000 * wraps;
    assert bits0 == 8 * (64 * k + used);
  }

  lemma FoldedDigest(compress: (Regs, seq<Octet>) -> Regs, m: seq<Octet>, h: Regs)
    requires Agree(compress, Compress) && h == Fold(compress, H0, Padded(m, LengthField(m)))
    ensures RegsOctets(h) == Digest(m)
  {
    FoldAgrees(compress, Compress, H0, Padded(m, LengthField(m)));
  }

  class Context {
    const buf: array<Word>
    var bits0: nat
    var bits1: nat
    const input: array<Octet>
    ghost var stream: seq<Octet>  // the message so far
    ghost var blocks: nat         // how many blocks of it were hashed
    ghost var wraps: nat          // how often the count words overflowed
    ghost const compress: (Regs, seq<Octet>) -> Regs

    ghost predicate Shaped()
      reads this
    { buf.Length == 4 && input.Length == BLOCK && Agree(compress, Compress) }

    ghost function State(): Regs
      requires buf.Length == 4
      reads buf
    { Regs(buf[0], buf[1], buf[2], buf[3]) }

    /** Whole blocks of `m` are hashed; its last `n` octets lie in `input`. */
    ghost predicate Holding(m: seq<Octet>, n: nat)
      reads this, buf, input
    {
      && Shaped() && n <= BLOCK && |m| == 64 * blocks + n
      && input[..n] == m[64 * blocks..]
      && State() == Fold(compress, H0, m[..64 * blocks])
    }

    ghost predicate Valid()
      reads this, buf, input
    {
      && bits0 < WORD && bits1 < WORD
      && 8 * |stream| == bits0 + 0x1_0000_0000 * bits1 + 0x1_0000_0000_0000_0000 * wraps
      && 64 * blocks <= |stream| < 64 * blocks + BLOCK && Holding(stream, |stream| - 64 * blocks)
    }

    constructor ()
      ensures Valid() && stream == [] && fresh(buf) && fresh(input)
    {
      buf := new Word[4];
      input := new Octet[BLOCK];
      bits0, bits1 := 0, 0;
      stream, blocks, wraps := [], 0, 0;
      compress := Compress;
      new;
      Init();
    }

    method Init()
      requires Shaped()
      modifies this, buf
      ensures Valid() && stream == []
    {
      buf[0], buf[1], buf[2], buf[3] := 0x67452301, 0xefcdab89, 0x98badcfe, 0x10325476;
      bits0, bits1 := 0, 0;
      stream, blocks, wraps := [], 0, 0;
    }

    /** `memcpy` into the buffer. */
    method CopyIn(offset: nat, data: seq<Octet>)
      requires offset + |data| <= input.Length
      modifies input
      ensures input[..offset] == old(input[..offset])
      ensures input[offset..offset + |data|] == data
    {
      forall i | 0 <= i < |data| { input[offset + i] := data[i]; }
    }

    /** Stores each word of the buffer with its octets in little-endian order: nothing changes. */
    method ByteReverse(longs: nat)
      requires Shaped() && longs <= 16
      modifies input
      ensures input[..] == old(input[..])
    {
      for i := 0 to longs
        invariant input[..] == old(input[..])
      {
        OctetsOfLittleWord(input[4 * i], input[4 * i + 1], input[4 * i + 2], input[4 * i + 3]);
        var temp := LittleWord(input[4 * i], input[4 * i + 1], input[4 * i + 2], input[4 * i + 3]);
        input[4 * i], input[4 * i + 1], input[4 * i + 2], input[4 * i + 3] :=
          OctetOf(temp, 0), OctetOf(temp, 1), OctetOf(temp, 2), OctetOf(temp, 3);
      }
    }

    method TransformInput()
      requires Shaped()
      modifies buf
      ensures State() == compress(old(State()), input[..])
    {
      assert Mark(State(), input[..]);
      LoadedIsWords(input[..]);
      var h := Transform(Regs(buf[0], buf[1], buf[2], buf[3]), Loaded(input[..]));
      buf[0], buf[1], buf[2], buf[3] := h.a, h.b, h.c, h.d;
    }

    /** A full buffer is hashed. */
    method HashBlock(ghost m: seq<Octet>)
      requires Holding(m, BLOCK)
      modifies buf, this`blocks
      ensures Holding(m, 0)
    {
      assert input[..BLOCK] == input[..];
      FoldLast(compress, H0, m, 64 * blocks, input[..]);
      TransformInput();
      blocks := blocks + 1;
      assert m[..|m|] == m;
    }

    method Absorb(ghost m: seq<Octet>)
      requires Holding(m, BLOCK)
      modifies buf, input, this`blocks
      ensures Holding(m, 0)
    {
      ByteReverse(16);
      assert input[..BLOCK] == input[..];
      HashBlock(m);
    }

    /** `memcpy` behind the octets already held. */
    method Append(ghost m: seq<Octet>, n: nat, data: seq<Octet>)
      requires Holding(m, n) && n + |data| <= BLOCK
      modifies input
      ensures Holding(m + data, n + |data|)
    {
      CopyIn(n, data);
      ghost var m' := m + data;
      assert input[..n + |data|] == input[..n] + input[n..n + |data|];
      assert m'[64 * blocks..] == m[64 * blocks..] + data;
      assert m'[..64 * blocks] == m[..64 * blocks];
    }

    /** Octets already in the buffer: `(bits[0] >> 3) & 0x3f`. */
    method Used() returns (used: nat)
      requires Valid()
      ensures used == |stream| - 64 * blocks
    {
      LowCountIsUsed(bits0, bits1, wraps, blocks, |stream| - 64 * blocks);
      used := bits0 / 8 % 64;
    }

    method Update(data: seq<Octet>)
      requires Valid() && |data| < SIZE_LIMIT
      modifies this, buf, input
      ensures Valid() && stream == old(stream) + data
    {
      ghost var m := stream;
      var used := Used();
      ghost var more := CountUpCountsBits(bits0, bits1, |data|);
      var count := CountUp(bits0, bits1, |data|);
      bits0, bits1, wraps := count.0, count.1, wraps + more;
      stream := m + data;
      ghost var left := Feed(m, used, data);
    }

    /** The three copying phases of `MD5Update`: fill up, whole blocks, remainder. */
    method Feed(ghost m: seq<Octet>, used: nat, data: seq<Octet>) returns (ghost left: nat)
      requires Holding(m, used) && used < BLOCK
      modifies buf, input, this`blocks
      ensures Holding(m + data, left) && left < BLOCK
    {
      if used == 0 {
        left := FeedAligned(m, data);
        return;
      }
      var room := BLOCK - used;
      if |data| < room {
        Append(m, used, data);
        return used + |data|;
      }
      var head, rest := data[..room], data[room..];
      FillBlock(m, used, head);
      left := FeedAligned(m + head, rest);
      assert m + head + rest == m + data;
    }

    method FeedAligned(ghost m: seq<Octet>, data: seq<Octet>) returns (ghost left: nat)
      requires Holding(m, 0)
      modifies buf, input, this`blocks
      ensures Holding(m + data, left) && left < BLOCK
    {
      var pos := 0;
      ghost var done := m;
      while |data| - pos >= BLOCK
        invariant 0 <= pos <= |data| && Holding(done, 0) && done == m + data[..pos]
      {
        FillBlock(done, 0, data[pos..pos + BLOCK]);
        done := done + data[pos..pos + BLOCK];
        pos := pos + BLOCK;
      }
      var tail := data[pos..];
      Append(done, 0, tail);
      assert done + tail == m + data;
      left := |tail|;
    }

    /** The octets that complete the block are copied and the block is hashed. */
    method FillBlock(ghost m: seq<Octet>, used: nat, head: seq<Octet>)
      requires Holding(m, used) && used + |head| == BLOCK
      modifies buf, input, this`blocks
      ensures Holding(m + head, 0)
    {
      Append(m, used, head);
      Absorb(m + head);
    }

    /** The one bit and the zeros, over two blocks when the count would not fit behind them. */
    method PadToLength()
      requires Valid()
      modifies buf, input, this`blocks
      ensures Holding(stream + [0x80] + Zeros(ZeroCount(|stream|)), BLOCK - 8)
    {
      var used := Used();
      PadFrom(stream, used);
    }

    method PadFrom(ghost m: seq<Octet>, used: nat)
      requires Holding(m, used) && used < BLOCK
      modifies buf, input, this`blocks
      ensures Holding(m + [0x80] + Zeros(ZeroCount(|m|)), BLOCK - 8)
    {
      ZeroCountInBlock(|m|, blocks, used);
      Append(m, used, [0x80]);
      PadZeros(m + [0x80], used + 1, BLOCK - 1 - used);
    }

    method PadZeros(ghost one: seq<Octet>, n: nat, count: nat)
      requires Holding(one, n) && n + count == BLOCK
      modifies buf, input, this`blocks
      ensures Holding(one + Zeros(if count < 8 then count + BLOCK - 8 else count - 8), BLOCK - 8)
    {
      if count < 8 {
        FillBlock(one, n, seq(count, _ => 0));
        ghost var full := one + Zeros(count);
        assert full == one + seq(count, _ => 0);
        Append(full, 0, seq(BLOCK - 8, _ => 0));
        AppendZeros(one, count, BLOCK - 8);
        assert full + seq(BLOCK - 8, _ => 0) == full + Zeros(BLOCK - 8);
      } else {
        Append(one, n, seq(count - 8, _ => 0));
        assert one + seq(count - 8, _ => 0) == one + Zeros(count - 8);
      }
    }

    /** The count goes behind the padding and the last block is hashed. */
    method HashLastBlock(ghost padded: seq<Octet>)
      requires Holding(padded, BLOCK - 8)
      modifies buf, input, this`blocks
      ensures Holding(padded + CountField(bits0, bits1), 0)
    {
      ByteReverse(14);
      assert input[..BLOCK - 8] == input[..][..BLOCK - 8];
      Append(padded, BLOCK - 8, CountField(bits0, bits1));
      HashBlock(padded + CountField(bits0, bits1));
    }

    method HashPadding()
      requires Valid()
      modifies buf, input, this`blocks
      ensures Holding(Padded(stream, LengthField(stream)), 0)
    {
      CountFieldIsLength(bits0, bits1);
      CountedBits(stream, bits0 + WORD * bits1, wraps);
      ghost var padded := stream + [0x80] + Zeros(ZeroCount(|stream|));
      PadToLength();
      HashLastBlock(padded);
    }

    method Final() returns (digest: seq<Octet>)
      requires Valid()
      modifies this, buf, input
      ensures digest == Digest(old(stream))
    {
      HashPadding();
      ghost var padded := Padded(stream, LengthField(stream));
      assert padded[..|padded|] == padded;
      FoldedDigest(compress, stream, State());
      MemoryOfRegs(buf[..], State());
      digest := Memory(buf[..]);
      Wipe();
    }

    /** `memset(ctx, 0, sizeof(*ctx))` */
    method Wipe()
      requires Shaped()
      modifies this, buf, input
      ensures bits0 == bits1 == 0 && buf[..] == [0, 0, 0, 0] && forall i :: 0 <= i < BLOCK ==> input[i] == 0
    {
      buf[0], buf[1], buf[2], buf[3] := 0, 0, 0, 0;
      bits0, bits1 := 0, 0;
      forall i | 0 <= i < BLOCK { input[i] := 0; }
    }

    constructor Copy(other: Context)
      requires other.Valid()
      ensures Valid() && stream == other.stream && fresh(buf) && fresh(input)
    {
      buf := new Word[4];
      input := new Octet[BLOCK];
      bits0, bits1 := other.bits0, other.bits1;
      stream, blocks, wraps := other.stream, other.blocks, other.wraps;
      compress := other.compress;
      new;
      forall i | 0 <= i < 4 { buf[i] := other.buf[i]; }
      forall i | 0 <= i < BLOCK { input[i] := other.input[i]; }
      ghost var n := |stream| - 64 * blocks;
      assert input[..n] == other.input[..n];
    }

    /** The digest so far; the context itself is only read. */
    method IntermediateFinal() returns (digest: seq<Octet>)
      requires Valid()
      ensures digest == Digest(stream)
    {
      var copy := new Context.Copy(this);
      digest := copy.Final();
    }
  }

  /** `MD5Init`, one `MD5Update` per chunk, `MD5Final`: only the concatenation matters. */
  method HashChunks(chunks: seq<seq<Octet>>) returns (digest: seq<Octet>)
    requires forall c :: c in chunks ==> |c| < SIZE_LIMIT
    ensures digest == Digest(Flatten(chunks))
  {
    var ctx := new Context();
    for i := 0 to |chunks|
      invariant ctx.Valid() && fresh(ctx) && fresh(ctx.buf) && fresh(ctx.input)
      invariant ctx.stream == Flatten(chunks[..i])
    {
      assert chunks[..i + 1][..i] == chunks[..i];
      ctx.Update(chunks[i]);
    }
    assert chunks[..|chunks|] == chunks;
    digest := ctx.Final();
  }
}
