/**
  * rand_util.cc: numbers below a bound from uniform 64-bit draws, by discarding the draws that would
  * favour the small remainders.
  */
module RandUtil {
  import opened Wrappers

  const MAX: int := 0xFFFF_FFFF_FFFF_FFFF
  const DRAWS: int := 0x1_0000_0000_0000_0000   // how many 64-bit values there are

  type Draw = v: int | 0 <= v <= MAX

  function MaxAcceptable(range: int): int
    requires 1 <= range
  { MAX / range * range - 1 }

  /** The first acceptable draw decides; None if the draws at hand run out. */
  method RandGenerator(range: int, draws: seq<Draw>) returns (result: Option<int>)
    requires 1 <= range <= MAX
    ensures result.None? <==> forall k :: 0 <= k < |draws| ==> draws[k] > MaxAcceptable(range)
    ensures result.Some? ==>
              && 0 <= result.value < range
              && exists k :: 0 <= k < |draws| && draws[k] <= MaxAcceptable(range) && result.value == draws[k] % range &&
                             forall j :: 0 <= j < k ==> draws[j] > MaxAcceptable(range)
  {
    var maxAcceptableValue := MaxAcceptable(range);
    var k := 0;
    while k < |draws| && draws[k] > maxAcceptableValue
      invariant 0 <= k <= |draws| && forall j :: 0 <= j < k ==> draws[j] > maxAcceptableValue
    {
      k := k + 1;
    }
    if k == |draws| { return None; }
    return Some(draws[k] % range);
  }

  // ---------------------------------------------------------------- no remainder is favoured

  /** The draws below a bound that leave `r`. */
  ghost function Leaving(range: int, bound: int, r: int): set<int>
    requires 1 <= range
  { set v | 0 <= v < bound && v % range == r }

  lemma Remainder(v: int, q: int, range: int)
    requires 1 <= range && q * range <= v < q * range + range
    ensures v % range == v - q * range
  {
    var d := v / range - q;
    assert v == (v / range) * range + v % range;
    assert (v / range) * range == q * range + d * range;
    Multiple(d, range);
  }

  lemma Multiple(d: int, range: int)
    requires 1 <= range
    ensures (d >= 1 ==> d * range >= range) && (d <= -1 ==> d * range <= -range)
  {}

  lemma BlockLeavesOne(range: int, low: int, q: int, r: int)
    requires 1 <= range && 0 <= r < range && low == q * range && 0 <= q
    ensures Leaving(range, low + range, r) == Leaving(range, low, r) + {low + r} && low + r !in Leaving(range, low, r)
  {
    forall v | low <= v < low + range ensures v % range == r <==> v == low + r { Remainder(v, q, range); }
  }

  /** Each block of `range` consecutive draws leaves each remainder once. */
  lemma {:induction false} OnePerBlock(range: int, q: nat, r: int)
    requires 1 <= range && 0 <= r < range
    ensures |Leaving(range, q * range, r)| == q
  {
    if q == 0 {
      assert Leaving(range, 0, r) == {};
    } else {
      OnePerBlock(range, q - 1, r);
      var low := (q - 1) * range;
      assert q * range == low + range;
      BlockLeavesOne(range, low, q - 1, r);
    }
  }

  /** The acceptable draws that give `r`. */
  ghost function Accepted(range: int, r: int): set<Draw>
    requires 1 <= range
  { set v: Draw | v <= MaxAcceptable(range) && v % range == r }

  lemma QuotientBounds(range: int)
    requires 1 <= range <= MAX
    ensures 1 <= MAX / range && MAX - range < MAX / range * range <= MAX
  {
    assert MAX == MAX / range * range + MAX % range;
  }

  /** Every result comes from the same number of acceptable draws. */
  lemma ResultsEquallyLikely(range: int, r: int)
    requires 1 <= range <= MAX && 0 <= r < range
    ensures |Accepted(range, r)| == MAX / range
  {
    QuotientBounds(range);
    OnePerBlock(range, MAX / range, r);
    var s: set<int> := Accepted(range, r);
    assert s == Leaving(range, MAX / range * range, r);
  }

  /** At least half of all draws are acceptable. */
  lemma HalfAccepted(range: int)
    requires 1 <= range <= MAX
    ensures 2 * (MaxAcceptable(range) + 1) >= DRAWS
  {
    QuotientBounds(range);
    if range >= DRAWS / 2 { assert MAX / range * range >= range; }
  }

  // ---------------------------------------------------------------- RandInt

  type Int32 = x: int | -0x8000_0000 <= x <= 0x7FFF_FFFF

  /** Conversion to uint64_t. */
  function Unsigned(x: int): int { x % DRAWS }

  function RangeOf(min: Int32, max: Int32): int { Unsigned(Unsigned(Unsigned(max) - Unsigned(min)) + 1) }

  /** The wrapped arithmetic gives the number of values from min to max. */
  lemma RangeCounts(min: Int32, max: Int32)
    requires min <= max
    ensures RangeOf(min, max) == max - min + 1
  {
    assert Unsigned(max) == if max >= 0 then max else max + DRAWS;
    assert Unsigned(min) == if min >= 0 then min else min + DRAWS;
  }

  method RandInt(min: Int32, max: Int32, draws: seq<Draw>) returns (result: Option<Int32>)
    requires min <= max
    ensures result.None? <==> forall k :: 0 <= k < |draws| ==> draws[k] > MaxAcceptable(max - min + 1)
    ensures result.Some? ==> min <= result.value <= max
    ensures result.Some? ==>
              exists k :: 0 <= k < |draws| && draws[k] <= MaxAcceptable(max - min + 1) &&
                          result.value == min + draws[k] % (max - min + 1) &&
                          forall j :: 0 <= j < k ==> draws[j] > MaxAcceptable(max - min + 1)
  {
    RangeCounts(min, max);
    var range := RangeOf(min, max);
    var value := RandGenerator(range, draws);
    if value.None? { return None; }
    return Some(min + value.value);
  }

  function IntOf(min: Int32, max: Int32, v: Draw): int
    requires min <= max
  { min + v % (max - min + 1) }

  /** Every int from min to max is equally likely. */
  lemma IntsEquallyLikely(min: Int32, max: Int32, x: int)
    requires min <= x <= max
    ensures |set v: Draw | v <= MaxAcceptable(max - min + 1) && IntOf(min, max, v) == x| == MAX / (max - min + 1)
  {
    var range := max - min + 1;
    ResultsEquallyLikely(range, x - min);
    assert (set v: Draw | v <= MaxAcceptable(range) && IntOf(min, max, v) == x) == Accepted(range, x - min);
  }
}
