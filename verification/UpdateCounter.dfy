/**
 The even/odd update counter of `DeathData` on 32-bit hosts: one owner thread
 records allocations, any number of readers fetch a 64-bit byte count that is
 stored as two 32-bit words. Every load, store and increment is one atomic step
 and the steps of all threads interleave freely (sequential consistency).
 */
module UpdateCounter {
  import opened Wrappers

  const WORD: int := 0x1_0000_0000
  const INT32_MAX: int := 0x7fff_ffff
  const INT64_MAX: int := 0x7fff_ffff_ffff_ffff

  type Uint32 = x: int | 0 <= x < WORD
  type Int32 = x: int | -0x8000_0000 <= x < 0x8000_0000

  function Min(a: int, b: int): int { if a <= b then a else b }

  // ---------------------------------------------------------------- words

  /** A `CumulativeByteCount`: the two halves of one 64-bit count. */
  datatype Words = Words(hi: Int32, lo: Int32)

  function AsUnsigned(x: Int32): Uint32 { if x < 0 then x + WORD else x }

  function AsSigned(x: Uint32): Int32 { if x < 0x8000_0000 then x else x - WORD }

  /** `hi << 32 | static_cast<uint32_t>(lo)` */
  function Join(hi: Int32, lo: Int32): int { hi * WORD + AsUnsigned(lo) }

  function Value(w: Words): int { Join(w.hi, w.lo) }

  function HighWord(v: int): Int32
    requires 0 <= v <= INT64_MAX
  { v / WORD }

  function LowWord(v: int): Int32
    requires 0 <= v <= INT64_MAX
  { AsSigned(v % WORD) }

  lemma SplitJoin(v: int)
    requires 0 <= v <= INT64_MAX
    ensures Join(HighWord(v), LowWord(v)) == v
  {}

  // ---------------------------------------------------------------- state

  datatype Field = Allocated | Freed | Overhead

  /** The arguments of one `RecordAllocations` call. */
  datatype Addends = Addends(allocOps: Uint32, freeOps: Uint32,
                             allocatedBytes: Uint32, freedBytes: Uint32, overheadBytes: Uint32,
                             maxAllocated: Uint32)

  function Part(a: Addends, f: Field): Uint32 {
    match f
    case Allocated => a.allocatedBytes
    case Freed => a.freedBytes
    case Overhead => a.overheadBytes
  }

  /** Where the owner stands inside `RecordAllocations`. */
  datatype Owner =
    | Idle
    | AddAllocOps(a: Addends)
    | AddFreeOps(a: Addends)
    | AddBytes(a: Addends, f: Field)
    | StoreHigh(a: Addends, f: Field, sum: int)
    | StoreLow(a: Addends, f: Field, sum: int)
    | UpdateMax(a: Addends)
    | Release

  /** Where a reader stands inside `ConsistentCumulativeByteCountRead`. */
  datatype Reader =
    | Away
    | Spinning(f: Field)
    | Loading(f: Field, seen: Uint32, hi: Option<Int32>, lo: Option<Int32>)
    | Returned(f: Field, value: int)

  datatype State = State(counter: Uint32, allocOps: int, freeOps: int, maxAllocated: int,
                         counts: map<Field, Words>, owner: Owner, readers: map<nat, Reader>)

  ghost predicate Shaped(s: State) { forall f: Field :: f in s.counts }

  ghost predicate Initial(s: State) {
    && s.counter == 0 && s.allocOps == 0 && s.freeOps == 0 && s.maxAllocated == 0
    && (forall f: Field :: f in s.counts && s.counts[f] == Words(0, 0))
    && s.owner == Idle
    && forall r :: r in s.readers ==> s.readers[r] == Away
  }

  ghost function Count(s: State, f: Field): int
    requires Shaped(s)
  { Value(s.counts[f]) }

  // ---------------------------------------------------------------- steps

  function Tick(c: Uint32): Uint32 { (c + 1) % WORD }

  /** `SaturatingMemberAdd` on a 32-bit member. */
  function SaturatingAdd32(sum: int, addend: Uint32): int {
    if addend == 0 || sum == INT32_MAX then sum else Min(sum + addend, INT32_MAX)
  }

  function NextOwner(a: Addends, f: Field): Owner {
    match f
    case Allocated => AddBytes(a, Freed)
    case Freed => AddBytes(a, Overhead)
    case Overhead => UpdateMax(a)
  }

  /** One step of the owner; `a` is used only when a new call begins. */
  ghost function OwnerStep(s: State, a: Addends): State
    requires Shaped(s)
  {
    match s.owner
    case Idle => s.(counter := Tick(s.counter), owner := AddAllocOps(a))
    case AddAllocOps(a) => s.(allocOps := SaturatingAdd32(s.allocOps, a.allocOps), owner := AddFreeOps(a))
    case AddFreeOps(a) => s.(freeOps := SaturatingAdd32(s.freeOps, a.freeOps), owner := AddBytes(a, Allocated))
    case AddBytes(a, f) =>
      if Part(a, f) == 0 || Count(s, f) == INT64_MAX then s.(owner := NextOwner(a, f))
      else s.(owner := StoreHigh(a, f, Min(Count(s, f) + Part(a, f), INT64_MAX)))
    case StoreHigh(a, f, sum) =>
      if 0 <= sum <= INT64_MAX then
        s.(counts := s.counts[f := s.counts[f].(hi := HighWord(sum))], owner := StoreLow(a, f, sum))
      else s
    case StoreLow(a, f, sum) =>
      if 0 <= sum <= INT64_MAX then
        s.(counts := s.counts[f := s.counts[f].(lo := LowWord(sum))], owner := NextOwner(a, f))
      else s
    case UpdateMax(a) =>
      var top := Min(a.maxAllocated, INT32_MAX);
      s.(maxAllocated := if top > s.maxAllocated then top else s.maxAllocated, owner := Release)
    case Release => s.(counter := Tick(s.counter), owner := Idle)
  }

  /**
   One step of reader `r`. `f` is used only when a new call begins; `highFirst`
   picks the word to load next, because the two loads are unsequenced in the source.
   */
  ghost function ReaderStep(s: State, r: nat, f: Field, highFirst: bool): State
    requires Shaped(s) && r in s.readers
  {
    var next :=
      match s.readers[r]
      case Away => Spinning(f)
      case Returned(_, _) => Spinning(f)
      case Spinning(g) => if s.counter % 2 == 1 then Spinning(g) else Loading(g, s.counter, None, None)
      case Loading(g, c, Some(h), Some(l)) =>
        if c == s.counter then Returned(g, Join(h, l)) else Spinning(g)
      case Loading(g, c, None, Some(l)) => Loading(g, c, Some(s.counts[g].hi), Some(l))
      case Loading(g, c, Some(h), None) => Loading(g, c, Some(h), Some(s.counts[g].lo))
      case Loading(g, c, None, None) =>
        if highFirst then Loading(g, c, Some(s.counts[g].hi), None)
        else Loading(g, c, None, Some(s.counts[g].lo));
    s.(readers := s.readers[r := next])
  }

  datatype Step = Own(a: Addends) | Read(r: nat, f: Field, highFirst: bool)

  ghost predicate Next(s: State, step: Step, t: State) {
    Shaped(s) &&
    match step
    case Own(a) => t == OwnerStep(s, a)
    case Read(r, f, highFirst) => r in s.readers && t == ReaderStep(s, r, f, highFirst)
  }

  /** `run[0]` is initial and `steps[i]` leads from `run[i]` to `run[i + 1]`. */
  ghost predicate IsRun(run: seq<State>, steps: seq<Step>) {
    && |run| == |steps| + 1
    && Initial(run[0])
    && forall i {:trigger steps[i]} :: 0 <= i < |steps| ==> Next(run[i], steps[i], run[i + 1])
  }

  // ---------------------------------------------------------------- the owner

  /** Byte counts that `RecordAllocations` calls begun before state `k` asked to add to `f`. */
  ghost function Recorded(run: seq<State>, steps: seq<Step>, k: nat, f: Field): int
    requires k <= |steps| && k <= |run|
  {
    if k == 0 then 0
    else
      Recorded(run, steps, k - 1, f) +
      if steps[k - 1].Own? && run[k - 1].owner.Idle? then Part(steps[k - 1].a, f) else 0
  }

  function Rank(f: Field): nat {
    match f case Allocated => 0 case Freed => 1 case Overhead => 2
  }

  /** The count field `f` with the part of the running call that is still to be stored. */
  ghost predicate Accounted(s: State, f: Field, total: int)
    requires Shaped(s)
  {
    var goal := Min(total, INT64_MAX);
    match s.owner
    case AddAllocOps(a) => 0 <= Count(s, f) <= INT64_MAX && Min(Count(s, f) + Part(a, f), INT64_MAX) == goal
    case AddFreeOps(a) => 0 <= Count(s, f) <= INT64_MAX && Min(Count(s, f) + Part(a, f), INT64_MAX) == goal
    case AddBytes(a, g) =>
      if Rank(f) >= Rank(g)
      then 0 <= Count(s, f) <= INT64_MAX && Min(Count(s, f) + Part(a, f), INT64_MAX) == goal
      else Count(s, f) == goal
    case StoreHigh(a, g, sum) =>
      if f == g then sum == goal
      else if Rank(f) > Rank(g)
      then 0 <= Count(s, f) <= INT64_MAX && Min(Count(s, f) + Part(a, f), INT64_MAX) == goal
      else Count(s, f) == goal
    case StoreLow(a, g, sum) =>
      if f == g then sum == goal && 0 <= goal && s.counts[f].hi == HighWord(goal)
      else if Rank(f) > Rank(g)
      then 0 <= Count(s, f) <= INT64_MAX && Min(Count(s, f) + Part(a, f), INT64_MAX) == goal
      else Count(s, f) == goal
    case _ => Count(s, f) == goal
  }

  ghost predicate OwnerInv(s: State) {
    && Shaped(s)
    && (s.owner.Idle? <==> s.counter % 2 == 0)
    && (s.owner.StoreHigh? || s.owner.StoreLow? ==> 0 <= s.owner.sum <= INT64_MAX)
  }

  lemma AccountedStep(s: State, a: Addends, f: Field, total: int)
    requires OwnerInv(s) && 0 <= total && Accounted(s, f, total)
    ensures Accounted(OwnerStep(s, a), f, total + if s.owner.Idle? then Part(a, f) else 0)
  {
    if s.owner.StoreLow? { StoreLowAccounted(s, a, f, total); }
  }

  /** The low word completes the count. */
  lemma StoreLowAccounted(s: State, a: Addends, f: Field, total: int)
    requires OwnerInv(s) && 0 <= total && Accounted(s, f, total) && s.owner.StoreLow?
    ensures Accounted(OwnerStep(s, a), f, total)
  {
    SplitJoin(s.owner.sum);
  }

  lemma OwnerInvStep(s: State, step: Step, t: State, total: Field -> int)
    requires OwnerInv(s) && Next(s, step, t)
    requires forall f :: 0 <= total(f) && Accounted(s, f, total(f))
    ensures OwnerInv(t)
  {
    if step.Own? && s.owner.AddBytes? {
      var f := s.owner.f;
      assert 0 <= total(f) && Accounted(s, f, total(f));
    }
  }

  /**
   Conservation over every run: outside a call each byte count is the sum of all
   bytes ever recorded for it, clamped at the largest 64-bit value; inside a call
   the counter is odd and outside it is even, as the two DCHECKs demand.
   */
  lemma {:induction false} CountsAreRecordedTotals(run: seq<State>, steps: seq<Step>, k: nat)
    requires IsRun(run, steps) && k < |run|
    ensures OwnerInv(run[k])
    ensures forall f :: 0 <= Recorded(run, steps, k, f)
    ensures forall f :: Accounted(run[k], f, Recorded(run, steps, k, f))
    ensures run[k].owner.Idle? ==>
              forall f :: Count(run[k], f) == Min(Recorded(run, steps, k, f), INT64_MAX)
  {
    if k > 0 {
      CountsAreRecordedTotals(run, steps, k - 1);
      var s, t := run[k - 1], run[k];
      assert Next(run[k - 1], steps[k - 1], run[k]);
      OwnerInvStep(s, steps[k - 1], t, f => Recorded(run, steps, k - 1, f));
      forall f ensures Accounted(t, f, Recorded(run, steps, k, f)) {
        assert Accounted(s, f, Recorded(run, steps, k - 1, f));
        if steps[k - 1].Own? { AccountedStep(s, steps[k - 1].a, f, Recorded(run, steps, k - 1, f)); }
      }
    }
  }

  /** Steps of the owner to the end of its call, at the most. */
  function StepsLeft(owner: Owner): nat {
    match owner
    case Idle => 0
    case Release => 1
    case UpdateMax(_) => 2
    case StoreLow(_, f, _) => 3 + 3 * (2 - Rank(f))
    case StoreHigh(_, f, _) => 4 + 3 * (2 - Rank(f))
    case AddBytes(_, f) => 5 + 3 * (2 - Rank(f))
    case AddFreeOps(_) => 12
    case AddAllocOps(_) => 13
  }

  /** Every call ends: each step of the owner inside one brings it nearer to its end. */
  lemma CallEnds(run: seq<State>, steps: seq<Step>, k: nat)
    requires IsRun(run, steps) && k < |steps| && steps[k].Own? && !run[k].owner.Idle?
    ensures StepsLeft(run[k + 1].owner) < StepsLeft(run[k].owner) <= 13
  {
    CountsAreRecordedTotals(run, steps, k);
    assert Next(run[k], steps[k], run[k + 1]);
  }

  // ---------------------------------------------------------------- operation counts and the maximum

  datatype Ops = Allocs | Frees

  function Asked(a: Addends, o: Ops): Uint32 { if o.Allocs? then a.allocOps else a.freeOps }

  function OpsOf(s: State, o: Ops): int { if o.Allocs? then s.allocOps else s.freeOps }

  /** A call of `RecordAllocations` with arguments `steps[i].a` begins at step `i`. */
  ghost predicate Begins(run: seq<State>, steps: seq<Step>, i: nat) {
    i < |steps| && i < |run| && steps[i].Own? && run[i].owner.Idle?
  }

  /** Operations that calls begun before state `k` asked to count. */
  ghost function OpsRecorded(run: seq<State>, steps: seq<Step>, k: nat, o: Ops): int
    requires k <= |steps| && k <= |run|
  {
    if k == 0 then 0
    else OpsRecorded(run, steps, k - 1, o) + if Begins(run, steps, k - 1) then Asked(steps[k - 1].a, o) else 0
  }

  /** What the running call has still to count. */
  function OpsDue(owner: Owner, o: Ops): int {
    match owner
    case AddAllocOps(a) => Asked(a, o)
    case AddFreeOps(a) => if o.Frees? then Asked(a, o) else 0
    case _ => 0
  }

  ghost predicate OpsAccounted(s: State, o: Ops, total: int) {
    0 <= OpsOf(s, o) <= INT32_MAX && Min(OpsOf(s, o) + OpsDue(s.owner, o), INT32_MAX) == Min(total, INT32_MAX)
  }

  function Clamped(a: Addends): int { Min(a.maxAllocated, INT32_MAX) }

  /** The maximum that the running call has still to take into account. */
  function MaxDue(owner: Owner): int {
    match owner
    case Idle => 0
    case Release => 0
    case _ => Clamped(owner.a)
  }

  /** `v` is the greatest clamped maximum of the calls begun before state `k`, or 0. */
  ghost predicate Greatest(run: seq<State>, steps: seq<Step>, k: nat, v: int) {
    && 0 <= v && (forall i :: 0 <= i < k && Begins(run, steps, i) ==> Clamped(steps[i].a) <= v)
    && (v == 0 || exists i :: 0 <= i < k && Begins(run, steps, i) && Clamped(steps[i].a) == v)
  }

  function Max(a: int, b: int): int { if a >= b then a else b }

  lemma OpsStep(s: State, a: Addends, o: Ops, total: int)
    requires Shaped(s) && OpsAccounted(s, o, total) && 0 <= total
    ensures OpsAccounted(OwnerStep(s, a), o, total + if s.owner.Idle? then Asked(a, o) else 0)
  {}

  lemma MaxStep(s: State, a: Addends)
    requires Shaped(s) && 0 <= s.maxAllocated
    ensures var s' := OwnerStep(s, a);
            Max(s'.maxAllocated, MaxDue(s'.owner)) ==
            Max(Max(s.maxAllocated, MaxDue(s.owner)), if s.owner.Idle? then Clamped(a) else 0)
  {}

  lemma GreatestStep(run: seq<State>, steps: seq<Step>, k: nat, v: int)
    requires k < |steps| && k < |run| && Greatest(run, steps, k, v)
    ensures Greatest(run, steps, k + 1, Max(v, if Begins(run, steps, k) then Clamped(steps[k].a) else 0))
  {
    if v > 0 { var i :| 0 <= i < k && Begins(run, steps, i) && Clamped(steps[i].a) == v; }
  }

  lemma {:induction false} OpsHold(run: seq<State>, steps: seq<Step>, k: nat, o: Ops)
    requires IsRun(run, steps) && k < |run|
    ensures 0 <= OpsRecorded(run, steps, k, o) && OpsAccounted(run[k], o, OpsRecorded(run, steps, k, o))
  {
    if k > 0 {
      OpsHold(run, steps, k - 1, o);
      assert Next(run[k - 1], steps[k - 1], run[k]);
      if steps[k - 1].Own? { OpsStep(run[k - 1], steps[k - 1].a, o, OpsRecorded(run, steps, k - 1, o)); }
    }
  }

  lemma {:induction false} MaxHolds(run: seq<State>, steps: seq<Step>, k: nat)
    requires IsRun(run, steps) && k < |run|
    ensures 0 <= run[k].maxAllocated && Greatest(run, steps, k, Max(run[k].maxAllocated, MaxDue(run[k].owner)))
  {
    if k > 0 {
      var s := run[k - 1];
      MaxHolds(run, steps, k - 1);
      assert Next(run[k - 1], steps[k - 1], run[k]);
      GreatestStep(run, steps, k - 1, Max(s.maxAllocated, MaxDue(s.owner)));
      if steps[k - 1].Own? { MaxStep(s, steps[k - 1].a); }
    }
  }

  /**
   In every run, outside a call each operation count is the sum of what all calls asked to
   count, clamped at the largest 32-bit value, and the maximum is the greatest of theirs.
   */
  lemma OperationsAreRecordedTotals(run: seq<State>, steps: seq<Step>, k: nat)
    requires IsRun(run, steps) && k < |run| && run[k].owner.Idle?
    ensures run[k].allocOps == Min(OpsRecorded(run, steps, k, Allocs), INT32_MAX)
    ensures run[k].freeOps == Min(OpsRecorded(run, steps, k, Frees), INT32_MAX)
    ensures Greatest(run, steps, k, run[k].maxAllocated)
  {
    OpsHold(run, steps, k, Allocs);
    OpsHold(run, steps, k, Frees);
    MaxHolds(run, steps, k);
  }

  // ---------------------------------------------------------------- the readers

  /** How often the update counter is bumped between states `i` and `j`. */
  ghost function Ticks(run: seq<State>, i: nat, j: nat): nat
    requires i <= j < |run|
    decreases j - i
  {
    if i == j then 0
    else Ticks(run, i, j - 1) + if run[j].counter != run[j - 1].counter then 1 else 0
  }

  /** An update is in progress exactly while the owner is inside a call. */
  ghost predicate Quiescent(s: State) { s.owner.Idle? }

  lemma StepTicksOnce(run: seq<State>, steps: seq<Step>, i: nat)
    requires IsRun(run, steps) && i < |steps|
    ensures run[i + 1].counter == run[i].counter || run[i + 1].counter == Tick(run[i].counter)
  {
    assert Next(run[i], steps[i], run[i + 1]);
  }

  lemma WrappedSum(c: int, n: int)
    ensures ((c + n) % WORD + 1) % WORD == (c + n + 1) % WORD
  {}

  lemma {:induction false} TicksAdvanceCounter(run: seq<State>, steps: seq<Step>, i: nat, j: nat)
    requires IsRun(run, steps) && i <= j < |run|
    ensures run[j].counter == (run[i].counter + Ticks(run, i, j)) % WORD
    decreases j - i
  {
    if i < j {
      TicksAdvanceCounter(run, steps, i, j - 1);
      StepTicksOnce(run, steps, j - 1);
      WrappedSum(run[i].counter, Ticks(run, i, j - 1));
    }
  }

  /** While the counter stands still after a quiescent state, the owner changes nothing. */
  lemma {:induction false} StillCounterFreezesCounts(run: seq<State>, steps: seq<Step>, i: nat, j: nat)
    requires IsRun(run, steps) && i <= j < |run|
    requires Quiescent(run[i]) && Ticks(run, i, j) == 0
    ensures Quiescent(run[j]) && run[j].counts == run[i].counts
    decreases j - i
  {
    if i < j {
      StillCounterFreezesCounts(run, steps, i, j - 1);
      CountsAreRecordedTotals(run, steps, j - 1);
      assert Next(run[j - 1], steps[j - 1], run[j]);
    }
  }

  ghost predicate InCall(reader: Reader) { reader.Spinning? || reader.Loading? }

  /** Reader `r` began a read of `f` at `i` and has been inside that call up to `j`. */
  ghost predicate Reading(run: seq<State>, r: nat, f: Field, i: nat, j: nat)
    requires i <= j < |run|
  {
    forall k :: i <= k <= j ==>
      r in run[k].readers && InCall(run[k].readers[r]) && run[k].readers[r].f == f &&
      (k == i ==> run[k].readers[r].Spinning?)
  }

  /** The reader of `f` left its loop at `a`, with an even counter, and has been loading since. */
  ghost predicate LoadedFrom(run: seq<State>, r: nat, f: Field, a: nat, j: nat)
    requires a < j < |run|
  {
    && r in run[a].readers && run[a].readers[r] == Spinning(f)
    && forall k :: a < k <= j ==> r in run[k].readers && run[k].readers[r].Loading? && run[k].readers[r].f == f
  }

  /** Every read that returns has such an instant, its last load of the counter in the loop. */
  lemma {:induction false} LastLoad(run: seq<State>, steps: seq<Step>, r: nat, f: Field, i: nat, j: nat)
      returns (a: nat)
    requires IsRun(run, steps) && i <= j < |run| && Reading(run, r, f, i, j) && run[j].readers[r].Loading?
    ensures i <= a < j && LoadedFrom(run, r, f, a, j)
    decreases j - i
  {
    assert InCall(run[j - 1].readers[r]) && run[j - 1].readers[r].f == f;
    if run[j - 1].readers[r].Spinning? {
      a := j - 1;
    } else {
      a := LastLoad(run, steps, r, f, i, j - 1);
    }
  }

  /** The reader's words fit the state in which it last loaded the counter. */
  ghost predicate Anchored(run: seq<State>, reader: Reader, a: nat, j: nat)
    requires a <= j < |run| && Shaped(run[a]) && reader.Loading?
  {
    && Quiescent(run[a])
    && run[a].counter == reader.seen
    && (Ticks(run, a, j) == 0 ==>
          && (reader.hi.Some? ==> reader.hi.value == run[a].counts[reader.f].hi)
          && (reader.lo.Some? ==> reader.lo.value == run[a].counts[reader.f].lo))
  }

  lemma {:induction false} LoadingIsAnchored(run: seq<State>, steps: seq<Step>, r: nat, f: Field, a: nat, j: nat)
    requires IsRun(run, steps) && a < j < |run| && LoadedFrom(run, r, f, a, j)
    ensures Shaped(run[a]) && Anchored(run, run[j].readers[r], a, j)
    decreases j - a
  {
    CountsAreRecordedTotals(run, steps, j - 1);
    assert Next(run[j - 1], steps[j - 1], run[j]);
    if a == j - 1 {
      assert Ticks(run, a, a) == 0;
    } else {
      LoadingIsAnchored(run, steps, r, f, a, j - 1);
      if Ticks(run, a, j) == 0 { StillCounterFreezesCounts(run, steps, a, j - 1); }
    }
  }

  /**
   No torn read. A value returned for `f` is the whole 64-bit count that `f` held when the reader last
   loaded the counter in its loop, and no update was in progress then, provided fewer than 2^32 counter
   increments came after. How long the reader had been kept waiting before does not matter.
   */
  lemma ReadIsUntorn(run: seq<State>, steps: seq<Step>, r: nat, f: Field, a: nat, j: nat)
    requires IsRun(run, steps) && a + 1 < j < |run| && LoadedFrom(run, r, f, a, j - 1)
    requires r in run[j].readers && run[j].readers[r].Returned?
    requires Ticks(run, a, j) < WORD
    ensures Shaped(run[a]) && Quiescent(run[a]) && Count(run[a], f) == run[j].readers[r].value
  {
    assert Next(run[j - 1], steps[j - 1], run[j]);
    LoadingIsAnchored(run, steps, r, f, a, j - 1);
    TicksAdvanceCounter(run, steps, a, j - 1);
    assert Ticks(run, a, j - 1) == 0;
  }
}
