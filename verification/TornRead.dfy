/**
  * The bound on a consistent read of a byte count is sharp: a run in which the update counter is
  * incremented exactly 2^32 times within one read, and the read returns a value the count never held.
  *
  * The reader loads an even counter and the high word; the owner then records 2^32 - 1 bytes, 5 bytes,
  * and `n` times nothing; the reader loads the low word and finds the counter where it was.
  */
module TornRead {
  import opened UpdateCounter
  import opened Wrappers

  const NOTHING: Addends := Addends(0, 0, 0, 0, 0, 0)

  function Bytes(amount: Uint32): Addends { NOTHING.(allocatedBytes := amount) }

  /** Three steps of the reader, two calls of ten steps, `n` calls of eight, two steps of the reader. */
  function StepAt(k: nat, n: nat): Step {
    if k < 3 || k >= 23 + 8 * n then Read(0, Allocated, true)
    else if k < 13 then Own(Bytes(0xFFFF_FFFF))
    else if k < 23 then Own(Bytes(5))
    else Own(NOTHING)
  }

  lemma ThreeFields(m: map<Field, Words>)
    requires Allocated in m && Freed in m && Overhead in m
    ensures forall f: Field :: f in m
  {
    forall f: Field ensures f in m {
      match f
      case Allocated =>
      case Freed =>
      case Overhead =>
    }
  }

  /** With nothing but allocated bytes ever recorded. */
  function Make(counter: Uint32, count: Words, owner: Owner, reader: Reader): (s: State)
    ensures Shaped(s)
  {
    var counts := map[Allocated := count, Freed := Words(0, 0), Overhead := Words(0, 0)];
    ThreeFields(counts);
    State(counter, 0, 0, 0, counts, owner, map[0 := reader])
  }

  ghost predicate Follows(run: seq<State>, n: nat) {
    && |run| == 26 + 8 * n && run[0] == Make(0, Words(0, 0), Idle, Away)
    && forall k: nat {:trigger StepAt(k, n)} :: k < 25 + 8 * n ==> Next(run[k], StepAt(k, n), run[k + 1])
  }

  // ---------------------------------------------------------------- there is such a run

  ghost function StateAt(k: nat, n: nat): (s: State)
    ensures Shaped(s) && 0 in s.readers
  {
    if k == 0 then Make(0, Words(0, 0), Idle, Away)
    else
      var s := StateAt(k - 1, n);
      match StepAt(k - 1, n)
      case Own(a) => OwnerStep(s, a)
      case Read(r, f, highFirst) => ReaderStep(s, 0, f, highFirst)
  }

  lemma RunExists(n: nat) returns (run: seq<State>)
    ensures Follows(run, n)
  {
    run := seq(26 + 8 * n, k requires 0 <= k => StateAt(k, n));
    forall k: nat | k < 25 + 8 * n ensures Next(run[k], StepAt(k, n), run[k + 1]) {
      assert run[k] == StateAt(k, n) && run[k + 1] == StateAt(k + 1, n);
    }
  }

  lemma FollowsIsRun(run: seq<State>, n: nat) returns (steps: seq<Step>)
    requires Follows(run, n)
    ensures IsRun(run, steps)
  {
    steps := seq(25 + 8 * n, k requires 0 <= k => StepAt(k, n));
    forall k | 0 <= k < |steps| ensures Next(run[k], steps[k], run[k + 1]) {
      assert steps[k] == StepAt(k, n);
    }
  }

  // ---------------------------------------------------------------- single steps

  const W0: Words := Words(0, 0)
  const W1: Words := Words(0, -1)   // 2^32 - 1
  const W2: Words := Words(1, 4)    // 2^32 + 4
  const WAITING: Reader := Loading(Allocated, 0, Some(0), None)

  lemma OneStep(run: seq<State>, n: nat, k: nat)
    requires Follows(run, n) && k < 25 + 8 * n
    ensures Next(run[k], StepAt(k, n), run[k + 1])
  {}

  lemma ReaderLoadsHigh(run: seq<State>, n: nat)
    requires Follows(run, n)
    ensures run[1] == Make(0, W0, Idle, Spinning(Allocated))
    ensures run[2] == Make(0, W0, Idle, Loading(Allocated, 0, None, None))
    ensures run[3] == Make(0, W0, Idle, WAITING)
  {
    OneStep(run, n, 0);
    assert run[1].readers == map[0 := Spinning(Allocated)];
    OneStep(run, n, 1);
    assert run[2].readers == map[0 := Loading(Allocated, 0, None, None)];
    OneStep(run, n, 2);
    assert run[3].readers == map[0 := WAITING];
  }

  lemma ReaderLoadsLow(run: seq<State>, n: nat, m: nat)
    requires Follows(run, n) && m == 23 + 8 * n && run[m] == Make(0, W2, Idle, WAITING)
    ensures run[m + 1] == Make(0, W2, Idle, Loading(Allocated, 0, Some(0), Some(4)))
    ensures run[m + 2] == Make(0, W2, Idle, Returned(Allocated, 4))
  {
    OneStep(run, n, m);
    assert run[m + 1].readers == map[0 := Loading(Allocated, 0, Some(0), Some(4))];
    OneStep(run, n, m + 1);
    assert run[m + 2].readers == map[0 := Returned(Allocated, 4)];
  }

  lemma Begins(a: Addends, c: Uint32, w: Words)
    ensures OwnerStep(Make(c, w, Idle, WAITING), a) == Make(Tick(c), w, AddAllocOps(a), WAITING)
  {}

  /** The steps of a call before the bytes: nothing is counted. */
  lemma OpsSteps(c: Uint32, w: Words, amount: Uint32)
    ensures var a := Bytes(amount);
            && OwnerStep(Make(c, w, AddAllocOps(a), WAITING), a) == Make(c, w, AddFreeOps(a), WAITING)
            && OwnerStep(Make(c, w, AddFreeOps(a), WAITING), a) == Make(c, w, AddBytes(a, Allocated), WAITING)
  {}

  /** The steps of a call after the allocated bytes. */
  lemma TailSteps(c: Uint32, w: Words, amount: Uint32)
    ensures var a := Bytes(amount);
            && OwnerStep(Make(c, w, AddBytes(a, Freed), WAITING), a) == Make(c, w, AddBytes(a, Overhead), WAITING)
            && OwnerStep(Make(c, w, AddBytes(a, Overhead), WAITING), a) == Make(c, w, UpdateMax(a), WAITING)
            && OwnerStep(Make(c, w, UpdateMax(a), WAITING), a) == Make(c, w, Release, WAITING)
            && OwnerStep(Make(c, w, Release, WAITING), a) == Make(Tick(c), w, Idle, WAITING)
  {}

  lemma BytesSteps(c: Uint32, w: Words, amount: Uint32, sum: int)
    requires amount > 0 && 0 <= Value(w) && sum == Value(w) + amount && sum <= 0x2_0000_0000
    ensures var a := Bytes(amount);
            && OwnerStep(Make(c, w, AddBytes(a, Allocated), WAITING), a) ==
               Make(c, w, StoreHigh(a, Allocated, sum), WAITING)
            && OwnerStep(Make(c, w, StoreHigh(a, Allocated, sum), WAITING), a) ==
               Make(c, w.(hi := HighWord(sum)), StoreLow(a, Allocated, sum), WAITING)
            && OwnerStep(Make(c, w.(hi := HighWord(sum)), StoreLow(a, Allocated, sum), WAITING), a) ==
               Make(c, Words(HighWord(sum), LowWord(sum)), AddBytes(a, Freed), WAITING)
  {
    var a := Bytes(amount);
    assert Count(Make(c, w, AddBytes(a, Allocated), WAITING), Allocated) == Value(w);
    var s := Make(c, w, StoreHigh(a, Allocated, sum), WAITING);
    assert OwnerStep(s, a).counts == Make(c, w.(hi := HighWord(sum)), Idle, WAITING).counts;
    var t := Make(c, w.(hi := HighWord(sum)), StoreLow(a, Allocated, sum), WAITING);
    assert OwnerStep(t, a).counts == Make(c, Words(HighWord(sum), LowWord(sum)), Idle, WAITING).counts;
  }

  lemma NoBytesStep(c: Uint32, w: Words)
    ensures OwnerStep(Make(c, w, AddBytes(NOTHING, Allocated), WAITING), NOTHING) ==
            Make(c, w, AddBytes(NOTHING, Freed), WAITING)
  {}

  // ---------------------------------------------------------------- whole calls

  /** The states of one call, from idle to idle. */
  ghost predicate IsCall(states: seq<State>, a: Addends, c: Uint32, w: Words, w': Words) {
    && |states| > 2
    && states[0] == Make(c, w, Idle, WAITING) && states[|states| - 1] == Make(Tick(Tick(c)), w', Idle, WAITING)
    && (forall k :: 0 < k < |states| - 1 ==>
          !states[k].owner.Idle? && states[k].counter == Tick(c) && states[k].readers == map[0 := WAITING])
    && (forall k :: 0 <= k < |states| - 1 ==> Steps(states, a, k))
  }

  ghost predicate Steps(states: seq<State>, a: Addends, k: nat)
    requires k < |states| - 1
  { Shaped(states[k]) && OwnerStep(states[k], a) == states[k + 1] }

  lemma CallOfTen(c: Uint32, w: Words, amount: Uint32, sum: int) returns (states: seq<State>)
    requires amount > 0 && 0 <= Value(w) && sum == Value(w) + amount <= 0x2_0000_0000
    ensures |states| == 11 && IsCall(states, Bytes(amount), c, w, Words(HighWord(sum), LowWord(sum)))
  {
    var a, c', w' := Bytes(amount), Tick(c), Words(HighWord(sum), LowWord(sum));
    states := [Make(c, w, Idle, WAITING), Make(c', w, AddAllocOps(a), WAITING), Make(c', w, AddFreeOps(a), WAITING),
     Make(c', w, AddBytes(a, Allocated), WAITING), Make(c', w, StoreHigh(a, Allocated, sum), WAITING),
     Make(c', w.(hi := HighWord(sum)), StoreLow(a, Allocated, sum), WAITING), Make(c', w', AddBytes(a, Freed), WAITING),
     Make(c', w', AddBytes(a, Overhead), WAITING), Make(c', w', UpdateMax(a), WAITING), Make(c', w', Release, WAITING),
     Make(Tick(c'), w', Idle, WAITING)];
    Begins(a, c, w);
    OpsSteps(c', w, amount);
    BytesSteps(c', w, amount, sum);
    TailSteps(c', w', amount);
  }

  lemma CallOfEight(c: Uint32, w: Words) returns (states: seq<State>)
    ensures |states| == 9 && IsCall(states, NOTHING, c, w, w)
  {
    var a, c' := NOTHING, Tick(c);
    states := [Make(c, w, Idle, WAITING), Make(c', w, AddAllocOps(a), WAITING), Make(c', w, AddFreeOps(a), WAITING),
     Make(c', w, AddBytes(a, Allocated), WAITING), Make(c', w, AddBytes(a, Freed), WAITING),
     Make(c', w, AddBytes(a, Overhead), WAITING), Make(c', w, UpdateMax(a), WAITING), Make(c', w, Release, WAITING),
     Make(Tick(c'), w, Idle, WAITING)];
    assert Bytes(0) == a;
    Begins(a, c, w);
    OpsSteps(c', w, 0);
    NoBytesStep(c', w);
    TailSteps(c', w, 0);
  }

  ghost predicate Owning(m: nat, length: nat, n: nat, a: Addends) {
    m + length <= 25 + 8 * n && forall k: nat :: m <= k < m + length ==> StepAt(k, n) == Own(a)
  }

  /** The run goes through the states of the call. */
  lemma {:induction false} Through(run: seq<State>, n: nat, m: nat, states: seq<State>, a: Addends,
                                   c: Uint32, w: Words, w': Words, j: nat)
    requires Follows(run, n) && IsCall(states, a, c, w, w') && Owning(m, |states| - 1, n, a) && j < |states|
    requires run[m] == states[0]
    ensures run[m + j] == states[j]
    decreases j
  {
    if j > 0 {
      Through(run, n, m, states, a, c, w, w', j - 1);
      OneStep(run, n, m + j - 1);
      assert Steps(states, a, j - 1);
    }
  }

  /** The reader waits, and if the owner is idle the count is one of three. */
  ghost predicate Fine(s: State) {
    s.readers == map[0 := WAITING] && (Quiescent(s) ==> exists c, w :: Stands(s, c, w))
  }

  ghost predicate Stands(s: State, c: Uint32, w: Words) { w in [W0, W1, W2] && s == Make(c, w, Idle, WAITING) }

  ghost predicate Harmless(run: seq<State>, from: nat, to: nat)
    requires to < |run|
  { forall k :: from <= k <= to ==> Fine(run[k]) }

  lemma CallIsFine(states: seq<State>, a: Addends, c: Uint32, w: Words, w': Words, k: nat)
    requires IsCall(states, a, c, w, w') && w in [W0, W1, W2] && w' in [W0, W1, W2] && k < |states|
    ensures Fine(states[k])
  {
    if k == 0 {
      assert Stands(states[k], c, w);
    } else if k == |states| - 1 {
      assert Stands(states[k], Tick(Tick(c)), w');
    }
  }

  /** One call: the counter moves on by two, and nothing is to be seen but the count before and after. */
  lemma OneCall(run: seq<State>, n: nat, m: nat, states: seq<State>, a: Addends, c: Uint32, w: Words, w': Words)
    requires Follows(run, n) && IsCall(states, a, c, w, w') && Owning(m, |states| - 1, n, a) && 1 <= m
    requires run[m] == states[0] && w in [W0, W1, W2] && w' in [W0, W1, W2]
    ensures run[m + |states| - 1] == Make(Tick(Tick(c)), w', Idle, WAITING)
    ensures Ticks(run, 1, m + |states| - 1) == Ticks(run, 1, m) + 2 && Harmless(run, m, m + |states| - 1)
  {
    var last := |states| - 1;
    forall k | m <= k <= m + last ensures Fine(run[k]) {
      Through(run, n, m, states, a, c, w, w', k - m);
      CallIsFine(states, a, c, w, w', k - m);
    }
    Through(run, n, m, states, a, c, w, w', last);
    CallTicks(run, n, m, states, a, c, w, w', last);
  }

  lemma {:induction false} CallTicks(run: seq<State>, n: nat, m: nat, states: seq<State>, a: Addends,
                                     c: Uint32, w: Words, w': Words, j: nat)
    requires Follows(run, n) && IsCall(states, a, c, w, w') && Owning(m, |states| - 1, n, a) && 1 <= m
    requires run[m] == states[0] && 0 < j < |states|
    ensures Ticks(run, 1, m + j) == Ticks(run, 1, m) + if j < |states| - 1 then 1 else 2
    decreases j
  {
    Through(run, n, m, states, a, c, w, w', j);
    Through(run, n, m, states, a, c, w, w', j - 1);
    assert states[j].counter == if j < |states| - 1 then Tick(c) else Tick(Tick(c));
    assert states[j - 1].counter == if j == 1 then c else Tick(c);
    assert run[m + j].counter != run[m + j - 1].counter <==> j == 1 || j == |states| - 1;
    if j > 1 { CallTicks(run, n, m, states, a, c, w, w', j - 1); }
  }

  // ---------------------------------------------------------------- the whole run

  lemma FirstCall(run: seq<State>, n: nat)
    requires Follows(run, n)
    ensures run[13] == Make(2, W1, Idle, WAITING) && Ticks(run, 1, 13) == 2 && Harmless(run, 3, 13)
  {
    ReaderLoadsHigh(run, n);
    assert Ticks(run, 1, 1) == 0 && Ticks(run, 1, 2) == 0 && Ticks(run, 1, 3) == 0;
    var states := CallOfTen(0, W0, 0xFFFF_FFFF, 0xFFFF_FFFF);
    OneCall(run, n, 3, states, Bytes(0xFFFF_FFFF), 0, W0, W1);
  }

  lemma TwoCalls(run: seq<State>, n: nat)
    requires Follows(run, n)
    ensures run[23] == Make(4, W2, Idle, WAITING) && Ticks(run, 1, 23) == 4 && Harmless(run, 3, 23)
  {
    FirstCall(run, n);
    var states := CallOfTen(2, W1, 5, 0x1_0000_0004);
    OneCall(run, n, 13, states, Bytes(5), 2, W1, W2);
  }

  lemma {:induction false} EmptyCalls(run: seq<State>, n: nat, j: nat)
    requires Follows(run, n) && j <= n
    ensures run[23 + 8 * j] == Make((4 + 2 * j) % WORD, W2, Idle, WAITING)
    ensures Ticks(run, 1, 23 + 8 * j) == 4 + 2 * j && Harmless(run, 3, 23 + 8 * j)
    decreases j
  {
    if j == 0 {
      TwoCalls(run, n);
    } else {
      EmptyCalls(run, n, j - 1);
      var m, c := 23 + 8 * (j - 1), (4 + 2 * (j - 1)) % WORD;
      var states := CallOfEight(c, W2);
      OneCall(run, n, m, states, NOTHING, c, W2, W2);
      WrappedSum(4 + 2 * (j - 1), 0);
      WrappedSum(4 + 2 * (j - 1), 1);
    }
  }

  lemma FineIsNotFour(s: State)
    requires Fine(s) && Quiescent(s)
    ensures Shaped(s) && Count(s, Allocated) != 4
  {
    var c, w :| Stands(s, c, w);
  }

  /** After 2^31 calls the counter is where it was, and the reader joins the words of two different counts. */
  lemma TornAtFullWrap() returns (run: seq<State>, steps: seq<Step>, i: nat, j: nat)
    ensures IsRun(run, steps) && i + 1 < j < |run| && LoadedFrom(run, 0, Allocated, i, j - 1)
    ensures Ticks(run, i, j) == WORD
    ensures 0 in run[j].readers && run[j].readers[0] == Returned(Allocated, 4)
    ensures forall k :: i <= k <= j && Quiescent(run[k]) ==> Shaped(run[k]) && Count(run[k], Allocated) != 4
  {
    var n: nat := 0x7FFF_FFFE;
    run := RunExists(n);
    steps := FollowsIsRun(run, n);
    ReaderLoadsHigh(run, n);
    EmptyCalls(run, n, n);
    var m := 23 + 8 * n;
    ReaderLoadsLow(run, n, m);
    i, j := 1, m + 2;
    assert Ticks(run, 1, m + 1) == WORD && Ticks(run, 1, m + 2) == WORD;
    forall k | i <= k <= j && Quiescent(run[k]) ensures Shaped(run[k]) && Count(run[k], Allocated) != 4 {
      if 3 <= k <= m { FineIsNotFour(run[k]); }
    }
  }

  /** At event j the reader returns from a read of `f`, having last loaded the counter in its loop at state `a`. */
  ghost predicate Returns(run: seq<State>, steps: seq<Step>, r: nat, f: Field, a: nat, j: nat) {
    && IsRun(run, steps) && a + 1 < j < |run| && LoadedFrom(run, r, f, a, j - 1)
    && r in run[j].readers && run[j].readers[r].Returned?
  }

  /** The value returned is the count at that load, with no update in progress. */
  ghost predicate Untorn(run: seq<State>, r: nat, f: Field, a: nat, j: nat)
    requires a < |run| && j < |run| && r in run[j].readers && run[j].readers[r].Returned?
  { Shaped(run[a]) && Quiescent(run[a]) && Count(run[a], f) == run[j].readers[r].value }

  /** Every read with at most `bound` increments after its last load of the counter is untorn. */
  ghost predicate ReadsUntorn(bound: nat) {
    forall run, steps, r, f, a, j :: Returns(run, steps, r, f, a, j) && Ticks(run, a, j) <= bound ==>
      Untorn(run, r, f, a, j)
  }

  /** Which is so exactly if the counter cannot wrap around within that many. */
  lemma ReadsUntornExactly(bound: nat)
    ensures ReadsUntorn(bound) <==> bound < WORD
  {
    if bound < WORD {
      forall run, steps, r, f, a, j | Returns(run, steps, r, f, a, j) && Ticks(run, a, j) <= bound
        ensures Untorn(run, r, f, a, j)
      {
        ReadIsUntorn(run, steps, r, f, a, j);
      }
    } else {
      var run, steps, a, j := TornAtFullWrap();
      assert Returns(run, steps, 0, Allocated, a, j) && !Untorn(run, 0, Allocated, a, j);
    }
  }
}
