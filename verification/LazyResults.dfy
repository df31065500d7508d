/**
 What the create-once protocol does with creators that may return anything, the two
 reserved words included: exactly which results make the creator run again, and
 exactly which make a call spin for ever.
 */
module LazyResults {
  import opened LazyInstance

  // ---------------------------------------------------------------- what every step keeps

  ghost predicate AllNull(made: seq<Word>) { forall i :: 0 <= i < |made| ==> made[i] == EMPTY }

  /** The result of the last creator call. */
  ghost predicate LastIs(made: seq<Word>, w: Word) { made != [] && made[|made| - 1] == w }

  ghost predicate ResultsInv(s: State) {
    && (forall t, u :: Creates(s, t) && Creates(s, u) ==> t == u)
    && (forall t :: Creates(s, t) ==>
          && s.word == CREATING
          && if s.calls[t].Create? then AllNull(s.made) else LastIs(s.made, s.calls[t].made))
    && (forall i :: 0 <= i < |s.made| - 1 ==> s.made[i] == EMPTY)
    && (s.word == EMPTY ==> AllNull(s.made))
    && (s.word == CREATING ==> LastIs(s.made, CREATING) || exists t :: Creates(s, t))
    && (LastIs(s.made, CREATING) ==> s.word == CREATING)
  }

  lemma QuietKeeps(s: State, step: Step, s': State, registerOnExit: bool)
    requires ResultsInv(s) && Next(s, step, s', registerOnExit)
    requires !Creates(s, step.thread) && !(s.calls[step.thread].Swap? && s.word == EMPTY)
    ensures ResultsInv(s') && s'.made == s.made && s'.word == s.word
  {
    OthersStay(s, step, s', registerOnExit);
    if u :| Creates(s, u) { assert Creates(s', u); }
    assert forall u :: Creates(s', u) ==> Creates(s, u) && s'.calls[u] == s.calls[u];
  }

  lemma SwapKeeps(s: State, step: Step, s': State, registerOnExit: bool)
    requires ResultsInv(s) && Next(s, step, s', registerOnExit) && s.calls[step.thread].Swap? && s.word == EMPTY
    ensures ResultsInv(s')
  {
    OthersStay(s, step, s', registerOnExit);
    assert forall u :: !Creates(s, u);
    assert Creates(s', step.thread);
  }

  lemma CreatorKeeps(s: State, step: Step, s': State, registerOnExit: bool)
    requires ResultsInv(s) && Next(s, step, s', registerOnExit) && Creates(s, step.thread)
    ensures ResultsInv(s')
  {
    var t := step.thread;
    OthersStay(s, step, s', registerOnExit);
    if s.calls[t].Create? {
      assert Creates(s', t) && LastIs(s'.made, step.result);
    } else {
      assert forall u :: !Creates(s', u);
      if s'.word == EMPTY {
        forall i | 0 <= i < |s'.made| ensures s'.made[i] == EMPTY {}
      }
    }
  }

  lemma ResultsInvStep(s: State, step: Step, s': State, registerOnExit: bool)
    requires ResultsInv(s) && Next(s, step, s', registerOnExit)
    ensures ResultsInv(s') && s.made <= s'.made
  {
    if Creates(s, step.thread) {
      CreatorKeeps(s, step, s', registerOnExit);
    } else if s.calls[step.thread].Swap? && s.word == EMPTY {
      SwapKeeps(s, step, s', registerOnExit);
    } else {
      QuietKeeps(s, step, s', registerOnExit);
    }
  }

  lemma {:induction false} ResultsInvHolds(run: seq<State>, steps: seq<Step>, registerOnExit: bool, k: nat)
    requires IsRun(run, steps, registerOnExit) && k < |run|
    ensures ResultsInv(run[k])
  {
    if k == 0 {
      assert forall t :: !Creates(run[0], t);
    } else {
      ResultsInvHolds(run, steps, registerOnExit, k - 1);
      assert Next(run[k - 1], steps[k - 1], run[k], registerOnExit);
      ResultsInvStep(run[k - 1], steps[k - 1], run[k], registerOnExit);
    }
  }

  // ---------------------------------------------------------------- creating again

  /** On every run, whatever the creator returns, it is run again only after it returned 0. */
  lemma RunsAgainOnlyAfterNull(run: seq<State>, steps: seq<Step>, registerOnExit: bool, k: nat, i: nat)
    requires IsRun(run, steps, registerOnExit) && k < |run| && i + 1 < |run[k].made|
    ensures run[k].made[i] == EMPTY
  {
    ResultsInvHolds(run, steps, registerOnExit, k);
  }

  lemma NullAmongMade(run: seq<State>, steps: seq<Step>, registerOnExit: bool, k: nat)
    requires IsRun(run, steps, registerOnExit) && k < |run| && |run[k].made| > 1
    ensures EMPTY in run[k].made
  {
    RunsAgainOnlyAfterNull(run, steps, registerOnExit, k, 0);
    assert run[k].made[0] == EMPTY;
  }

  ghost predicate Within(steps: seq<Step>, allowed: Word -> bool) {
    forall i :: 0 <= i < |steps| ==> allowed(steps[i].result)
  }

  lemma {:induction false} MadeAllowed(run: seq<State>, steps: seq<Step>, registerOnExit: bool, k: nat,
                                       allowed: Word -> bool)
    requires IsRun(run, steps, registerOnExit) && Within(steps, allowed) && k < |run|
    ensures forall p :: p in run[k].made ==> allowed(p)
  {
    if k > 0 {
      MadeAllowed(run, steps, registerOnExit, k - 1, allowed);
      assert Next(run[k - 1], steps[k - 1], run[k], registerOnExit);
    }
  }

  /** No run in which the creator returns allowed words only runs it more than once. */
  ghost predicate RunsOnce(allowed: Word -> bool) {
    forall run: seq<State>, steps: seq<Step>, registerOnExit: bool ::
      IsRun(run, steps, registerOnExit) && Within(steps, allowed) ==> |run[|steps|].made| <= 1
  }

  /** Which is so exactly if 0 is not among them. */
  lemma RunsOnceExactly(allowed: Word -> bool)
    ensures RunsOnce(allowed) <==> !allowed(EMPTY)
  {
    if allowed(EMPTY) {
      var run, steps := NullResultRunsCreatorTwice();
      assert IsRun(run, steps, false) && Within(steps, allowed);
    } else {
      forall run: seq<State>, steps: seq<Step>, registerOnExit: bool |
        IsRun(run, steps, registerOnExit) && Within(steps, allowed)
        ensures |run[|steps|].made| <= 1
      {
        var made := run[|steps|].made;
        if |made| > 1 { NullAmongMade(run, steps, registerOnExit, |steps|); }
        MadeAllowed(run, steps, registerOnExit, |steps|, allowed);
      }
    }
  }

  /** After a creator result of 0 the word is empty again and the next call runs the creator again. */
  lemma NullResultRunsCreatorTwice() returns (run: seq<State>, steps: seq<Step>)
    ensures IsRun(run, steps, false) && |run[|steps|].made| == 2
    ensures forall i :: 0 <= i < |steps| ==> steps[i].result == EMPTY
  {
    var s0 := State(EMPTY, map[0 := Away], [], 0);
    var s4 := EmptyRunsCreator(s0);
    var s5, s6 := After(s4), After(After(s4));
    assert s6.calls[0] == Returned(EMPTY) && s6.word == EMPTY;
    var s10 := EmptyRunsCreator(s6);
    steps := seq(10, _ => Step(0, EMPTY));
    run := [s0, After(s0), After(After(s0)), After(After(After(s0))), s4,
            s5, s6, After(s6), After(After(s6)), After(After(After(s6))), s10];
    forall i | 0 <= i < 10 ensures run[i + 1] == After(run[i]) && 0 in run[i].calls {}
    forall i | 0 <= i < 10 ensures Next(run[i], steps[i], run[i + 1], false) {}
  }

  /** The one call takes its next step; the creator answers 0. */
  function After(s: State): State
    requires 0 in s.calls
  { CallStep(s, 0, EMPTY, false) }

  /** From an empty word a call gets to run the creator in four steps. */
  lemma EmptyRunsCreator(s: State) returns (s': State)
    requires s.word == EMPTY && 0 in s.calls && (s.calls[0].Away? || s.calls[0].Returned?)
    ensures 0 in After(s).calls && 0 in After(After(s)).calls && 0 in After(After(After(s))).calls
    ensures s' == After(After(After(After(s)))) && 0 in s'.calls && s'.calls[0] == Store(EMPTY)
    ensures s'.made == s.made + [EMPTY] && s'.word == CREATING
  {
    var s1, s2, s3 := After(s), After(After(s)), After(After(After(s)));
    assert s1.calls[0] == FastLoad && s2.calls[0] == Swap && s3.calls[0] == Create;
    s' := After(s3);
  }

  // ---------------------------------------------------------------- spinning for ever

  ghost predicate IsSegment(run: seq<State>, steps: seq<Step>, registerOnExit: bool) {
    && |run| == |steps| + 1
    && forall i {:trigger steps[i]} :: 0 <= i < |steps| ==> Next(run[i], steps[i], run[i + 1], registerOnExit)
  }

  ghost predicate Spins(s: State, t: nat) { t in s.calls && s.calls[t].Spin? }

  /** However the run goes on with allowed results, the call stays in its loop. */
  ghost predicate SpinsForEver(s: State, t: nat, registerOnExit: bool, allowed: Word -> bool) {
    forall run: seq<State>, steps: seq<Step> ::
      IsSegment(run, steps, registerOnExit) && Within(steps, allowed) && run[0] == s ==> Spins(run[|steps|], t)
  }

  /** Once the creator has returned 1 nothing changes the word. */
  lemma {:induction false} OneSpinsOn(run: seq<State>, steps: seq<Step>, registerOnExit: bool, k: nat, t: nat)
    requires IsSegment(run, steps, registerOnExit) && k < |run|
    requires ResultsInv(run[0]) && LastIs(run[0].made, CREATING) && Spins(run[0], t)
    ensures ResultsInv(run[k]) && LastIs(run[k].made, CREATING) && Spins(run[k], t)
  {
    if k > 0 {
      OneSpinsOn(run, steps, registerOnExit, k - 1, t);
      var s, step, s' := run[k - 1], steps[k - 1], run[k];
      assert Next(s, step, s', registerOnExit);
      ResultsInvStep(s, step, s', registerOnExit);
      if Creates(s, step.thread) { assert s.calls[step.thread] == Store(CREATING); }
      assert s'.made == s.made;
    }
  }

  /** Otherwise the thread between swap and store, if there is one, ends the wait with any other result `r`. */
  lemma WaitCanEnd(s: State, t: nat, registerOnExit: bool, r: Word) returns (run: seq<State>, steps: seq<Step>)
    requires ResultsInv(s) && Spins(s, t) && !LastIs(s.made, CREATING) && r != CREATING
    ensures IsSegment(run, steps, registerOnExit) && run[0] == s && !Spins(run[|steps|], t)
    ensures forall i :: 0 <= i < |steps| ==> steps[i].result == r
  {
    run, steps := [s], [];
    if s.word == CREATING {
      var c :| Creates(s, c);
      var s1 := CallStep(s, c, r, registerOnExit);
      run, steps := [s, s1], [Step(c, r)];
      if s.calls[c].Create? {
        run, steps := [s, s1, CallStep(s1, c, r, registerOnExit)], [Step(c, r), Step(c, r)];
      }
    }
    var last := run[|steps|];
    assert last.word != CREATING && Spins(last, t);
    run, steps := run + [CallStep(last, t, r, registerOnExit)], steps + [Step(t, r)];
  }

  lemma OneSpinsForEver(s: State, t: nat, registerOnExit: bool, allowed: Word -> bool)
    requires ResultsInv(s) && LastIs(s.made, CREATING) && Spins(s, t)
    ensures SpinsForEver(s, t, registerOnExit, allowed)
  {
    forall run: seq<State>, steps: seq<Step> |
      IsSegment(run, steps, registerOnExit) && Within(steps, allowed) && run[0] == s
      ensures Spins(run[|steps|], t)
    {
      OneSpinsOn(run, steps, registerOnExit, |steps|, t);
    }
  }

  /**
    * On every run, if the creator may still return something other than 1, a spinning call spins for ever
    * exactly if the creator has returned 1.
    */
  lemma SpinsForEverExactly(run: seq<State>, steps: seq<Step>, registerOnExit: bool, k: nat, t: nat,
                            allowed: Word -> bool, r: Word)
    requires IsRun(run, steps, registerOnExit) && k < |run| && Spins(run[k], t) && allowed(r) && r != CREATING
    ensures SpinsForEver(run[k], t, registerOnExit, allowed) <==> CREATING in run[k].made
  {
    ResultsInvHolds(run, steps, registerOnExit, k);
    var s := run[k];
    assert CREATING in s.made <==> LastIs(s.made, CREATING);
    if LastIs(s.made, CREATING) {
      OneSpinsForEver(s, t, registerOnExit, allowed);
    } else {
      var more, moreSteps := WaitCanEnd(s, t, registerOnExit, r);
      assert IsSegment(more, moreSteps, registerOnExit) && Within(moreSteps, allowed) && more[0] == s;
    }
  }

  /** A run in which the creator returns 1 while another call waits for it. */
  lemma OneResultSpins(registerOnExit: bool) returns (run: seq<State>, steps: seq<Step>)
    ensures IsRun(run, steps, registerOnExit) && Spins(run[|steps|], 1) && CREATING in run[|steps|].made
    ensures forall i :: 0 <= i < |steps| ==> steps[i].result == CREATING
  {
    var s0 := Two(EMPTY, Away, Away, []);
    var s1, s2 := Two(EMPTY, FastLoad, Away, []), Two(EMPTY, Swap, Away, []);
    var s3, s4 := Two(CREATING, Create, Away, []), Two(CREATING, Store(CREATING), Away, [CREATING]);
    var s5 := Two(CREATING, Store(CREATING), FastLoad, [CREATING]);
    var s6 := Two(CREATING, Store(CREATING), Swap, [CREATING]);
    var s7 := Two(CREATING, Store(CREATING), Spin, [CREATING]);
    var a, b := Step(0, CREATING), Step(1, CREATING);
    run, steps := [s0, s1, s2, s3, s4, s5, s6, s7], [a, a, a, a, b, b, b];
    FirstSteps(s0, s1, s2, s3, s4, registerOnExit);
    assert Next(s4, b, s5, registerOnExit) && Next(s5, b, s6, registerOnExit) && Next(s6, b, s7, registerOnExit);
  }

  lemma FirstSteps(s0: State, s1: State, s2: State, s3: State, s4: State, registerOnExit: bool)
    requires s0 == Two(EMPTY, Away, Away, []) && s1 == Two(EMPTY, FastLoad, Away, [])
    requires s2 == Two(EMPTY, Swap, Away, [])
    requires s3 == Two(CREATING, Create, Away, []) && s4 == Two(CREATING, Store(CREATING), Away, [CREATING])
    ensures var a := Step(0, CREATING);
            && Next(s0, a, s1, registerOnExit) && Next(s1, a, s2, registerOnExit)
            && Next(s2, a, s3, registerOnExit) && Next(s3, a, s4, registerOnExit)
  {}

  function Two(word: Word, first: Call, second: Call, made: seq<Word>): State {
    State(word, map[0 := first, 1 := second], made, 0)
  }

  /** In no run with allowed results does a call come to spin for ever: allowed results can still end its wait. */
  ghost predicate AlwaysEnds(allowed: Word -> bool, registerOnExit: bool) {
    forall run: seq<State>, steps: seq<Step>, t: nat ::
      IsRun(run, steps, registerOnExit) && Within(steps, allowed) && Spins(run[|steps|], t) ==>
        !SpinsForEver(run[|steps|], t, registerOnExit, allowed)
  }

  /** Which is so exactly if 1 is not among them. */
  lemma AlwaysEndsExactly(allowed: Word -> bool, registerOnExit: bool)
    ensures AlwaysEnds(allowed, registerOnExit) <==> !allowed(CREATING)
  {
    if allowed(CREATING) {
      var run, steps := OneResultSpins(registerOnExit);
      assert IsRun(run, steps, registerOnExit) && Within(steps, allowed) && Spins(run[|steps|], 1);
      ResultsInvHolds(run, steps, registerOnExit, |steps|);
      OneSpinsForEver(run[|steps|], 1, registerOnExit, allowed);
    } else {
      forall run: seq<State>, steps: seq<Step>, t: nat |
        IsRun(run, steps, registerOnExit) && Within(steps, allowed) && Spins(run[|steps|], t)
        ensures !SpinsForEver(run[|steps|], t, registerOnExit, allowed)
      {
        assert steps != [];
        MadeAllowed(run, steps, registerOnExit, |steps|, allowed);
        SpinsForEverExactly(run, steps, registerOnExit, |steps|, t, allowed, steps[0].result);
      }
    }
  }
}
