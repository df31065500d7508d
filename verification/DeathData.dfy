/**
  * tracked_objects.cc, DeathData: running totals of task durations, and the chain of snapshots from
  * which the totals of each profiling phase are recovered by subtraction.
  */
module DeathData {

  const INT_MAX: int := 0x7FFF_FFFF

  type Ms = x: int | -0x8000_0000 <= x <= 0x7FFF_FFFF   // a duration in milliseconds
  type Uint32 = x: int | 0 <= x < 0x1_0000_0000

  datatype Death = Death(queue: Ms, run: Ms, random: Uint32)

  predicate Fits(x: int) { -0x8000_0000 <= x < 0x8000_0000 }

  /** What 32-bit storage keeps of `x`. */
  function Wrap(x: int): (w: int)
    ensures Fits(w)
    decreases if Fits(x) then 0 else if x < 0 then -x else x
  { if Fits(x) then x else if x < 0 then Wrap(x + 0x1_0000_0000) else Wrap(x - 0x1_0000_0000) }

  /** A counter that stops at INT_MAX. */
  function Saturated(n: nat): int { if n < INT_MAX then n else INT_MAX }

  // ---------------------------------------------------------------- the class

  datatype Tally = Tally(count: int, queueSum: int, runSum: int, queueMax: int, runMax: int,
                         queueSample: int, runSample: int)

  /** DeathDataPhaseSnapshot: the totals when a phase ended, and the phase before. */
  datatype Chain = Nil | Link(phase: int, tally: Tally, prev: Chain)

  function Delta(newer: Tally, older: Tally): Tally {
    newer.(count := newer.count - older.count,
           queueSum := Wrap(newer.queueSum - older.queueSum), runSum := Wrap(newer.runSum - older.runSum))
  }

  datatype Task = Task(phase: int, tally: Tally)

  class DeathData {
    var tally: Tally
    var sampleProbabilityCount: int
    var lastPhaseSnapshot: Chain
    ghost var history: History

    constructor ()
      ensures Valid() && history == History([], []) && tally == Tally(0, 0, 0, 0, 0, 0, 0)
    {
      tally := Tally(0, 0, 0, 0, 0, 0, 0);
      sampleProbabilityCount := 0;
      lastPhaseSnapshot := Nil;
      history := History([], []);
    }

    ghost predicate Valid()
      reads this
    {
      && Tracks(tally, Flat(history.done), history.current)
      && sampleProbabilityCount == Saturated(|history.current|)
      && ChainTracks(lastPhaseSnapshot, history.done)
    }

    method RecordDurations(queue: Ms, run: Ms, random: Uint32)
      requires Valid()
      modifies this
      ensures Valid() && history == old(history).(current := old(history.current) + [Death(queue, run, random)])
    {
      ghost var prior, ds, was := Flat(history.done), history.current, tally;
      if tally.count < INT_MAX { tally := tally.(count := tally.count + 1); }
      var sampleCount := sampleProbabilityCount;
      if sampleCount < INT_MAX { sampleCount := sampleCount + 1; }
      sampleProbabilityCount := sampleCount;
      tally := tally.(queueSum := Wrap(tally.queueSum + queue), runSum := Wrap(tally.runSum + run));
      if tally.queueMax < queue { tally := tally.(queueMax := queue); }
      if tally.runMax < run { tally := tally.(runMax := run); }
      assert sampleCount > 0;
      if random % sampleCount == 0 { tally := tally.(queueSample := queue, runSample := run); }
      history := history.(current := ds + [Death(queue, run, random)]);
      TracksOneMore(was, prior, ds, Death(queue, run, random), tally);
    }

    method OnProfilingPhaseCompleted(phase: int)
      requires Valid()
      modifies this
      ensures Valid() && history == History(old(history.done) + [Phase(phase, old(history.current))], [])
    {
      ghost var done, ended := history.done, Phase(phase, history.current);
      assert (done + [ended])[..|done|] == done;
      lastPhaseSnapshot := Link(phase, tally, lastPhaseSnapshot);
      sampleProbabilityCount := 0;
      tally := tally.(runMax := 0, queueMax := 0);
      history := History(done + [ended], []);
      TracksNextPhase(lastPhaseSnapshot.tally, Flat(done), ended.deaths);
    }

    /** The walk of SnapshotExecutedTasks: newest phase first, each with what it added. */
    method Snapshot(currentPhase: int) returns (tasks: seq<Task>)
      requires Valid()
      ensures tasks == Expected(history.done + [Phase(currentPhase, history.current)])
    {
      var first := Link(currentPhase, tally, lastPhaseSnapshot);
      ghost var done := history.done + [Phase(currentPhase, history.current)];
      assert done[..|history.done|] == history.done;
      var phase := first;
      tasks := [];
      while phase.Link?
        invariant tasks + Emitted(phase) == Emitted(first)
        decreases phase
      {
        var tally := if phase.prev.Link? then Delta(phase.tally, phase.prev.tally) else phase.tally;
        assert Emitted(phase) == (if tally.count > 0 then [Task(phase.phase, tally)] else []) + Emitted(phase.prev);
        if tally.count > 0 { tasks := tasks + [Task(phase.phase, tally)]; }
        phase := phase.prev;
      }
      WalkIsExpected(first, done);
    }
  }

  function Emitted(c: Chain): seq<Task> {
    if c.Nil? then []
    else
      var tally := if c.prev.Link? then Delta(c.tally, c.prev.tally) else c.tally;
      (if tally.count > 0 then [Task(c.phase, tally)] else []) + Emitted(c.prev)
  }

  // ---------------------------------------------------------------- what was recorded, phase by phase

  datatype Phase = Phase(id: int, deaths: seq<Death>)

  /** The phases completed, and the deaths of the current one. */
  datatype History = History(done: seq<Phase>, current: seq<Death>)

  ghost function Flat(done: seq<Phase>): seq<Death> {
    if done == [] then [] else Flat(done[..|done| - 1]) + done[|done| - 1].deaths
  }

  ghost function QueueSum(ds: seq<Death>): int { if ds == [] then 0 else QueueSum(ds[..|ds| - 1]) + ds[|ds| - 1].queue }

  ghost function RunSum(ds: seq<Death>): int { if ds == [] then 0 else RunSum(ds[..|ds| - 1]) + ds[|ds| - 1].run }

  ghost function Max(a: int, b: int): int { if a < b then b else a }

  ghost function QueueMax(ds: seq<Death>): int {
    if ds == [] then 0 else Max(QueueMax(ds[..|ds| - 1]), ds[|ds| - 1].queue)
  }

  ghost function RunMax(ds: seq<Death>): int { if ds == [] then 0 else Max(RunMax(ds[..|ds| - 1]), ds[|ds| - 1].run) }

  /** The death sampled: the last one whose random number its rank in the phase divides. */
  ghost function Sampled(ds: seq<Death>): (i: nat)
    requires ds != []
    ensures i < |ds|
  {
    var n := |ds|;
    if n == 1 || ds[n - 1].random % Saturated(n) == 0 then n - 1 else Sampled(ds[..n - 1])
  }

  /** What the fields say after `prior` deaths in earlier phases and `ds` in this one. */
  ghost predicate Tracks(t: Tally, prior: seq<Death>, ds: seq<Death>) {
    && t.count == Saturated(|prior| + |ds|)
    && t.queueSum == Wrap(QueueSum(prior) + QueueSum(ds)) && t.runSum == Wrap(RunSum(prior) + RunSum(ds))
    && t.queueMax == QueueMax(ds) && t.runMax == RunMax(ds)
    && (ds != [] ==> t.queueSample == ds[Sampled(ds)].queue && t.runSample == ds[Sampled(ds)].run)
  }

  ghost predicate ChainTracks(c: Chain, done: seq<Phase>) {
    if done == [] then c.Nil?
    else
      var last := done[|done| - 1];
      && c.Link? && c.phase == last.id && Tracks(c.tally, Flat(done[..|done| - 1]), last.deaths)
      && ChainTracks(c.prev, done[..|done| - 1])
  }

  /** The totals of one phase alone. */
  ghost function PhaseTally(prior: nat, ds: seq<Death>): Tally
    requires ds != []
  {
    var sample := ds[Sampled(ds)];
    Tally(Saturated(prior + |ds|) - Saturated(prior), Wrap(QueueSum(ds)), Wrap(RunSum(ds)),
          QueueMax(ds), RunMax(ds), sample.queue, sample.run)
  }

  /** What a snapshot should list: the phases with deaths, newest first. */
  ghost function Expected(done: seq<Phase>): seq<Task> {
    if done == [] then []
    else
      var n := |done| - 1;
      var prior, ds := |Flat(done[..n])|, done[n].deaths;
      (if Saturated(prior + |ds|) > Saturated(prior) then [Task(done[n].id, PhaseTally(prior, ds))] else [])
      + Expected(done[..n])
  }

  // ---------------------------------------------------------------- proofs

  lemma {:induction false} WrapIs(x: int, y: int, k: int)
    requires Fits(y) && x == y + 0x1_0000_0000 * k
    ensures Wrap(x) == y
    decreases if k < 0 then -k else k
  {
    if k < 0 { WrapIs(x + 0x1_0000_0000, y, k + 1); } else if k > 0 { WrapIs(x - 0x1_0000_0000, y, k - 1); }
  }

  lemma {:induction false} Wraps(x: int) returns (k: int)
    ensures x == Wrap(x) + 0x1_0000_0000 * k
    decreases if Fits(x) then 0 else if x < 0 then -x else x
  {
    if Fits(x) {
      k := 0;
    } else if x < 0 {
      k := Wraps(x + 0x1_0000_0000);
      k := k - 1;
    } else {
      k := Wraps(x - 0x1_0000_0000);
      k := k + 1;
    }
  }

  lemma WrapTwice(a: int, b: int)
    ensures Wrap(Wrap(a) + b) == Wrap(a + b)
  {
    var j := Wraps(a);
    var k := Wraps(Wrap(a) + b);
    WrapIs(a + b, Wrap(Wrap(a) + b), j + k);
  }

  lemma WrapDifference(a: int, b: int)
    ensures Wrap(Wrap(a + b) - Wrap(a)) == Wrap(b)
  {
    var i := Wraps(a + b);
    var j := Wraps(a);
    var k := Wraps(b);
    WrapIs(Wrap(a + b) - Wrap(a), Wrap(b), k - i + j);
  }

  lemma TracksOneMore(was: Tally, prior: seq<Death>, ds: seq<Death>, d: Death, now: Tally)
    requires Tracks(was, prior, ds)
    requires now.count == (if was.count < INT_MAX then was.count + 1 else was.count)
    requires now.queueSum == Wrap(was.queueSum + d.queue) && now.runSum == Wrap(was.runSum + d.run)
    requires now.queueMax == Max(was.queueMax, d.queue) && now.runMax == Max(was.runMax, d.run)
    requires var taken := d.random % Saturated(|ds| + 1) == 0;
             && now.queueSample == (if taken then d.queue else was.queueSample)
             && now.runSample == (if taken then d.run else was.runSample)
    ensures Tracks(now, prior, ds + [d])
  {
    var more := ds + [d];
    assert more[..|ds|] == ds;
    WrapTwice(QueueSum(prior) + QueueSum(ds), d.queue);
    WrapTwice(RunSum(prior) + RunSum(ds), d.run);
  }

  lemma {:induction false} SumsAdd(a: seq<Death>, b: seq<Death>)
    ensures QueueSum(a + b) == QueueSum(a) + QueueSum(b) && RunSum(a + b) == RunSum(a) + RunSum(b)
  {
    if b == [] {
      assert a + b == a;
    } else {
      assert (a + b)[..|a + b| - 1] == a + b[..|b| - 1];
      SumsAdd(a, b[..|b| - 1]);
    }
  }

  lemma TracksNextPhase(t: Tally, prior: seq<Death>, ds: seq<Death>)
    requires Tracks(t, prior, ds)
    ensures Tracks(t.(runMax := 0, queueMax := 0), prior + ds, [])
  {
    SumsAdd(prior, ds);
  }

  /** Subtracting the previous snapshot leaves the totals of the phase. */
  lemma DeltaIsPhase(newer: Tally, older: Tally, first: seq<Death>, middle: seq<Death>, ds: seq<Death>)
    requires Tracks(older, first, middle) && Tracks(newer, first + middle, ds)
    ensures Delta(newer, older).count == Saturated(|first + middle| + |ds|) - Saturated(|first + middle|)
    ensures ds != [] ==> Delta(newer, older) == PhaseTally(|first + middle|, ds)
  {
    SumsAdd(first, middle);
    WrapDifference(QueueSum(first) + QueueSum(middle), QueueSum(ds));
    WrapDifference(RunSum(first) + RunSum(middle), RunSum(ds));
  }

  lemma {:induction false} WalkIsExpected(c: Chain, done: seq<Phase>)
    requires ChainTracks(c, done)
    ensures Emitted(c) == Expected(done)
  {
    if done != [] {
      var n := |done| - 1;
      WalkIsExpected(c.prev, done[..n]);
      if n > 0 {
        DeltaIsPhase(c.tally, c.prev.tally, Flat(done[..n][..n - 1]), done[n - 1].deaths, done[n].deaths);
      } else {
        assert done[..0] == [];
      }
    }
  }

  /** The maximum is at least zero and at least every duration, and one of them. */
  lemma {:induction false} MaxIsGreatest(ds: seq<Death>)
    ensures QueueMax(ds) >= 0 && forall d :: d in ds ==> d.queue <= QueueMax(ds)
    ensures QueueMax(ds) == 0 || exists d :: d in ds && d.queue == QueueMax(ds)
    ensures RunMax(ds) >= 0 && forall d :: d in ds ==> d.run <= RunMax(ds)
    ensures RunMax(ds) == 0 || exists d :: d in ds && d.run == RunMax(ds)
  {
    if ds != [] {
      MaxIsGreatest(ds[..|ds| - 1]);
      assert ds[|ds| - 1] in ds;
    }
  }

  ghost function Counts(tasks: seq<Task>): int { if tasks == [] then 0 else tasks[0].tally.count + Counts(tasks[1..]) }

  lemma CountsCons(t: Task, tasks: seq<Task>)
    ensures Counts([t] + tasks) == t.tally.count + Counts(tasks)
  {
    assert ([t] + tasks)[1..] == tasks;
  }

  /** The counts of the phases add up to the cumulative count, saturated or not. */
  lemma {:induction false} CountsAddUp(done: seq<Phase>)
    ensures Counts(Expected(done)) == Saturated(|Flat(done)|)
  {
    if done != [] {
      var n := |done| - 1;
      CountsAddUp(done[..n]);
      var prior, ds := |Flat(done[..n])|, done[n].deaths;
      if Saturated(prior + |ds|) > Saturated(prior) {
        CountsCons(Task(done[n].id, PhaseTally(prior, ds)), Expected(done[..n]));
      } else {
        assert [] + Expected(done[..n]) == Expected(done[..n]);
      }
    }
  }

  /** A phase's count is the number of its deaths exactly when the cumulative count did not saturate in it. */
  lemma CountExactly(prior: nat, ds: seq<Death>)
    requires ds != []
    ensures PhaseTally(prior, ds).count == |ds| <==> prior + |ds| <= INT_MAX
    ensures PhaseTally(prior, ds).count >= 0
  {}

  /** A sum is exact when it fits its storage, whatever the running totals did meanwhile. */
  lemma SumExactly(prior: nat, ds: seq<Death>)
    requires ds != []
    ensures PhaseTally(prior, ds).queueSum == QueueSum(ds) <==> Fits(QueueSum(ds))
    ensures PhaseTally(prior, ds).runSum == RunSum(ds) <==> Fits(RunSum(ds))
  {}

  ghost function WithDeaths(done: seq<Phase>): seq<int> {
    if done == [] then []
    else (if done[|done| - 1].deaths != [] then [done[|done| - 1].id] else []) + WithDeaths(done[..|done| - 1])
  }

  ghost function PhaseIds(tasks: seq<Task>): seq<int> {
    if tasks == [] then [] else [tasks[0].phase] + PhaseIds(tasks[1..])
  }

  lemma PhaseIdsCons(t: Task, tasks: seq<Task>)
    ensures PhaseIds([t] + tasks) == [t.phase] + PhaseIds(tasks)
  {
    assert ([t] + tasks)[1..] == tasks;
  }

  /** Unsaturated, every phase with deaths is listed and no other. */
  lemma {:induction false} ListsPhasesWithDeaths(done: seq<Phase>)
    requires |Flat(done)| <= INT_MAX
    ensures PhaseIds(Expected(done)) == WithDeaths(done)
  {
    if done != [] {
      var n := |done| - 1;
      ListsPhasesWithDeaths(done[..n]);
      var prior, ds := |Flat(done[..n])|, done[n].deaths;
      if ds != [] {
        PhaseIdsCons(Task(done[n].id, PhaseTally(prior, ds)), Expected(done[..n]));
      } else {
        assert [] + Expected(done[..n]) == Expected(done[..n]);
      }
    }
  }
}
