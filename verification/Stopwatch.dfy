/**
  * tracked_objects.cc, TaskStopwatch: nested stopwatches on one thread. A stopwatch reports the time
  * between its start and stop less the time of the stopwatches nested directly in it. A time of 0 is
  * the null time, read while timing is off.
  */
module Stopwatch {
  import opened Wrappers

  // ---------------------------------------------------------------- what a start and a stop do to the stack

  /** A running stopwatch; the innermost is last on the stack. */
  datatype Watch = Watch(start: nat, excluded: int)

  /** A stopped one. `root`: nothing was running around it. */
  datatype Done = Done(wallclock: int, excluded: int, root: bool)

  function RunDuration(d: Done): int { d.wallclock - d.excluded }

  function Wallclock(start: nat, end: nat): int { if start != 0 && end != 0 then end - start else 0 }

  function Stopped(stack: seq<Watch>, now: nat): Done
    requires stack != []
  {
    var w := stack[|stack| - 1];
    Done(Wallclock(w.start, now), w.excluded, |stack| == 1)
  }

  /** The innermost watch with more time excluded. */
  function Charged(stack: seq<Watch>, time: int): seq<Watch> {
    if stack == [] then []
    else
      var n := |stack| - 1;
      stack[n := Watch(stack[n].start, stack[n].excluded + time)]
  }

  /** The stack below, with the stopped watch's time excluded from its parent. */
  function Popped(stack: seq<Watch>, now: nat): (r: seq<Watch>)
    requires stack != []
    ensures |r| == |stack| - 1
  { Charged(stack[..|stack| - 1], Stopped(stack, now).wallclock) }

  // ---------------------------------------------------------------- the classes

  datatype Stage = CREATED | RUNNING | STOPPED

  class ThreadData {
    var currentStopwatch: TaskStopwatch?
    ghost var stack: seq<TaskStopwatch>   // the running stopwatches, outermost first

    constructor ()
      ensures Valid() && stack == []
    { currentStopwatch, stack := null, []; }

    ghost function Below(i: nat): TaskStopwatch?
      requires i <= |stack|
      reads this
    { if i == 0 then null else stack[i - 1] }

    ghost function Above(i: nat): TaskStopwatch?
      requires i < |stack|
      reads this
    { if i + 1 == |stack| then null else stack[i + 1] }

    /** Parent and child links follow the stack. */
    ghost predicate Linked()
      reads this, stack`parent, stack`child
    {
      && currentStopwatch == Below(|stack|)
      && (forall i, j :: 0 <= i < j < |stack| ==> stack[i] != stack[j])
      && (forall i {:trigger stack[i].parent} :: 0 <= i < |stack| ==> stack[i].parent == Below(i))
      && (forall i {:trigger stack[i].child} :: 0 <= i < |stack| ==> stack[i].child == Above(i))
    }

    ghost predicate Running(n: nat)
      requires n <= |stack|
      reads this, stack`stage, stack`thread, stack`wallclock
    { forall i :: 0 <= i < n ==> stack[i].stage == RUNNING && stack[i].thread == this && stack[i].wallclock == 0 }

    ghost predicate Valid()
      reads this, stack
    { Linked() && Running(|stack|) }

    ghost function Watches(): seq<Watch>
      reads this, stack
    { seq(|stack|, i requires 0 <= i < |stack| reads this, stack => Watch(stack[i].startTime, stack[i].excluded)) }
  }

  class TaskStopwatch {
    var stage: Stage
    var startTime: nat
    var wallclock: int
    var excluded: int
    var thread: ThreadData?
    var parent: TaskStopwatch?
    var child: TaskStopwatch?

    ghost predicate New()
      reads this
    {
      && stage == CREATED && startTime == 0 && wallclock == 0 && excluded == 0
      && thread == null && parent == null && child == null
    }

    constructor ()
      ensures New()
    {
      stage, startTime, wallclock, excluded := CREATED, 0, 0, 0;
      thread, parent, child := null, null, null;
    }

    /** `now` and `data` are what ThreadData::Now and ThreadData::Get answer; nesting has to do with `data` only. */
    method Start(now: nat, data: ThreadData?)
      requires New() && (data != null ==> data.Valid())
      modifies this, data, if data == null then null else data.currentStopwatch
      ensures stage == RUNNING && thread == data && startTime == now && wallclock == 0 && excluded == 0
      ensures data != null ==>
                && data.Valid() && data.stack == old(data.stack) + [this]
                && data.Watches() == old(data.Watches()) + [Watch(now, 0)]
    {
      stage := RUNNING;
      startTime := now;
      thread := data;
      if data != null { Enter(data); }
    }

    method Enter(data: ThreadData)
      requires stage == RUNNING && thread == data && wallclock == 0 && parent == null && child == null
      requires data.Valid() && this !in data.stack
      modifies this`parent, data, data.currentStopwatch
      ensures data.Valid() && data.stack == old(data.stack) + [this]
      ensures data.Watches() == old(data.Watches()) + [Watch(startTime, excluded)]
    {
      parent := data.currentStopwatch;
      if parent != null {
        assert parent.stage == RUNNING && parent.child == null;
        parent.child := this;
      }
      data.currentStopwatch := this;
      data.stack := data.stack + [this];
    }

    method Stop(now: nat)
      requires stage == RUNNING && wallclock == 0
      requires thread != null ==> thread.Valid() && thread.stack != [] && thread.stack[|thread.stack| - 1] == this
      modifies this, thread, parent
      ensures stage == STOPPED && thread == old(thread) && excluded == old(excluded)
      ensures wallclock == Wallclock(old(startTime), now)
      ensures thread != null ==>
                && thread.Valid() && thread.stack + [this] == old(thread.stack) && parent == null
                && thread.Watches() == Popped(old(thread.Watches()), now)
                && Done(wallclock, excluded, thread.stack == []) == Stopped(old(thread.Watches()), now)
    {
      assert thread != null ==> child == null && thread.currentStopwatch == this;
      ghost var before := if thread == null then [] else thread.Watches();
      Finish(now);
      if thread != null {
        ghost var n := |thread.stack| - 1;
        assert thread.Running(n) && thread.Watches() == before;
        assert before[n] == Watch(startTime, excluded);
        Leave(thread, n);
      }
    }

    method Finish(now: nat)
      requires stage == RUNNING && wallclock == 0
      modifies this`stage, this`wallclock
      ensures stage == STOPPED && wallclock == Wallclock(startTime, now)
    {
      stage := STOPPED;
      if startTime != 0 && now != 0 { wallclock := now - startTime; }
    }

    /** Takes the stopped watch off the stack and charges its time to its parent. */
    method Leave(data: ThreadData, ghost n: nat)
      requires thread == data && data.Linked() && |data.stack| == n + 1 && data.stack[n] == this && data.Running(n)
      modifies data, this`parent, parent
      ensures data.Valid() && data.stack + [this] == old(data.stack) && parent == null && excluded == old(excluded)
      ensures data.Watches() == Charged(old(data.Watches())[..n], wallclock)
    {
      Unlink(data, n);
      if parent == null { return; }
      ghost var before := data.Watches();
      assert parent == data.stack[n - 1];
      parent.excluded := parent.excluded + wallclock;
      ghost var after := data.Watches();
      assert forall i :: 0 <= i < n - 1 ==> after[i] == before[i];
      parent := null;
    }

    method Unlink(data: ThreadData, ghost n: nat)
      requires thread == data && data.Linked() && |data.stack| == n + 1 && data.stack[n] == this && data.Running(n)
      modifies data, parent
      ensures data.Valid() && data.stack + [this] == old(data.stack)
      ensures parent == data.Below(n) && excluded == old(excluded)
      ensures data.Watches() == old(data.Watches())[..n]
    {
      data.currentStopwatch := parent;
      data.stack := data.stack[..n];
      if parent == null { return; }
      assert parent == data.stack[n - 1] && parent.stage == RUNNING && parent.child == this;
      parent.child := null;
    }
  }

  // ---------------------------------------------------------------- every run of starts and stops

  datatype Event = Start(now: nat) | Stop(now: nat)

  /** `done` lists the stopped watches in the order they stopped. */
  datatype State = State(stack: seq<Watch>, done: seq<Done>)

  predicate Enabled(s: State, e: Event) { e.Stop? ==> s.stack != [] }

  function Step(s: State, e: Event): State
    requires Enabled(s, e)
  {
    match e
    case Start(now) => s.(stack := s.stack + [Watch(now, 0)])
    case Stop(now) => State(Popped(s.stack, now), s.done + [Stopped(s.stack, now)])
  }

  ghost predicate IsRun(run: seq<State>, ev: seq<Event>) {
    && |run| == |ev| + 1
    && forall k {:trigger ev[k]} :: 0 <= k < |ev| ==> Enabled(run[k], ev[k]) && run[k + 1] == Step(run[k], ev[k])
  }

  function Durations(done: seq<Done>): int {
    if done == [] then 0 else Durations(done[..|done| - 1]) + RunDuration(done[|done| - 1])
  }

  function RootTime(done: seq<Done>): int {
    if done == [] then 0
    else RootTime(done[..|done| - 1]) + if done[|done| - 1].root then done[|done| - 1].wallclock else 0
  }

  function Excluded(stack: seq<Watch>): int {
    if stack == [] then 0 else Excluded(stack[..|stack| - 1]) + stack[|stack| - 1].excluded
  }

  lemma ExcludedAfterStop(stack: seq<Watch>, now: nat)
    requires stack != []
    ensures var d := Stopped(stack, now);
            Excluded(Popped(stack, now)) == Excluded(stack) - d.excluded + if d.root then 0 else d.wallclock
  {
    var n := |stack| - 1;
    if n > 0 { assert Popped(stack, now)[..n - 1] == stack[..n][..n - 1]; }
  }

  /** What a step adds to the reported durations it adds to the root times and to what is still excluded. */
  lemma StepBalances(s: State, e: Event)
    requires Enabled(s, e)
    ensures var s' := Step(s, e);
            Durations(s'.done) - RootTime(s'.done) - Excluded(s'.stack) ==
            Durations(s.done) - RootTime(s.done) - Excluded(s.stack)
  {
    var s' := Step(s, e);
    match e
    case Start(now) => assert s'.stack[..|s.stack|] == s.stack;
    case Stop(now) =>
      ExcludedAfterStop(s.stack, now);
      assert s'.done[..|s.done|] == s.done;
  }

  /** Conservation: time excluded from one stopwatch is reported by another, whatever is still running. */
  lemma {:induction false} DurationsBalance(run: seq<State>, ev: seq<Event>, b: nat, n: nat)
    requires IsRun(run, ev) && b <= n < |run|
    ensures Durations(run[n].done) - RootTime(run[n].done) - Excluded(run[n].stack) ==
            Durations(run[b].done) - RootTime(run[b].done) - Excluded(run[b].stack)
  {
    if b < n {
      DurationsBalance(run, ev, b, n - 1);
      assert Enabled(run[n - 1], ev[n - 1]) && run[n] == Step(run[n - 1], ev[n - 1]);
      StepBalances(run[n - 1], ev[n - 1]);
    }
  }

  /** From the beginning: all that is reported is the time of the roots and what is excluded so far. */
  lemma WholeRunBalances(run: seq<State>, ev: seq<Event>, n: nat)
    requires IsRun(run, ev) && run[0] == State([], []) && n < |run|
    ensures Durations(run[n].done) == RootTime(run[n].done) + Excluded(run[n].stack)
    ensures run[n].stack == [] ==> Durations(run[n].done) == RootTime(run[n].done)
  {
    DurationsBalance(run, ev, 0, n);
  }

  // ---------------------------------------------------------------- trees

  /** A stopwatch with those nested in it, in order. */
  datatype Tree = Tree(start: nat, nested: seq<Tree>, end: nat)

  function Events(t: Tree): seq<Event>
    decreases t, 1
  { [Start(t.start)] + ForestEvents(t.nested) + [Stop(t.end)] }

  function ForestEvents(f: seq<Tree>): seq<Event>
    decreases f, 0
  { if f == [] then [] else ForestEvents(f[..|f| - 1]) + Events(f[|f| - 1]) }

  function Wall(t: Tree): int { Wallclock(t.start, t.end) }

  function Walls(f: seq<Tree>): int { if f == [] then 0 else Walls(f[..|f| - 1]) + Wall(f[|f| - 1]) }

  function Own(t: Tree, root: bool): Done { Done(Wall(t), Walls(t.nested), root) }

  /** The stopped watches of a tree: the nested ones, then its own. */
  function Report(t: Tree, root: bool): seq<Done>
    decreases t, 1
  { ForestReport(t.nested) + [Own(t, root)] }

  function ForestReport(f: seq<Tree>): seq<Done>
    decreases f, 0
  { if f == [] then [] else ForestReport(f[..|f| - 1]) + Report(f[|f| - 1], false) }

  /** The state after a sequence of events, if each of them is possible in its turn. */
  function Exec(s: State, ev: seq<Event>): Option<State>
    decreases |ev|
  {
    if ev == [] then Some(s) else if !Enabled(s, ev[0]) then None else Exec(Step(s, ev[0]), ev[1..])
  }

  lemma {:induction false} ExecBoth(s: State, a: seq<Event>, b: seq<Event>)
    requires Exec(s, a).Some?
    ensures Exec(s, a + b) == Exec(Exec(s, a).value, b)
    decreases |a|
  {
    if a == [] {
      assert a + b == b;
    } else {
      assert (a + b)[1..] == a[1..] + b;
      ExecBoth(Step(s, a[0]), a[1..], b);
    }
  }

  lemma ExecOne(s: State, e: Event)
    requires Enabled(s, e)
    ensures Exec(s, [e]) == Some(Step(s, e))
  {
    assert [e][1..] == [];
  }

  /** Running a tree charges its time to whatever it is nested in, and reports what the tree says. */
  lemma {:induction false} RunTree(s: State, t: Tree)
    ensures Exec(s, Events(t)) == Some(State(Charged(s.stack, Wall(t)), s.done + Report(t, s.stack == [])))
    decreases t, 1
  {
    var inner := ForestEvents(t.nested);
    var s1 := Step(s, Start(t.start));
    ExecOne(s, Start(t.start));
    RunForest(s1, t.nested);
    var s2 := State(s.stack + [Watch(t.start, Walls(t.nested))], s.done + ForestReport(t.nested));
    assert Charged(s1.stack, Walls(t.nested)) == s2.stack;
    ExecBoth(s, [Start(t.start)], inner);
    ExecOne(s2, Stop(t.end));
    StopTree(s, t, s2);
    ExecBoth(s, [Start(t.start)] + inner, [Stop(t.end)]);
  }

  lemma StopTree(s: State, t: Tree, s2: State)
    requires s2 == State(s.stack + [Watch(t.start, Walls(t.nested))], s.done + ForestReport(t.nested))
    ensures Step(s2, Stop(t.end)) == State(Charged(s.stack, Wall(t)), s.done + Report(t, s.stack == []))
  {
    assert Popped(s2.stack, t.end) == Charged(s.stack, Wall(t));
    Longer(s.done, ForestReport(t.nested), [Stopped(s2.stack, t.end)]);
  }

  lemma Longer(a: seq<Done>, b: seq<Done>, c: seq<Done>)
    ensures (a + b) + c == a + (b + c)
  {}

  lemma ChargedTwice(stack: seq<Watch>, a: int, b: int)
    ensures Charged(Charged(stack, a), b) == Charged(stack, a + b)
  {}

  function AfterForest(s: State, f: seq<Tree>): State { State(Charged(s.stack, Walls(f)), s.done + ForestReport(f)) }

  function AfterTree(s: State, t: Tree): State { State(Charged(s.stack, Wall(t)), s.done + Report(t, false)) }

  lemma ForestThenTree(s: State, f: seq<Tree>)
    requires f != []
    ensures AfterTree(AfterForest(s, f[..|f| - 1]), f[|f| - 1]) == AfterForest(s, f)
  {
    var rest, t := f[..|f| - 1], f[|f| - 1];
    Longer(s.done, ForestReport(rest), Report(t, false));
    ChargedTwice(s.stack, Walls(rest), Wall(t));
  }

  lemma {:induction false} RunForest(s: State, f: seq<Tree>)
    requires s.stack != []
    ensures Exec(s, ForestEvents(f)) == Some(AfterForest(s, f))
    decreases f, 0
  {
    if f == [] {
      assert Charged(s.stack, 0) == s.stack && s.done + [] == s.done;
    } else {
      var rest, t := f[..|f| - 1], f[|f| - 1];
      RunForest(s, rest);
      RunTree(AfterForest(s, rest), t);
      ExecBoth(s, ForestEvents(rest), Events(t));
      ForestThenTree(s, f);
    }
  }

  lemma {:induction false} DurationsOfBoth(a: seq<Done>, b: seq<Done>)
    ensures Durations(a + b) == Durations(a) + Durations(b)
  {
    if b == [] {
      assert a + b == a;
    } else {
      assert (a + b)[..|a + b| - 1] == a + b[..|b| - 1];
      DurationsOfBoth(a, b[..|b| - 1]);
    }
  }

  /** The durations reported by a stopwatch and all those under it add up to its wall-clock time. */
  lemma {:induction false} TreeAddsUp(t: Tree, root: bool)
    ensures Durations(Report(t, root)) == Wall(t)
    decreases t, 1
  {
    var own := [Own(t, root)];
    ForestAddsUp(t.nested);
    DurationsOfBoth(ForestReport(t.nested), own);
    assert own[..0] == [];
  }

  lemma {:induction false} ForestAddsUp(f: seq<Tree>)
    ensures Durations(ForestReport(f)) == Walls(f)
    decreases f, 0
  {
    if f != [] {
      ForestAddsUp(f[..|f| - 1]);
      TreeAddsUp(f[|f| - 1], false);
      DurationsOfBoth(ForestReport(f[..|f| - 1]), Report(f[|f| - 1], false));
    }
  }

  // ---------------------------------------------------------------- no negative durations

  /** Event k happens at time `clock[k]`; the time it reads is that, or null while timing is off. */
  ghost predicate Clocked(ev: seq<Event>, clock: seq<nat>) {
    && |clock| == |ev|
    && (forall k :: 0 <= k < |ev| ==> clock[k] > 0 && (ev[k].now == 0 || ev[k].now == clock[k]))
    && (forall j, k :: 0 <= j < k < |ev| ==> clock[j] <= clock[k])
  }

  /** `begun[i]`: when watch i started. What it excludes fits in before the next started, or before now. */
  ghost predicate Fits(stack: seq<Watch>, begun: seq<nat>, now: nat) {
    && |begun| == |stack|
    && (forall i :: 0 <= i < |stack| ==> stack[i].start == 0 || stack[i].start == begun[i])
    && (forall i :: 0 <= i < |stack| ==> stack[i].excluded >= 0)
    && (forall i {:trigger stack[i].excluded} :: 0 <= i < |stack| ==>
          begun[i] + stack[i].excluded <= if i + 1 < |stack| then begun[i + 1] else now)
  }

  /** A start that has not been matched, and whether a stopwatch nested directly in it took any time. */
  datatype Open = Open(start: nat, took: bool)

  /** One that has, and whether it read a time at both its ends. */
  datatype Closed = Closed(timed: bool, took: bool)

  datatype Log = Log(open: seq<Open>, closed: seq<Closed>)

  function MarkLast(open: seq<Open>, took: bool): seq<Open> {
    if open == [] || !took then open else open[|open| - 1 := open[|open| - 1].(took := true)]
  }

  function LogStep(log: Log, e: Event): Log {
    if e.Start? then log.(open := log.open + [Open(e.now, false)])
    else if log.open == [] then log
    else
      var n := |log.open| - 1;
      var last := log.open[n];
      var timed := last.start != 0 && e.now != 0;
      Log(MarkLast(log.open[..n], timed && e.now != last.start), log.closed + [Closed(timed, last.took)])
  }

  /** What the first `n` events say, without any of the stopwatches' arithmetic. */
  function LogOf(ev: seq<Event>, n: nat): Log
    requires n <= |ev|
  { if n == 0 then Log([], []) else LogStep(LogOf(ev, n - 1), ev[n - 1]) }

  ghost predicate OpenMatch(stack: seq<Watch>, open: seq<Open>) {
    |open| == |stack| && forall i :: 0 <= i < |stack| ==>
      open[i].start == stack[i].start && (open[i].took <==> stack[i].excluded != 0)
  }

  ghost predicate ClosedMatch(done: seq<Done>, closed: seq<Closed>) {
    |closed| == |done| && forall i :: 0 <= i < |done| ==>
      && done[i].excluded >= 0 && (closed[i].took <==> done[i].excluded != 0)
      && (closed[i].timed ==> RunDuration(done[i]) >= 0) && (!closed[i].timed ==> done[i].wallclock == 0)
  }

  lemma FitsStep(s: State, e: Event, begun: seq<nat>, last: nat, now: nat) returns (begun': seq<nat>)
    requires Enabled(s, e) && Fits(s.stack, begun, last)
    requires 0 < now && last <= now && (e.now == 0 || e.now == now)
    ensures Fits(Step(s, e).stack, begun', now)
    ensures e.Stop? ==> Stopped(s.stack, e.now).wallclock >= 0
    ensures e.Stop? && s.stack[|s.stack| - 1].start != 0 && e.now != 0 ==> RunDuration(Stopped(s.stack, e.now)) >= 0
  {
    if e.Start? {
      begun' := begun + [now];
    } else {
      var n := |begun| - 1;
      begun' := begun[..n];
      assert begun[n] + s.stack[n].excluded <= last;
      if n > 0 { assert begun[n - 1] + s.stack[n - 1].excluded <= begun[n]; }
    }
  }

  lemma MatchStep(s: State, e: Event, log: Log, begun: seq<nat>, last: nat, now: nat)
    requires Enabled(s, e) && Fits(s.stack, begun, last)
    requires OpenMatch(s.stack, log.open) && ClosedMatch(s.done, log.closed)
    requires 0 < now && last <= now && (e.now == 0 || e.now == now)
    ensures OpenMatch(Step(s, e).stack, LogStep(log, e).open) && ClosedMatch(Step(s, e).done, LogStep(log, e).closed)
  {
    var begun' := FitsStep(s, e, begun, last, now);
    if e.Stop? {
      var n := |s.stack| - 1;
      assert s.stack[n].excluded >= 0 && log.open[n].start == s.stack[n].start;
      if n > 0 { assert s.stack[n - 1].excluded >= 0; }
    }
  }

  lemma RunStep(run: seq<State>, ev: seq<Event>, k: nat)
    requires IsRun(run, ev) && k < |ev|
    ensures Enabled(run[k], ev[k]) && run[k + 1] == Step(run[k], ev[k])
  {}

  lemma ClockStep(ev: seq<Event>, clock: seq<nat>, k: nat)
    requires Clocked(ev, clock) && k < |ev|
    ensures clock[k] > 0 && (ev[k].now == 0 || ev[k].now == clock[k]) && (k > 0 ==> clock[k - 1] <= clock[k])
  {}

  function Before(clock: seq<nat>, n: nat): nat
    requires n <= |clock|
  { if n == 0 then 0 else clock[n - 1] }

  lemma {:induction false} RunFits(run: seq<State>, ev: seq<Event>, clock: seq<nat>, n: nat) returns (begun: seq<nat>)
    requires IsRun(run, ev) && run[0] == State([], []) && Clocked(ev, clock) && n < |run|
    ensures Fits(run[n].stack, begun, Before(clock, n))
  {
    if n == 0 {
      begun := [];
    } else {
      var before := RunFits(run, ev, clock, n - 1);
      RunStep(run, ev, n - 1);
      ClockStep(ev, clock, n - 1);
      begun := FitsStep(run[n - 1], ev[n - 1], before, Before(clock, n - 1), clock[n - 1]);
    }
  }

  lemma {:induction false} RunMatches(run: seq<State>, ev: seq<Event>, clock: seq<nat>, n: nat)
    requires IsRun(run, ev) && run[0] == State([], []) && Clocked(ev, clock) && n < |run|
    ensures OpenMatch(run[n].stack, LogOf(ev, n).open) && ClosedMatch(run[n].done, LogOf(ev, n).closed)
  {
    if n > 0 {
      RunMatches(run, ev, clock, n - 1);
      var begun := RunFits(run, ev, clock, n - 1);
      assert Enabled(run[n - 1], ev[n - 1]) && run[n] == Step(run[n - 1], ev[n - 1]) by { RunStep(run, ev, n - 1); }
      ClockStep(ev, clock, n - 1);
      MatchStep(run[n - 1], ev[n - 1], LogOf(ev, n - 1), begun, Before(clock, n - 1), clock[n - 1]);
    }
  }

  /**
    * With a clock that never goes back, a reported duration is non-negative exactly when timing was
    * on at both its start and its stop, or nothing nested directly in it took any time.
    */
  lemma DurationNonNegativeExactly(run: seq<State>, ev: seq<Event>, clock: seq<nat>, n: nat, i: nat)
    requires IsRun(run, ev) && run[0] == State([], []) && Clocked(ev, clock) && n < |run| && i < |run[n].done|
    ensures var closed := LogOf(ev, n).closed;
            && |closed| == |run[n].done|
            && (RunDuration(run[n].done[i]) >= 0 <==> closed[i].timed || !closed[i].took)
  {
    RunMatches(run, ev, clock, n);
  }

  lemma ClockedParts(a: seq<Event>, b: seq<Event>, clock: seq<nat>)
    requires Clocked(a + b, clock)
    ensures Clocked(a, clock[..|a|]) && Clocked(b, clock[|a|..])
  {
    forall k | 0 <= k < |b| ensures clock[|a|..][k] > 0 && (b[k].now == 0 || b[k].now == clock[|a|..][k]) {
      assert (a + b)[|a| + k] == b[k];
    }
    forall k | 0 <= k < |a| ensures clock[k] > 0 && (a[k].now == 0 || a[k].now == clock[k]) {
      assert (a + b)[k] == a[k];
    }
  }

  /** All of the clock's times are from `lo` to `hi`. */
  ghost predicate Spans(clock: seq<nat>, lo: nat, hi: nat) {
    lo <= hi && forall k :: 0 <= k < |clock| ==> lo <= clock[k] <= hi
  }

  lemma TreeSpan(t: Tree, clock: seq<nat>, lo: nat, hi: nat)
    requires Clocked(Events(t), clock) && Spans(clock, lo, hi)
    ensures 0 <= Wall(t) <= hi - lo
  {
    var ev, n := Events(t), |Events(t)| - 1;
    assert ev[0] == Start(t.start) && ev[n] == Stop(t.end);
    ClockStep(ev, clock, 0);
    ClockStep(ev, clock, n);
  }

  predicate NoTime(f: seq<Tree>) { forall i :: 0 <= i < |f| ==> Wall(f[i]) == 0 }

  /** Stopwatches one after the other take no more than the time there is. */
  lemma {:induction false} ForestSpan(f: seq<Tree>, clock: seq<nat>, lo: nat, hi: nat)
    requires Clocked(ForestEvents(f), clock) && Spans(clock, lo, hi)
    ensures 0 <= Walls(f) <= hi - lo && (Walls(f) == 0 <==> NoTime(f))
  {
    if f != [] {
      var n := |f| - 1;
      var before, last := ForestEvents(f[..n]), Events(f[n]);
      var mid := clock[|before|];
      ClockedParts(before, last, clock);
      ForestSpan(f[..n], clock[..|before|], lo, mid);
      TreeSpan(f[n], clock[|before|..], mid, hi);
      assert NoTime(f) <==> NoTime(f[..n]) && Wall(f[n]) == 0 by {
        assert forall i :: 0 <= i < n ==> f[..n][i] == f[i];
      }
    }
  }

  lemma NestedSpan(t: Tree, clock: seq<nat>)
    requires Clocked(Events(t), clock)
    ensures |clock| == |ForestEvents(t.nested)| + 2 && clock[0] <= clock[|clock| - 1]
    ensures Clocked(ForestEvents(t.nested), clock[1..|clock| - 1])
    ensures Spans(clock[1..|clock| - 1], clock[0], clock[|clock| - 1])
  {
    var inner, n := ForestEvents(t.nested), |clock| - 1;
    ClockedParts([Start(t.start)] + inner, [Stop(t.end)], clock);
    ClockedParts([Start(t.start)], inner, clock[..n]);
    assert clock[..n][1..] == clock[1..n];
  }

  /**
    * With a clock that never goes back, a stopwatch reports a non-negative duration exactly when timing
    * was on at both its start and its stop, or none of those nested directly in it took any time.
    */
  lemma OwnDurationExactly(t: Tree, root: bool, clock: seq<nat>)
    requires Clocked(Events(t), clock)
    ensures RunDuration(Own(t, root)) >= 0 <==> (t.start != 0 && t.end != 0) || NoTime(t.nested)
  {
    var n := |clock| - 1;
    NestedSpan(t, clock);
    ForestSpan(t.nested, clock[1..n], clock[0], clock[n]);
    assert Events(t)[0] == Start(t.start) && Events(t)[n] == Stop(t.end);
    ClockStep(Events(t), clock, 0);
    ClockStep(Events(t), clock, n);
  }

  /** Nothing that takes time is nested directly in a stopwatch that was not timed at both its ends. */
  predicate TimedThroughout(t: Tree)
    decreases t, 1
  { ((t.start != 0 && t.end != 0) || NoTime(t.nested)) && ForestTimed(t.nested) }

  predicate ForestTimed(f: seq<Tree>)
    decreases f, 0
  { f == [] || (ForestTimed(f[..|f| - 1]) && TimedThroughout(f[|f| - 1])) }

  predicate NoneNegative(ds: seq<Done>) { forall i :: 0 <= i < |ds| ==> RunDuration(ds[i]) >= 0 }

  lemma NoneNegativeBoth(a: seq<Done>, b: seq<Done>)
    ensures NoneNegative(a + b) <==> NoneNegative(a) && NoneNegative(b)
  {
    if NoneNegative(a + b) {
      forall i | 0 <= i < |a| ensures RunDuration(a[i]) >= 0 { assert (a + b)[i] == a[i]; }
      forall i | 0 <= i < |b| ensures RunDuration(b[i]) >= 0 { assert (a + b)[|a| + i] == b[i]; }
    }
  }

  lemma {:induction false} ReportExactly(t: Tree, root: bool, clock: seq<nat>)
    requires Clocked(Events(t), clock)
    ensures NoneNegative(Report(t, root)) <==> TimedThroughout(t)
    decreases t, 1
  {
    NestedSpan(t, clock);
    ForestReportExactly(t.nested, clock[1..|clock| - 1]);
    OwnDurationExactly(t, root, clock);
    NoneNegativeBoth(ForestReport(t.nested), [Own(t, root)]);
    assert NoneNegative([Own(t, root)]) <==> RunDuration([Own(t, root)][0]) >= 0;
  }

  lemma {:induction false} ForestReportExactly(f: seq<Tree>, clock: seq<nat>)
    requires Clocked(ForestEvents(f), clock)
    ensures NoneNegative(ForestReport(f)) <==> ForestTimed(f)
    decreases f, 0
  {
    if f != [] {
      var n := |f| - 1;
      var before := ForestEvents(f[..n]);
      ClockedParts(before, Events(f[n]), clock);
      ForestReportExactly(f[..n], clock[..|before|]);
      ReportExactly(f[n], false, clock[|before|..]);
      NoneNegativeBoth(ForestReport(f[..n]), Report(f[n], false));
    }
  }

  /** No stopwatch of a tree reports a negative duration exactly when the tree is timed throughout. */
  lemma NoneNegativeExactly(s: State, t: Tree, clock: seq<nat>)
    requires Clocked(Events(t), clock)
    ensures var after := Exec(s, Events(t));
            after.Some? && |after.value.done| > |s.done| && after.value.done[..|s.done|] == s.done
    ensures var done := Exec(s, Events(t)).value.done;
            && (NoneNegative(done[|s.done|..]) <==> TimedThroughout(t))
            && (RunDuration(done[|done| - 1]) >= 0 <==> (t.start != 0 && t.end != 0) || NoTime(t.nested))
  {
    var report := Report(t, s.stack == []);
    RunTree(s, t);
    ReportExactly(t, s.stack == [], clock);
    OwnDurationExactly(t, s.stack == [], clock);
    var done := s.done + report;
    assert done[..|s.done|] == s.done && done[|s.done|..] == report && done[|done| - 1] == report[|report| - 1];
  }

  /** Timing turned on inside an untimed stopwatch makes its duration negative. */
  lemma ToggledTimingGoesNegative() returns (t: Tree)
    ensures var s := Exec(State([], []), Events(t));
            s.Some? && |s.value.done| == 2 && RunDuration(s.value.done[1]) < 0
  {
    var inner := Tree(1, [], 3);
    t := Tree(0, [inner], 4);
    RunTree(State([], []), t);
    assert t.nested[..0] == [] && inner.nested == [];
    assert ForestReport(t.nested) == [] + Report(inner, false);
    assert Report(inner, false) == [] + [Done(2, 0, false)];
    assert Walls(t.nested) == 2;
  }
}
