/**
  * run_loop.cc: nested run loops on one thread. Quitting a loop that is not the innermost one is
  * deferred until the loops above it have ended.
  */
module RunLoop {

  // ---------------------------------------------------------------- a thread's loops as a step system

  datatype Loop = Loop(runCalled: bool, quitCalled: bool, running: bool)

  datatype State = State(loops: map<nat, Loop>, stack: seq<nat>)

  /**
    * `Begin` is BeforeRun up to the nesting observers, `MarkRunning` the rest of it. The two are
    * apart only for a nested loop, where observers may act in between.
    */
  datatype Event = Begin(loop: nat) | MarkRunning(loop: nat) | Quit(loop: nat) | End(loop: nat)

  function Get(s: State, l: nat): Loop { if l in s.loops then s.loops[l] else Loop(false, false, false) }

  predicate Top(s: State, l: nat) { s.stack != [] && s.stack[|s.stack| - 1] == l }

  /** A loop runs once; the delegate's nested Run calls return innermost first. */
  predicate Enabled(s: State, e: Event) {
    match e
    case Begin(l) => !Get(s, l).runCalled
    case MarkRunning(l) => Top(s, l) && !Get(s, l).running
    case Quit(l) => true
    case End(l) => Top(s, l) && Get(s, l).running
  }

  predicate Pushes(s: State, e: Event) { e.Begin? && !Get(s, e.loop).quitCalled }

  function Step(s: State, e: Event): State
    requires Enabled(s, e)
  {
    var l := Get(s, e.loop);
    match e
    case Begin(_) =>
      if l.quitCalled then s.(loops := s.loops[e.loop := l.(runCalled := true)])
      else State(s.loops[e.loop := l.(runCalled := true, running := s.stack == [])], s.stack + [e.loop])
    case MarkRunning(_) => s.(loops := s.loops[e.loop := l.(running := true)])
    case Quit(_) => s.(loops := s.loops[e.loop := l.(quitCalled := true)])
    case End(_) => State(s.loops[e.loop := l.(running := false)], s.stack[..|s.stack| - 1])
  }

  /** Whether the step calls the delegate's Quit. */
  predicate Delegates(s: State, e: Event) {
    match e
    case Quit(l) => Get(s, l).running && Top(s, l)
    case End(l) => |s.stack| > 1 && Get(s, s.stack[|s.stack| - 2]).quitCalled
    case _ => false
  }

  const INITIAL: State := State(map[], [])

  ghost predicate IsRun(run: seq<State>, ev: seq<Event>) {
    && |run| == |ev| + 1 && run[0] == INITIAL
    && forall k {:trigger ev[k]} :: 0 <= k < |ev| ==> Enabled(run[k], ev[k]) && run[k + 1] == Step(run[k], ev[k])
  }

  /** The stack holds each loop once; those on it were run, and a running loop is on it. */
  ghost predicate Inv(s: State) {
    && (forall i, j :: 0 <= i < j < |s.stack| ==> s.stack[i] != s.stack[j])
    && (forall l :: l in s.stack ==> Get(s, l).runCalled)
    && (forall l :: Get(s, l).running ==> l in s.stack)
  }

  lemma InvStep(s: State, e: Event)
    requires Inv(s) && Enabled(s, e)
    ensures Inv(Step(s, e))
  {
    var s' := Step(s, e);
    assert Pushes(s, e) ==> e.loop !in s.stack;
    forall l | l in s'.stack ensures Get(s', l).runCalled {
      assert l != e.loop ==> l in s.stack;
    }
    forall l | Get(s', l).running ensures l in s'.stack {
      assert l != e.loop ==> Get(s', l) == Get(s, l);
      if e.End? && l != e.loop {
        var i :| 0 <= i < |s.stack| && s.stack[i] == l;
        assert s'.stack[i] == l;
      } else if Pushes(s, e) && l == e.loop {
        assert s'.stack[|s.stack|] == l;
      }
    }
  }

  lemma {:induction false} InvHolds(run: seq<State>, ev: seq<Event>, n: nat)
    requires IsRun(run, ev) && n < |run|
    ensures Inv(run[n])
  {
    if n > 0 {
      InvHolds(run, ev, n - 1);
      assert Enabled(run[n - 1], ev[n - 1]);
      InvStep(run[n - 1], ev[n - 1]);
    }
  }

  // ---------------------------------------------------------------- the classes take these steps

  /** BeforeRun with nesting observers that only watch. */
  function Started(s: State, l: nat): State
    requires Enabled(s, Begin(l))
  {
    var s' := Step(s, Begin(l));
    if Pushes(s, Begin(l)) && s.stack != [] then Step(s', MarkRunning(l)) else s'
  }

  predicate QuitOnTop(s: State) { s.stack != [] && Get(s, s.stack[|s.stack| - 1]).quitCalled }

  class Delegate {
    var activeRunLoops: seq<RunLoop>
    var quits: nat                        // how often the virtual Quit() was called
    ghost var state: State
    ghost var loops: map<nat, RunLoop>    // which loop has which number

    constructor ()
      ensures Valid() && state == INITIAL && quits == 0 && loops == map[]
    {
      activeRunLoops, quits, state, loops := [], 0, INITIAL, map[];
    }

    ghost predicate Valid()
      reads this, loops.Values
    {
      && Inv(state) && |activeRunLoops| == |state.stack|
      && (forall i :: 0 <= i < |state.stack| ==> state.stack[i] in loops && activeRunLoops[i] == loops[state.stack[i]])
      && (forall l :: l in loops ==> loops[l].id == l && loops[l].delegate == this && loops[l].Flags() == Get(state, l))
      && (forall l :: l !in loops ==> l !in state.loops)
    }

    method TopWasQuit() returns (b: bool)
      requires Valid()
      ensures b == QuitOnTop(state)
    {
      var n := |activeRunLoops|;
      assert n > 0 ==> activeRunLoops[n - 1].Flags() == Get(state, state.stack[n - 1]);
      b := n > 0 && activeRunLoops[n - 1].quitCalled;
    }

    method Quit()
      modifies this`quits
      ensures quits == old(quits) + 1
    { quits := quits + 1; }
  }

  class RunLoop {
    const delegate: Delegate
    ghost const id: nat
    var runCalled: bool
    var quitCalled: bool
    var running: bool

    constructor (delegate: Delegate, ghost id: nat)
      requires delegate.Valid() && id !in delegate.loops
      modifies delegate`loops
      ensures this.delegate == delegate && this.id == id && Known() && delegate.loops == old(delegate.loops)[id := this]
    {
      this.delegate, this.id := delegate, id;
      runCalled, quitCalled, running := false, false, false;
      new;
      delegate.loops := delegate.loops[id := this];
    }

    ghost function Flags(): Loop
      reads this
    { Loop(runCalled, quitCalled, running) }

    /** One of the loops of a delegate in good order. */
    ghost predicate Known()
      reads this, delegate, delegate.loops.Values
    { delegate.Valid() && id in delegate.loops && delegate.loops[id] == this }

    method BeforeRun() returns (ok: bool)
      requires Known() && !runCalled
      modifies this, delegate`activeRunLoops, delegate`state
      ensures Known() && delegate.state == Started(old(delegate.state), id)
      ensures ok == Pushes(old(delegate.state), Begin(id))
    {
      ghost var s := delegate.state;
      InvStarted(s, id);
      runCalled := true;
      if quitCalled {
        delegate.state := Started(s, id);
        return false;
      }
      delegate.activeRunLoops := delegate.activeRunLoops + [this];
      running := true;
      delegate.state := Started(s, id);
      return true;
    }

    method Quit()
      requires Known()
      modifies this, delegate`quits, delegate`state
      ensures Known() && delegate.state == Step(old(delegate.state), Event.Quit(id))
      ensures delegate.quits == old(delegate.quits) + if Delegates(old(delegate.state), Event.Quit(id)) then 1 else 0
    {
      ghost var s := delegate.state;
      InvStep(s, Event.Quit(id));
      quitCalled := true;
      if running && delegate.activeRunLoops[|delegate.activeRunLoops| - 1] == this {
        delegate.Quit();
      }
      delegate.state := Step(s, Event.Quit(id));
    }

    /** Leaves the stack; the loop below may have been quit meanwhile. */
    method AfterRun()
      requires Known() && Enabled(delegate.state, End(id))
      modifies this, delegate`activeRunLoops, delegate`quits, delegate`state
      ensures Known() && delegate.state == Step(old(delegate.state), End(id))
      ensures delegate.quits == old(delegate.quits) + if Delegates(old(delegate.state), End(id)) then 1 else 0
    {
      ghost var s := delegate.state;
      Pop();
      DelegatesAfterEnd(s, id);
      var deferred := delegate.TopWasQuit();
      if deferred { delegate.Quit(); }
    }

    method Pop()
      requires Known() && Enabled(delegate.state, End(id))
      modifies this, delegate`activeRunLoops, delegate`state
      ensures Known() && delegate.state == Step(old(delegate.state), End(id))
    {
      ghost var s, s' := delegate.state, Step(delegate.state, End(id));
      InvStep(s, End(id));
      var loops := delegate.activeRunLoops;
      assert loops[|loops| - 1] == this;
      running := false;
      delegate.activeRunLoops := loops[..|loops| - 1];
      delegate.state := s';
      assert forall l :: l in delegate.loops && l != id ==> Get(s', l) == Get(s, l);
    }
  }

  /** Whether the loop below was quit does not depend on the pop. */
  lemma DelegatesAfterEnd(s: State, l: nat)
    requires Inv(s) && Enabled(s, End(l))
    ensures Delegates(s, End(l)) <==> QuitOnTop(Step(s, End(l)))
  {
    var s' := Step(s, End(l));
    if s'.stack != [] { assert s'.stack[|s'.stack| - 1] == s.stack[|s.stack| - 2] != l; }
  }

  /**
    * In every run an event tells the delegate exactly if it leaves the topmost loop quit and either ended
    * the loop above or quit this very loop while it was running; with no loop on the stack it is never told.
    */
  lemma ToldExactly(run: seq<State>, ev: seq<Event>, k: nat)
    requires IsRun(run, ev) && k < |ev|
    ensures Delegates(run[k], ev[k]) <==>
              && QuitOnTop(run[k + 1])
              && (ev[k].End? || (ev[k].Quit? && Top(run[k + 1], ev[k].loop) && Get(run[k + 1], ev[k].loop).running))
  {
    InvHolds(run, ev, k);
    assert Enabled(run[k], ev[k]) && run[k + 1] == Step(run[k], ev[k]);
    if ev[k].End? { DelegatesAfterEnd(run[k], ev[k].loop); }
  }

  lemma InvStarted(s: State, l: nat)
    requires Inv(s) && Enabled(s, Begin(l))
    ensures Inv(Started(s, l))
  {
    InvStep(s, Begin(l));
    if Pushes(s, Begin(l)) && s.stack != [] { InvStep(Step(s, Begin(l)), MarkRunning(l)); }
  }

  /** After BeforeRun the loop was run, and it is topmost and running unless it had been quit. */
  lemma StartedRuns(s: State, l: nat)
    requires Inv(s) && Enabled(s, Begin(l))
    ensures var s' := Started(s, l);
            && Get(s', l).runCalled && (Get(s', l).quitCalled <==> Get(s, l).quitCalled)
            && (if Get(s, l).quitCalled then s'.stack == s.stack else Top(s', l) && s'.stack == s.stack + [l])
            && (Get(s', l).running <==> !Get(s, l).quitCalled)
  {
    InvStep(s, Begin(l));
    assert Get(s, l).running ==> l in s.stack && Get(s, l).runCalled;
  }

  /** Once run, or quit, a loop stays so. */
  lemma {:induction false} FlagsStay(run: seq<State>, ev: seq<Event>, k: nat, n: nat, l: nat)
    requires IsRun(run, ev) && k <= n < |run|
    ensures Get(run[k], l).runCalled ==> Get(run[n], l).runCalled
    ensures Get(run[k], l).quitCalled ==> Get(run[n], l).quitCalled
  {
    if k < n {
      FlagsStay(run, ev, k, n - 1, l);
      assert Enabled(run[n - 1], ev[n - 1]) && run[n] == Step(run[n - 1], ev[n - 1]);
    }
  }

  /** In every run each loop is begun at most once, pushed or not. */
  lemma BegunOnce(run: seq<State>, ev: seq<Event>, i: nat, j: nat, l: nat)
    requires IsRun(run, ev) && i < j < |ev| && ev[i] == Begin(l)
    ensures ev[j] != Begin(l)
  {
    assert Enabled(run[i], ev[i]) && run[i + 1] == Step(run[i], ev[i]);
    FlagsStay(run, ev, i + 1, j, l);
    assert Enabled(run[j], ev[j]);
  }

  /** A loop that was quit before it is begun never comes on the stack. */
  lemma {:induction false} QuitFirstNeverRuns(run: seq<State>, ev: seq<Event>, i: nat, n: nat, l: nat)
    requires IsRun(run, ev) && i < n < |run| && ev[i] == Quit(l) && !Get(run[i], l).runCalled
    ensures l !in run[n].stack
  {
    InvHolds(run, ev, n - 1);
    assert Enabled(run[n - 1], ev[n - 1]) && run[n] == Step(run[n - 1], ev[n - 1]);
    if n == i + 1 {
      InvHolds(run, ev, i);
    } else {
      QuitFirstNeverRuns(run, ev, i, n - 1, l);
      assert Enabled(run[i], ev[i]) && run[i + 1] == Step(run[i], ev[i]);
      FlagsStay(run, ev, i + 1, n - 1, l);
    }
  }

  // ---------------------------------------------------------------- the stack is the loops under way

  /** What an event does to the stack. */
  datatype Mark = Pushed(loop: nat) | Ended(loop: nat) | Other

  function MarkOf(s: State, e: Event): Mark {
    if Pushes(s, e) then Pushed(e.loop) else if e.End? then Ended(e.loop) else Other
  }

  ghost function Marks(run: seq<State>, ev: seq<Event>, n: nat): seq<Mark>
    requires n <= |ev| && n <= |run|
  { seq(n, k requires 0 <= k < n => MarkOf(run[k], ev[k])) }

  /** The loop pushed first, if that is what happened first and it was not ended. */
  ghost function First(marks: seq<Mark>): seq<nat>
    requires marks != []
  { if marks[0].Pushed? && Ended(marks[0].loop) !in marks then [marks[0].loop] else [] }

  /** The loops pushed and not ended afterwards, in the order they were pushed. */
  ghost function UnderWay(marks: seq<Mark>): seq<nat> {
    if marks == [] then [] else First(marks) + UnderWay(marks[1..])
  }

  ghost function Without(s: seq<nat>, l: nat): seq<nat> {
    if s == [] then [] else (if s[0] == l then [] else [s[0]]) + Without(s[1..], l)
  }

  lemma {:induction false} WithoutLast(s: seq<nat>)
    requires s != [] && forall i, j :: 0 <= i < j < |s| ==> s[i] != s[j]
    ensures Without(s, s[|s| - 1]) == s[..|s| - 1]
  {
    if |s| > 1 {
      WithoutLast(s[1..]);
      assert s[1..][..|s| - 2] == s[1..|s| - 1];
      assert s[..|s| - 1] == [s[0]] + s[1..|s| - 1];
    }
  }

  /** A loop pushed is appended, a loop ended is taken out. */
  ghost function Marked(loops: seq<nat>, mark: Mark): seq<nat> {
    match mark
    case Pushed(l) => loops + [l]
    case Ended(l) => Without(loops, l)
    case Other => loops
  }

  lemma FirstStep(marks: seq<Mark>, mark: Mark)
    requires marks != []
    ensures First(marks + [mark]) == if mark.Ended? then Without(First(marks), mark.loop) else First(marks)
  {
    assert forall x :: x in marks + [mark] <==> x in marks || x == mark;
  }

  lemma Associative(a: seq<nat>, b: seq<nat>, c: seq<nat>)
    ensures (a + b) + c == a + (b + c)
  {}

  lemma WithoutBoth(first: seq<nat>, rest: seq<nat>, l: nat)
    requires |first| <= 1
    ensures Without(first + rest, l) == Without(first, l) + Without(rest, l)
  {
    if first == [] { assert first + rest == rest; } else { assert (first + rest)[1..] == rest && first[1..] == []; }
  }

  lemma MarkedBoth(first: seq<nat>, rest: seq<nat>, mark: Mark)
    requires |first| <= 1
    ensures Marked(first + rest, mark) ==
            (if mark.Ended? then Without(first, mark.loop) else first) + Marked(rest, mark)
  {
    if mark.Pushed? { Associative(first, rest, [mark.loop]); }
    if mark.Ended? { WithoutBoth(first, rest, mark.loop); }
  }

  lemma {:induction false} UnderWayStep(marks: seq<Mark>, mark: Mark)
    ensures UnderWay(marks + [mark]) == Marked(UnderWay(marks), mark)
  {
    if marks == [] {
      assert [mark][1..] == [] && [] + [mark] == [mark];
    } else {
      assert (marks + [mark])[1..] == marks[1..] + [mark];
      UnderWayStep(marks[1..], mark);
      FirstStep(marks, mark);
      MarkedBoth(First(marks), UnderWay(marks[1..]), mark);
    }
  }

  lemma StackStep(s: State, e: Event)
    requires Inv(s) && Enabled(s, e)
    ensures Step(s, e).stack == Marked(s.stack, MarkOf(s, e))
  {
    if e.End? { WithoutLast(s.stack); }
  }

  lemma {:induction false} StackIsLoopsUnderWay(run: seq<State>, ev: seq<Event>, n: nat)
    requires IsRun(run, ev) && n <= |ev|
    ensures run[n].stack == UnderWay(Marks(run, ev, n))
  {
    if n > 0 {
      StackIsLoopsUnderWay(run, ev, n - 1);
      InvHolds(run, ev, n - 1);
      assert Enabled(run[n - 1], ev[n - 1]) && run[n] == Step(run[n - 1], ev[n - 1]);
      StackStep(run[n - 1], ev[n - 1]);
      OneMoreMark(run, ev, n - 1);
    }
  }

  lemma OneMoreMark(run: seq<State>, ev: seq<Event>, n: nat)
    requires n < |ev| && n < |run|
    ensures UnderWay(Marks(run, ev, n + 1)) == Marked(UnderWay(Marks(run, ev, n)), MarkOf(run[n], ev[n]))
  {
    UnderWayStep(Marks(run, ev, n), MarkOf(run[n], ev[n]));
    assert Marks(run, ev, n + 1) == Marks(run, ev, n) + [MarkOf(run[n], ev[n])];
  }

  // ---------------------------------------------------------------- no quit is lost

  /** The delegate was told to quit since `l` last became the topmost loop, which it is at `n`. */
  ghost predicate Delivered(run: seq<State>, ev: seq<Event>, n: nat, l: nat)
    requires n <= |ev| < |run|
  {
    exists k {:trigger ev[k]} :: 0 <= k < n && Delegates(run[k], ev[k]) && forall m :: k < m <= n ==> Top(run[m], l)
  }

  /** Flags once set stay set, and a loop that left the stack does not come back. */
  lemma {:induction false} Persists(run: seq<State>, ev: seq<Event>, k: nat, n: nat, l: nat)
    requires IsRun(run, ev) && k <= n < |run|
    ensures Get(run[k], l).quitCalled ==> Get(run[n], l).quitCalled
    ensures Get(run[k], l).runCalled ==> Get(run[n], l).runCalled
    ensures Get(run[k], l).runCalled && l !in run[k].stack ==> l !in run[n].stack
  {
    if k < n {
      Persists(run, ev, k, n - 1, l);
      assert Enabled(run[n - 1], ev[n - 1]) && run[n] == Step(run[n - 1], ev[n - 1]);
    }
  }

  lemma StaysOnStack(run: seq<State>, ev: seq<Event>, k: nat, m: nat, n: nat, l: nat)
    requires IsRun(run, ev) && k <= m <= n < |run| && l in run[k].stack && l in run[n].stack
    ensures l in run[m].stack
  {
    InvHolds(run, ev, k);
    Persists(run, ev, k, m, l);
    Persists(run, ev, m, n, l);
  }

  /** A deferred quit is carried out when the loop becomes topmost again. */
  lemma {:induction false} DeferredQuit(run: seq<State>, ev: seq<Event>, k: nat, n: nat, l: nat)
    requires IsRun(run, ev) && k <= n < |run| && l in run[k].stack && Get(run[k], l).quitCalled
    requires !Top(run[k], l) && Top(run[n], l)
    ensures Delivered(run, ev, n, l)
    decreases n - k
  {
    if !Top(run[k + 1], l) {
      StaysOnStack(run, ev, k, k + 1, n, l);
      Persists(run, ev, k, k + 1, l);
      DeferredQuit(run, ev, k + 1, n, l);
    } else {
      InvHolds(run, ev, k);
      assert Enabled(run[k], ev[k]) && run[k + 1] == Step(run[k], ev[k]);
      assert Delegates(run[k], ev[k]);
      if m :| k < m <= n && !Top(run[m], l) {
        StaysOnStack(run, ev, k, m, n, l);
        Persists(run, ev, k, m, l);
        DeferredQuit(run, ev, m, n, l);
      }
    }
  }

  /** A quit reaches the delegate unless the loop was topmost and still starting and was not covered since. */
  lemma QuitReaches(run: seq<State>, ev: seq<Event>, k: nat, n: nat, l: nat)
    requires IsRun(run, ev) && k < n < |run| && ev[k] == Quit(l) && l in run[k].stack && Top(run[n], l)
    requires !Top(run[k], l) || Get(run[k], l).running || exists m :: k < m <= n && !Top(run[m], l)
    ensures Delivered(run, ev, n, l)
  {
    assert run[k + 1] == Step(run[k], ev[k]);
    if m :| k < m <= n && !Top(run[m], l) {
      StaysOnStack(run, ev, k, m, n, l);
      Persists(run, ev, k + 1, m, l);
      DeferredQuit(run, ev, m, n, l);
    } else {
      assert Top(run[k + 1], l);
      assert Delegates(run[k], ev[k]);
    }
  }

  /**
    * Quit number k, made while the loop is on the stack, takes effect by n: the loop was not topmost, or
    * was running, or another loop has run on top of it since.
    */
  ghost predicate TakesEffect(run: seq<State>, ev: seq<Event>, k: nat, n: nat, l: nat)
    requires k < n <= |ev| < |run|
  {
    && ev[k] == Quit(l) && l in run[k].stack
    && (!Top(run[k], l) || Get(run[k], l).running || exists m :: k < m <= n && !Top(run[m], l))
  }

  lemma {:induction false} QuitEvent(run: seq<State>, ev: seq<Event>, n: nat, l: nat) returns (k: nat)
    requires IsRun(run, ev) && n < |run| && l in run[n].stack && Get(run[n], l).quitCalled
    ensures k < n && ev[k] == Quit(l) && l in run[k].stack
  {
    assert run[0] == INITIAL;
    k := n - 1;
    assert Enabled(run[k], ev[k]) && run[n] == Step(run[k], ev[k]);
    if !(ev[k] == Quit(l) && l in run[k].stack) {
      k := QuitEvent(run, ev, n - 1, l);
    }
  }

  /** In every run, the delegate has been told since a loop became topmost exactly if a quit of it takes effect. */
  lemma QuitDeliveredExactly(run: seq<State>, ev: seq<Event>, n: nat, l: nat)
    requires IsRun(run, ev) && n < |run| && Top(run[n], l)
    ensures Delivered(run, ev, n, l) <==> exists k :: 0 <= k < n && TakesEffect(run, ev, k, n, l)
  {
    if k :| 0 <= k < n && TakesEffect(run, ev, k, n, l) {
      QuitReaches(run, ev, k, n, l);
    } else if Delivered(run, ev, n, l) {
      var j :| 0 <= j < n && Delegates(run[j], ev[j]) && forall m :: j < m <= n ==> Top(run[m], l);
      assert Enabled(run[j], ev[j]) && run[j + 1] == Step(run[j], ev[j]) && Top(run[j + 1], l);
      if ev[j].Quit? {
        assert TakesEffect(run, ev, j, n, l);
      } else {
        InvHolds(run, ev, j);
        var k := QuitEvent(run, ev, j, l);
        assert !Top(run[j], l);
        assert TakesEffect(run, ev, k, n, l);
      }
    }
  }

  /** Nesting observers neither quit nor run loops: nothing happens between a push and MarkRunning. */
  ghost predicate ObserversOnlyWatch(run: seq<State>, ev: seq<Event>)
    requires |ev| < |run|
  {
    forall k {:trigger ev[k]} ::
      0 <= k < |ev| && run[k].stack != [] && !Get(run[k], run[k].stack[|run[k].stack| - 1]).running ==>
        ev[k].MarkRunning?
  }

  /** With such observers, a topmost running loop that was quit has had its delegate told. */
  lemma NoQuitLost(run: seq<State>, ev: seq<Event>, n: nat, l: nat)
    requires IsRun(run, ev) && ObserversOnlyWatch(run, ev) && n < |run|
    requires Top(run[n], l) && Get(run[n], l).running && Get(run[n], l).quitCalled
    ensures Delivered(run, ev, n, l)
  {
    var k := QuitEvent(run, ev, n, l);
    assert ev[k] == Quit(l);
    QuitReaches(run, ev, k, n, l);
  }

  /** An observer that quits the loop about to start: the loop runs on, and the delegate hears nothing. */
  lemma ObserverQuitIsLost() returns (run: seq<State>, ev: seq<Event>)
    ensures IsRun(run, ev)
    ensures var s := run[|ev|]; Top(s, 2) && Get(s, 2).running && Get(s, 2).quitCalled
    ensures !Delivered(run, ev, |ev|, 2)
  {
    ev := [Begin(1), Begin(2), Quit(2), MarkRunning(2)];
    var s1 := Step(INITIAL, ev[0]);
    var s2 := Step(s1, ev[1]);
    var s3 := Step(s2, ev[2]);
    var s4 := Step(s3, ev[3]);
    run := [INITIAL, s1, s2, s3, s4];
    assert s2.stack == [1, 2] && !Get(s2, 2).running;
    QuitDeliveredExactly(run, ev, 4, 2);
  }
}
