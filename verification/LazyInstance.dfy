/**
 The create-once protocol behind `LazyInstance`: one atomic word that moves from
 empty (0) over creating (1) to the pointer of the instance. Any number of threads
 call `GetOrCreateLazyPointer` any number of times; every load, swap and store of
 the word, the creator call and the exit registration are single steps that
 interleave freely (sequential consistency).
 */
module LazyInstance {

  type Word = int

  const EMPTY: Word := 0
  const CREATING: Word := 1

  /** `value & kLazyInstanceCreatedMask`: some bit other than the lowest is set. */
  predicate IsCreated(w: Word) { w != EMPTY && w != CREATING }

  /** Where a thread stands inside `GetOrCreateLazyPointer`. */
  datatype Call =
    | Away
    | FastLoad
    | Swap
    | Spin
    | Create
    | Store(made: Word)
    | Register
    | LastLoad
    | Returned(pointer: Word)

  /** `made` and `registered` record the creator calls and the exit registrations so far. */
  datatype State = State(word: Word, calls: map<nat, Call>, made: seq<Word>, registered: nat)

  /** `result` is what the creator returns when this step runs it. */
  datatype Step = Step(thread: nat, result: Word)

  function CallStep(s: State, t: nat, result: Word, registerOnExit: bool): State
    requires t in s.calls
  {
    match s.calls[t]
    case Away => Move(s, t, FastLoad)
    case Returned(_) => Move(s, t, FastLoad)
    case FastLoad => Move(s, t, if IsCreated(s.word) then LastLoad else Swap)
    case Swap =>
      if s.word == EMPTY then Move(s, t, Create).(word := CREATING) else Move(s, t, Spin)
    case Spin => Move(s, t, if s.word == CREATING then Spin else LastLoad)
    case Create => Move(s, t, Store(result)).(made := s.made + [result])
    case Store(p) => Move(s, t, if registerOnExit then Register else LastLoad).(word := p)
    case Register => Move(s, t, LastLoad).(registered := s.registered + 1)
    case LastLoad => Move(s, t, Returned(s.word))
  }

  function Move(s: State, t: nat, c: Call): State
    requires t in s.calls
  { s.(calls := s.calls[t := c]) }

  ghost predicate Initial(s: State) {
    s.word == EMPTY && s.made == [] && s.registered == 0 && forall t :: t in s.calls ==> s.calls[t] == Away
  }

  ghost predicate Next(s: State, step: Step, s': State, registerOnExit: bool) {
    step.thread in s.calls && s' == CallStep(s, step.thread, step.result, registerOnExit)
  }

  ghost predicate IsRun(run: seq<State>, steps: seq<Step>, registerOnExit: bool) {
    && |run| == |steps| + 1
    && Initial(run[0])
    && forall i {:trigger steps[i]} :: 0 <= i < |steps| ==> Next(run[i], steps[i], run[i + 1], registerOnExit)
  }

  /** Every creator call of the run yields a proper pointer. */
  ghost predicate ProperCreator(steps: seq<Step>) {
    forall i :: 0 <= i < |steps| ==> IsCreated(steps[i].result)
  }

  // ---------------------------------------------------------------- invariant

  /** Thread `t` is between its successful swap and its store. */
  ghost predicate Creates(s: State, t: nat) {
    t in s.calls && (s.calls[t].Create? || s.calls[t].Store?)
  }

  ghost predicate Registers(s: State, t: nat) { t in s.calls && s.calls[t].Register? }

  ghost predicate Inv(s: State, registerOnExit: bool) {
    // the word tells how far creation has come
    && (s.word == EMPTY ==> s.made == [] && s.registered == 0)
    && (IsCreated(s.word) ==> s.made == [s.word])
    && (s.word == CREATING <==> exists t :: Creates(s, t))
    && |s.made| <= 1
    && (forall p :: p in s.made ==> IsCreated(p))
    // one creator, and what it holds is what was made
    && (forall t, u :: Creates(s, t) && Creates(s, u) ==> t == u)
    && (forall t :: Creates(s, t) ==>
          s.registered == 0 && s.made == if s.calls[t].Create? then [] else [s.calls[t].made])
    // registration happens once, after the store
    && s.registered <= 1
    && (s.registered == 1 ==> registerOnExit)
    && (forall t, u :: Registers(s, t) && Registers(s, u) ==> t == u)
    && (forall t :: Registers(s, t) ==> IsCreated(s.word) && s.registered == 0 && registerOnExit)
    && (registerOnExit && IsCreated(s.word) && s.registered == 0 ==> exists t :: Registers(s, t))
    // threads past the protocol see the finished instance
    && (forall t :: t in s.calls && s.calls[t].LastLoad? ==> IsCreated(s.word))
    && (forall t :: t in s.calls && s.calls[t].Spin? ==> s.word != EMPTY)
    && (forall t :: t in s.calls && s.calls[t].Returned? ==> IsCreated(s.word) && s.calls[t].pointer == s.word)
  }

  /** A step leaves the other calls where they are. */
  lemma OthersStay(s: State, step: Step, s': State, registerOnExit: bool)
    requires Next(s, step, s', registerOnExit)
    ensures forall u :: u != step.thread ==>
              (Creates(s', u) <==> Creates(s, u)) && (Registers(s', u) <==> Registers(s, u))
  {}

  lemma CreatorStep(s: State, step: Step, s': State, registerOnExit: bool)
    requires Inv(s, registerOnExit) && Next(s, step, s', registerOnExit) && IsCreated(step.result)
    requires Creates(s, step.thread)
    ensures Inv(s', registerOnExit)
  {
    var t := step.thread;
    OthersStay(s, step, s', registerOnExit);
    assert s.word == CREATING;
    if s.calls[t].Create? {
      assert Creates(s', t);
    } else {
      assert s.calls[t].made in s.made;
      assert forall u :: !Creates(s', u);
      if registerOnExit { assert Registers(s', t); }
    }
  }

  lemma SwapStep(s: State, step: Step, s': State, registerOnExit: bool)
    requires Inv(s, registerOnExit) && Next(s, step, s', registerOnExit)
    requires s.calls[step.thread].Swap? && s.word == EMPTY
    ensures Inv(s', registerOnExit)
  {
    OthersStay(s, step, s', registerOnExit);
    assert forall u :: !Creates(s, u);
    assert Creates(s', step.thread);
  }

  lemma RegisterStep(s: State, step: Step, s': State, registerOnExit: bool)
    requires Inv(s, registerOnExit) && Next(s, step, s', registerOnExit) && Registers(s, step.thread)
    ensures Inv(s', registerOnExit)
  {
    OthersStay(s, step, s', registerOnExit);
    assert forall u :: !Creates(s', u);
  }

  lemma InvStep(s: State, step: Step, s': State, registerOnExit: bool)
    requires Inv(s, registerOnExit) && Next(s, step, s', registerOnExit) && IsCreated(step.result)
    ensures Inv(s', registerOnExit)
  {
    var t := step.thread;
    if Creates(s, t) {
      CreatorStep(s, step, s', registerOnExit);
    } else if Registers(s, t) {
      RegisterStep(s, step, s', registerOnExit);
    } else if s.calls[t].Swap? && s.word == EMPTY {
      SwapStep(s, step, s', registerOnExit);
    } else {
      OtherStep(s, step, s', registerOnExit);
    }
  }

  /** A step that neither creates nor registers leaves the word. */
  lemma OtherStep(s: State, step: Step, s': State, registerOnExit: bool)
    requires Inv(s, registerOnExit) && Next(s, step, s', registerOnExit)
    requires !Creates(s, step.thread) && !Registers(s, step.thread) && !(s.calls[step.thread].Swap? && s.word == EMPTY)
    ensures Inv(s', registerOnExit) && s'.word == s.word
  {
    OthersStay(s, step, s', registerOnExit);
    if s.word == CREATING {
      var u :| Creates(s, u);
      assert Creates(s', u);
    }
    if registerOnExit && IsCreated(s.word) && s.registered == 0 {
      var u :| Registers(s, u);
      assert Registers(s', u);
    }
  }

  lemma {:induction false} InvHolds(run: seq<State>, steps: seq<Step>, registerOnExit: bool, k: nat)
    requires IsRun(run, steps, registerOnExit) && ProperCreator(steps) && k < |run|
    ensures Inv(run[k], registerOnExit)
  {
    if k == 0 {
      assert forall t :: !Creates(run[0], t);
    } else {
      InvHolds(run, steps, registerOnExit, k - 1);
      assert Next(run[k - 1], steps[k - 1], run[k], registerOnExit);
      InvStep(run[k - 1], steps[k - 1], run[k], registerOnExit);
    }
  }

  // ---------------------------------------------------------------- results

  /** The word only moves 0 to 1 to the pointer, one stage at a time, and then stays. */
  lemma {:induction false} WordMovesForward(
      run: seq<State>, steps: seq<Step>, registerOnExit: bool, i: nat, j: nat)
    requires IsRun(run, steps, registerOnExit) && ProperCreator(steps) && i <= j < |run|
    ensures || run[j].word == run[i].word
            || (run[i].word == EMPTY && (run[j].word == CREATING || (IsCreated(run[j].word) && j > i + 1)))
            || (run[i].word == CREATING && IsCreated(run[j].word))
    ensures IsCreated(run[i].word) ==> run[j].word == run[i].word
    ensures run[i].made <= run[j].made && run[i].registered <= run[j].registered
    decreases j - i
  {
    if i < j {
      WordMovesForward(run, steps, registerOnExit, i, j - 1);
      InvHolds(run, steps, registerOnExit, j - 1);
      InvHolds(run, steps, registerOnExit, j);
      assert Next(run[j - 1], steps[j - 1], run[j], registerOnExit);
      assert Creates(run[j - 1], steps[j - 1].thread) ==> run[j - 1].word == CREATING;
    }
  }

  /**
   The promise of the class: over every run the creator is called at most once, all
   calls of all threads return that one pointer, which was fully made before any of
   them returned, and the exit callback is registered at most once.
   */
  lemma CreatedOnceAndShared(run: seq<State>, steps: seq<Step>, registerOnExit: bool,
                             i: nat, t: nat, j: nat, u: nat)
    requires IsRun(run, steps, registerOnExit) && ProperCreator(steps)
    requires i <= j < |run| && t in run[i].calls && u in run[j].calls
    requires run[i].calls[t].Returned? && run[j].calls[u].Returned?
    ensures run[i].made == run[j].made == [run[i].calls[t].pointer]
    ensures run[j].calls[u].pointer == run[i].calls[t].pointer
    ensures run[j].registered <= 1 && (run[j].registered == 1 ==> registerOnExit)
  {
    InvHolds(run, steps, registerOnExit, i);
    InvHolds(run, steps, registerOnExit, j);
    WordMovesForward(run, steps, registerOnExit, i, j);
  }

  /** Once no thread is inside a call any more, the callback is registered exactly when asked for. */
  lemma RegisteredWhenQuiet(run: seq<State>, steps: seq<Step>, registerOnExit: bool, k: nat)
    requires IsRun(run, steps, registerOnExit) && ProperCreator(steps) && k < |run|
    requires forall t :: t in run[k].calls ==> run[k].calls[t].Away? || run[k].calls[t].Returned?
    ensures run[k].registered == if registerOnExit && run[k].made != [] then 1 else 0
    ensures |run[k].made| == if exists t :: t in run[k].calls && run[k].calls[t].Returned? then 1 else 0
  {
    InvHolds(run, steps, registerOnExit, k);
    SomeoneReturned(run, steps, registerOnExit, k);
    assert forall t :: !Creates(run[k], t);
  }

  /** A word that left 0 was moved by a thread that is still inside its call or has returned. */
  lemma {:induction false} SomeoneReturned(run: seq<State>, steps: seq<Step>, registerOnExit: bool, k: nat)
    requires IsRun(run, steps, registerOnExit) && ProperCreator(steps) && k < |run|
    ensures run[k].word != EMPTY ==> exists t :: t in run[k].calls && run[k].calls[t] != Away
  {
    if k > 0 {
      SomeoneReturned(run, steps, registerOnExit, k - 1);
      assert Next(run[k - 1], steps[k - 1], run[k], registerOnExit);
      assert run[k].calls[steps[k - 1].thread] != Away;
    }
  }

  /**
   A thread that has to spin waits for one other thread, which is between its swap and
   its store; that thread is never blocked and its next two steps end the spinning.
   */
  lemma SpinEndsByCreator(run: seq<State>, steps: seq<Step>, registerOnExit: bool, k: nat, t: nat, result: Word)
      returns (c: nat, s1: State, s2: State)
    requires IsRun(run, steps, registerOnExit) && ProperCreator(steps) && k < |run| && IsCreated(result)
    requires t in run[k].calls && run[k].calls[t].Spin? && run[k].word == CREATING
    ensures c != t && Creates(run[k], c) && forall u :: Creates(run[k], u) ==> u == c
    ensures Next(run[k], Step(c, result), s1, registerOnExit)
    ensures Next(s1, Step(c, result), s2, registerOnExit)
    ensures IsCreated(s1.word) || IsCreated(s2.word)
  {
    InvHolds(run, steps, registerOnExit, k);
    c :| Creates(run[k], c);
    s1 := CallStep(run[k], c, result, registerOnExit);
    s2 := CallStep(s1, c, result, registerOnExit);
    if run[k].calls[c].Store? { assert run[k].calls[c].made in run[k].made; }
  }
}
