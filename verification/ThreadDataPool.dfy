/**
  * tracked_objects.cc: ThreadData objects outlive their threads. A terminating thread puts its object
  * on a singly linked list of retired ones; a new thread takes the first one with its name, or makes
  * a new object.
  */
module ThreadDataPool {

  // ---------------------------------------------------------------- thread names

  predicate IsDigit(c: char) { '0' <= c <= '9' }

  ghost predicate NoTrailingDigit(s: string) { s == "" || !IsDigit(s[|s| - 1]) }

  /** Replaces the trailing digits, if any, with a star. */
  method SanitizeThreadName(name: string) returns (r: string)
    ensures r == Sanitized(name)
  {
    var i := |name|;
    assert name[..i] == name;
    while i > 0 && IsDigit(name[i - 1])
      invariant 0 <= i <= |name| && Kept(name) == Kept(name[..i])
    {
      i := i - 1;
      assert name[..i + 1][..i] == name[..i];
    }
    if i == |name| { return name; }
    return name[..i] + "*";
  }

  /** The name without its trailing digits. */
  function Kept(name: string): (k: string)
    ensures |k| <= |name| && k == name[..|k|]
  { if name != "" && IsDigit(name[|name| - 1]) then Kept(name[..|name| - 1]) else name }

  function Sanitized(name: string): string { if Kept(name) == name then name else Kept(name) + "*" }

  lemma {:induction false} KeptSplits(name: string)
    ensures NoTrailingDigit(Kept(name)) && forall i :: |Kept(name)| <= i < |name| ==> IsDigit(name[i])
  {
    if name != "" && IsDigit(name[|name| - 1]) { KeptSplits(name[..|name| - 1]); }
  }

  lemma DigitsAre(c: char)
    ensures IsDigit(c) <==> c in "0123456789"
  {
    var digits := "0123456789";
    assert digits[0] == '0' && digits[1] == '1' && digits[2] == '2' && digits[3] == '3' && digits[4] == '4';
    assert digits[5] == '5' && digits[6] == '6' && digits[7] == '7' && digits[8] == '8' && digits[9] == '9';
  }

  /** Cut where the trailing digits begin, with a star in their place if there are any. */
  lemma SanitizedExactly(name: string, k: nat)
    requires k <= |name| && (k > 0 ==> name[k - 1] !in "0123456789")
    requires forall i :: k <= i < |name| ==> name[i] in "0123456789"
    ensures Sanitized(name) == if k == |name| then name else name[..k] + "*"
  {
    KeptSplits(name);
    var j := |Kept(name)|;
    forall c: char ensures IsDigit(c) <==> c in "0123456789" { DigitsAre(c); }
    assert j > 0 ==> Kept(name)[j - 1] == name[j - 1];
    assert name[..|name|] == name;
  }

  /** A pooled name never ends in a digit, so sanitizing it again changes nothing. */
  lemma SanitizedIsStable(name: string)
    ensures NoTrailingDigit(Sanitized(name)) && Sanitized(Sanitized(name)) == Sanitized(name)
  {
    KeptSplits(name);
    var r := Sanitized(name);
    assert Kept(name) != name ==> r[|r| - 1] == '*';
    assert Kept(r) == r;
  }

  // ---------------------------------------------------------------- any number of threads

  datatype Data = Data(name: string, incarnation: nat)

  /**
    * `Missed` found nothing to reuse and is about to create; `Holding` has not stored its TLS slot yet;
    * `Closing` is in a shutdown, past the lock.
    */
  datatype Thread = Idle | Missed(name: string) | Holding(d: nat, name: string) | Bound(d: nat, name: string)
                  | Closing | Dead

  /** Thread-local storage is there once this is not `Uninitialized`; `Active` is DEACTIVATED and above. */
  datatype Status = Uninitialized | Dormant | Active

  datatype State = State(data: seq<Data>, retired: seq<nat>, incarnation: nat, status: Status,
                         threads: map<nat, Thread>)

  function Without<T>(s: seq<T>, i: nat): seq<T>
    requires i < |s|
  { s[..i] + s[i + 1..] }

  /**
    * What threads do, the list lock held but for `Bind`, `SetStatus` and `Settle`. `Initialize` is the part of
    * EnsureTlsInitialization under the lock; `SetStatus` and `Settle` are the stores of the status after it and
    * at the end of a shutdown, which other threads can come before.
    */
  datatype Action = Search(t: nat, name: string) | Create(t: nat) | Bind(t: nat) | Terminate(t: nat)
                  | Initialize(t: nat) | SetStatus(t: nat) | Shutdown(t: nat) | Settle(t: nat)

  function Of(s: State, t: nat): Thread { if t in s.threads then s.threads[t] else Idle }

  /** The first retired object of that name, or the length of the list. */
  function FirstNamed(data: seq<Data>, retired: seq<nat>, name: string): (i: nat)
    ensures i <= |retired|
    ensures i < |retired| && retired[i] < |data| ==> data[retired[i]].name == name
    ensures forall j :: 0 <= j < i && retired[j] < |data| ==> data[retired[j]].name != name
  {
    if retired == [] || (retired[0] < |data| && data[retired[0]].name == name) then 0
    else FirstNamed(data, retired[1..], name) + 1
  }

  /** The thread is in none of these calls. */
  predicate Outside(s: State, t: nat) { Of(s, t).Idle? || Of(s, t).Bound? }

  predicate Enabled(s: State, a: Action) {
    match a
    case Search(t, _) => Of(s, t).Idle? && s.status != Uninitialized
    case Create(t) => Of(s, t).Missed?
    case Bind(t) => Of(s, t).Holding?
    case Terminate(t) => Of(s, t).Bound? && Of(s, t).d < |s.data|
    case Initialize(t) => Outside(s, t) && s.status != Active
    case SetStatus(t) => Outside(s, t) && s.status != Uninitialized
    case Shutdown(t) => Outside(s, t) && s.status != Uninitialized
    case Settle(t) => Of(s, t).Closing?
  }

  function Step(s: State, a: Action): State
    requires Enabled(s, a)
  {
    var thread := Of(s, a.t);
    match a
    case Search(t, name) =>
      var i := FirstNamed(s.data, s.retired, name);
      if i == |s.retired| then s.(threads := s.threads[t := Missed(name)])
      else s.(threads := s.threads[t := Holding(s.retired[i], name)], retired := Without(s.retired, i))
    case Create(t) =>
      s.(data := s.data + [Data(thread.name, s.incarnation)],
         threads := s.threads[t := Holding(|s.data|, thread.name)])
    case Bind(t) => s.(threads := s.threads[t := Bound(thread.d, thread.name)])
    case Terminate(t) =>
      s.(threads := s.threads[t := Dead],
         retired := if s.data[thread.d].incarnation == s.incarnation then [thread.d] + s.retired else s.retired)
    case Initialize(_) => s.(incarnation := s.incarnation + 1, status := Active)
    case SetStatus(_) => s.(status := Active)
    case Shutdown(t) =>
      s.(threads := s.threads[t := Closing], retired := [], incarnation := s.incarnation + 1)
    case Settle(t) => s.(threads := s.threads[t := Idle], status := Dormant)
  }

  const INITIAL: State := State([], [], 0, Uninitialized, map[])

  predicate Holds(s: State, t: nat, d: nat) {
    var thread := Of(s, t);
    (thread.Holding? || thread.Bound?) && thread.d == d
  }

  /** Nobody shares an object, and the list holds each of its objects once. */
  ghost predicate Exclusive(s: State) {
    && (forall t: nat, u: nat, d: nat :: Holds(s, t, d) && Holds(s, u, d) ==> t == u)
    && (forall t: nat, d: nat :: Holds(s, t, d) ==> d !in s.retired)
    && (forall i, j :: 0 <= i < j < |s.retired| ==> s.retired[i] != s.retired[j])
  }

  ghost predicate Named(s: State) {
    forall t: nat, d: nat :: Holds(s, t, d) ==> d < |s.data| && s.data[d].name == Of(s, t).name
  }

  /** No object is of an incarnation to come. Those on the list may be of an earlier one. */
  ghost predicate Dated(s: State) {
    && (forall d :: d in s.retired ==> d < |s.data|)
    && (forall d :: 0 <= d < |s.data| ==> s.data[d].incarnation <= s.incarnation)
  }

  /** No object of this incarnation is lost: each is held by a thread or waits on the list. */
  ghost predicate NoneLost(s: State) {
    forall d {:trigger s.data[d]} :: 0 <= d < |s.data| && s.data[d].incarnation == s.incarnation ==>
      d in s.retired || exists t: nat :: Holds(s, t, d)
  }

  ghost predicate Inv(s: State) { Exclusive(s) && Named(s) && Dated(s) && NoneLost(s) }

  predicate NewIncarnation(a: Action) { a.Shutdown? || a.Initialize? }

  /** A step of thread `t` leaves what the others hold. */
  lemma OthersKeep(s: State, a: Action)
    requires Enabled(s, a)
    ensures forall u: nat :: u != a.t ==> Of(Step(s, a), u) == Of(s, u)
    ensures forall u: nat, d: nat :: u != a.t ==> (Holds(Step(s, a), u, d) <==> Holds(s, u, d))
  {
    var s' := Step(s, a);
    forall u: nat | u != a.t ensures Of(s', u) == Of(s, u) {}
  }

  lemma WithoutOne(s: seq<nat>, i: nat)
    requires i < |s| && forall i, j :: 0 <= i < j < |s| ==> s[i] != s[j]
    ensures var r := Without(s, i);
            && s[i] !in r && (forall x :: x in r ==> x in s)
            && forall i, j :: 0 <= i < j < |r| ==> r[i] != r[j]
  {
    var r := Without(s, i);
    assert forall k :: 0 <= k < |r| ==> r[k] == s[if k < i then k else k + 1];
  }

  lemma TakeKeeps(s: State, a: Action)
    requires Inv(s) && Enabled(s, a) && a.Search? && FirstNamed(s.data, s.retired, a.name) < |s.retired|
    ensures Exclusive(Step(s, a)) && Named(Step(s, a)) && Dated(Step(s, a))
  {
    var i, s' := FirstNamed(s.data, s.retired, a.name), Step(s, a);
    var r, d := Without(s.retired, i), s.retired[i];
    OthersKeep(s, a);
    WithoutOne(s.retired, i);
    assert d in s.retired && Of(s', a.t) == Holding(d, a.name) && s'.retired == r;
    assert forall e: nat :: Holds(s', a.t, e) <==> e == d;
  }

  lemma SearchKeeps(s: State, a: Action)
    requires Inv(s) && Enabled(s, a) && a.Search?
    ensures Inv(Step(s, a))
  {
    OthersKeep(s, a);
    LostNone(s, a);
    if FirstNamed(s.data, s.retired, a.name) < |s.retired| { TakeKeeps(s, a); }
  }

  /** What was held or retired before a step is so afterwards, within an incarnation. */
  lemma LostNone(s: State, a: Action)
    requires Exclusive(s) && NoneLost(s) && Named(s) && Enabled(s, a) && !NewIncarnation(a)
    ensures NoneLost(Step(s, a))
  {
    var s' := Step(s, a);
    OthersKeep(s, a);
    forall d | 0 <= d < |s'.data| && s'.data[d].incarnation == s'.incarnation
      ensures d in s'.retired || exists t: nat :: Holds(s', t, d)
    {
      if d == |s.data| {
        assert Holds(s', a.t, d);
      } else {
        assert s.data[d] == s'.data[d];
        if d in s.retired {
          StillThere(s, a, d);
        } else {
          var t :| Holds(s, t, d);
          if t != a.t { assert Holds(s', t, d); } else { MovesOn(s, a, d); }
        }
      }
    }
  }

  lemma StillThere(s: State, a: Action, d: nat)
    requires Enabled(s, a) && !NewIncarnation(a) && d in s.retired
    ensures d in Step(s, a).retired || Holds(Step(s, a), a.t, d)
  {
    if a.Search? {
      var k :| 0 <= k < |s.retired| && s.retired[k] == d;
      var i := FirstNamed(s.data, s.retired, a.name);
      if i < |s.retired| && k != i {
        var r, j := Without(s.retired, i), if k < i then k else k - 1;
        assert r[j] == d && Step(s, a).retired == r;
      }
    }
  }

  lemma MovesOn(s: State, a: Action, d: nat)
    requires Enabled(s, a) && !NewIncarnation(a) && Holds(s, a.t, d)
    requires d < |s.data| && s.data[d].incarnation == s.incarnation
    ensures d in Step(s, a).retired || Holds(Step(s, a), a.t, d)
  {
    if a.Terminate? { assert Step(s, a).retired[0] == d; }
  }

  lemma TerminateKeeps(s: State, a: Action)
    requires Inv(s) && Enabled(s, a) && a.Terminate?
    ensures Inv(Step(s, a))
  {
    OthersKeep(s, a);
    assert Holds(s, a.t, Of(s, a.t).d);
    LostNone(s, a);
  }

  lemma CreateKeeps(s: State, a: Action)
    requires Inv(s) && Enabled(s, a) && a.Create?
    ensures Inv(Step(s, a))
  {
    OthersKeep(s, a);
    LostNone(s, a);
    assert forall d: nat :: Holds(Step(s, a), a.t, d) <==> d == |s.data|;
  }

  lemma BindKeeps(s: State, a: Action)
    requires Inv(s) && Enabled(s, a) && a.Bind?
    ensures Inv(Step(s, a))
  {
    OthersKeep(s, a);
    LostNone(s, a);
    assert Holds(s, a.t, Of(s, a.t).d);
    assert forall d: nat :: Holds(Step(s, a), a.t, d) <==> Holds(s, a.t, d);
  }

  /** Steps after which each thread holds what it held, or nothing. */
  lemma StatusKeeps(s: State, a: Action)
    requires Inv(s) && Enabled(s, a) && (a.Initialize? || a.SetStatus? || a.Shutdown? || a.Settle?)
    ensures Inv(Step(s, a))
  {
    var s' := Step(s, a);
    OthersKeep(s, a);
    assert forall t: nat, d: nat :: Holds(s', t, d) ==> Holds(s, t, d) && Of(s', t) == Of(s, t);
    if !NewIncarnation(a) { LostNone(s, a); }
  }

  lemma InvStep(s: State, a: Action)
    requires Inv(s) && Enabled(s, a)
    ensures Inv(Step(s, a))
  {
    match a
    case Search(_, _) => SearchKeeps(s, a);
    case Create(_) => CreateKeeps(s, a);
    case Bind(_) => BindKeeps(s, a);
    case Terminate(_) => TerminateKeeps(s, a);
    case _ => StatusKeeps(s, a);
  }

  ghost predicate IsRun(run: seq<State>, actions: seq<Action>) {
    && |run| == |actions| + 1 && run[0] == INITIAL
    && forall k {:trigger actions[k]} :: 0 <= k < |actions| ==>
         Enabled(run[k], actions[k]) && run[k + 1] == Step(run[k], actions[k])
  }

  /** In every interleaving of thread starts, terminations, shutdowns and initialisations. */
  lemma {:induction false} PoolIsSafe(run: seq<State>, actions: seq<Action>, n: nat)
    requires IsRun(run, actions) && n < |run|
    ensures Exclusive(run[n]) && Named(run[n]) && Dated(run[n]) && NoneLost(run[n])
  {
    if n > 0 {
      PoolIsSafe(run, actions, n - 1);
      assert Enabled(run[n - 1], actions[n - 1]) && run[n] == Step(run[n - 1], actions[n - 1]);
      InvStep(run[n - 1], actions[n - 1]);
    }
  }

  /** Objects are only made when no retired one of the name was there to take. */
  lemma CreatesOnlyWhenNeeded(run: seq<State>, actions: seq<Action>, k: nat, d: nat)
    requires IsRun(run, actions) && k < |actions| && actions[k].Search? && run[k + 1].threads[actions[k].t].Missed?
    requires d in run[k].retired
    ensures d < |run[k].data| && run[k].data[d].name != actions[k].name
  {
    PoolIsSafe(run, actions, k);
    assert Enabled(run[k], actions[k]) && run[k + 1] == Step(run[k], actions[k]);
    var j :| 0 <= j < |run[k].retired| && run[k].retired[j] == d;
  }

  /** The object retired last is the first to be taken by a thread of its name. */
  lemma LastRetiredFirstTaken(s: State, t: nat, u: nat)
    requires Inv(s) && Enabled(s, Terminate(t)) && s.data[Of(s, t).d].incarnation == s.incarnation
    requires u != t && Of(s, u).Idle? && s.status != Uninitialized
    ensures var d, s' := Of(s, t).d, Step(s, Terminate(t));
            && Enabled(s', Search(u, s.data[d].name))
            && Of(Step(s', Search(u, s.data[d].name)), u) == Holding(d, s.data[d].name)
            && Step(s', Search(u, s.data[d].name)).retired == s.retired
  {
    var d, s' := Of(s, t).d, Step(s, Terminate(t));
    OthersKeep(s, Terminate(t));
    assert s'.retired[0] == d && s'.retired[1..] == s.retired;
  }

  // ---------------------------------------------------------------- objects of an earlier incarnation

  lemma RunStep(run: seq<State>, actions: seq<Action>, k: nat)
    requires IsRun(run, actions) && k < |actions|
    ensures Enabled(run[k], actions[k]) && run[k + 1] == Step(run[k], actions[k])
  {}

  /** Object `d` is on the list throughout. */
  ghost predicate StaysRetired(run: seq<State>, d: nat, k: nat, n: nat)
    requires n < |run|
  { forall j :: k <= j <= n ==> d in run[j].retired }

  ghost predicate InitializedOver(run: seq<State>, actions: seq<Action>, d: nat, k: nat, n: nat)
    requires |actions| < |run| && n < |run|
  { k < n && k < |actions| && actions[k].Initialize? && StaysRetired(run, d, k, n) }

  lemma {:induction false} IncarnationGrows(run: seq<State>, actions: seq<Action>, k: nat, n: nat)
    requires IsRun(run, actions) && k <= n < |run|
    ensures run[k].incarnation <= run[n].incarnation && run[k].data <= run[n].data
  {
    if k < n {
      IncarnationGrows(run, actions, k, n - 1);
      RunStep(run, actions, n - 1);
    }
  }

  /** An object that is retired now was so before, or is of this incarnation. */
  lemma RetiredFrom(s: State, a: Action, d: nat)
    requires Inv(s) && Enabled(s, a) && d in Step(s, a).retired
    ensures d < |s.data| && Step(s, a).data[d] == s.data[d] && !a.Shutdown?
    ensures d in s.retired || s.data[d].incarnation == Step(s, a).incarnation
    ensures s.incarnation != Step(s, a).incarnation ==> a.Initialize?
  {
    if a.Search? && FirstNamed(s.data, s.retired, a.name) < |s.retired| {
      WithoutOne(s.retired, FirstNamed(s.data, s.retired, a.name));
    }
    if a.Terminate? { assert Holds(s, a.t, Of(s, a.t).d); }
  }

  /**
    * In every run a retired object is of an earlier incarnation exactly if tracking was initialised again
    * while it was on the list, which it has not left since.
    */
  lemma RetiredIsOldExactly(run: seq<State>, actions: seq<Action>, n: nat, d: nat)
    requires IsRun(run, actions) && n < |run| && d in run[n].retired
    ensures d < |run[n].data|
    ensures run[n].data[d].incarnation < run[n].incarnation <==> exists k :: InitializedOver(run, actions, d, k, n)
  {
    PoolIsSafe(run, actions, n);
    if run[n].data[d].incarnation < run[n].incarnation { OldFrom(run, actions, n, d); }
    forall k | InitializedOver(run, actions, d, k, n) ensures run[n].data[d].incarnation < run[n].incarnation {
      InitializedIsOld(run, actions, n, d, k);
    }
  }

  lemma {:induction false} OldFrom(run: seq<State>, actions: seq<Action>, n: nat, d: nat)
    requires IsRun(run, actions) && n < |run| && d in run[n].retired && d < |run[n].data|
    requires run[n].data[d].incarnation < run[n].incarnation
    ensures exists k :: InitializedOver(run, actions, d, k, n)
  {
    assert n > 0;
    var s, a := run[n - 1], actions[n - 1];
    RunStep(run, actions, n - 1);
    PoolIsSafe(run, actions, n - 1);
    RetiredFrom(s, a, d);
    if s.data[d].incarnation < s.incarnation {
      OldFrom(run, actions, n - 1, d);
      var k :| InitializedOver(run, actions, d, k, n - 1);
      assert InitializedOver(run, actions, d, k, n);
    } else {
      assert InitializedOver(run, actions, d, n - 1, n);
    }
  }

  lemma InitializedIsOld(run: seq<State>, actions: seq<Action>, n: nat, d: nat, k: nat)
    requires IsRun(run, actions) && n < |run| && InitializedOver(run, actions, d, k, n) && d < |run[n].data|
    ensures run[n].data[d].incarnation < run[n].incarnation
  {
    PoolIsSafe(run, actions, k);
    RunStep(run, actions, k);
    IncarnationGrows(run, actions, k + 1, n);
    assert d in run[k].retired;
  }

  /** The thread name of those that were not registered. */
  const WORKER := "WorkerThread-*"

  /** A shutdown leaves tracking dormant, with thread-local storage there. */
  lemma ShutDown() returns (run: seq<State>, actions: seq<Action>)
    ensures IsRun(run, actions) && run[|actions|] == State([], [], 2, Dormant, map[0 := Idle])
  {
    var s1 := Step(INITIAL, Initialize(0));
    var s2 := Step(s1, SetStatus(0));
    var s3 := Step(s2, Shutdown(0));
    run := [INITIAL, s1, s2, s3, Step(s3, Settle(0))];
    actions := [Initialize(0), SetStatus(0), Shutdown(0), Settle(0)];
  }

  lemma WorkerComesAndGoes(s: State) returns (states: seq<State>, actions: seq<Action>)
    requires s.data == [] && s.retired == [] && s.status == Dormant && Of(s, 1).Idle? && Of(s, 0).Idle?
    ensures |actions| == 5 && IsSegment(states, actions) && states[0] == s
    ensures states[5].retired == [0] && states[5].data == [Data(WORKER, s.incarnation)]
    ensures states[5].incarnation == s.incarnation + 1
  {
    var s1 := Step(s, Search(1, WORKER));
    var s2 := Step(s1, Create(1));
    var s3 := Step(s2, Bind(1));
    var s4 := Step(s3, Terminate(1));
    states := [s, s1, s2, s3, s4, Step(s4, Initialize(0))];
    actions := [Search(1, WORKER), Create(1), Bind(1), Terminate(1), Initialize(0)];
    assert s2.data == [] + [Data(WORKER, s.incarnation)] && s4.retired == [0] + [];
  }

  ghost predicate IsSegment(states: seq<State>, actions: seq<Action>) {
    && |states| == |actions| + 1
    && forall k {:trigger actions[k]} :: 0 <= k < |actions| ==>
         Enabled(states[k], actions[k]) && states[k + 1] == Step(states[k], actions[k])
  }

  lemma RunGoesOn(run: seq<State>, actions: seq<Action>, more: seq<State>, moreActions: seq<Action>)
    requires IsRun(run, actions) && IsSegment(more, moreActions) && more[0] == run[|actions|]
    ensures IsRun(run + more[1..], actions + moreActions)
  {
    var r, a := run + more[1..], actions + moreActions;
    forall k | 0 <= k < |a| ensures Enabled(r[k], a[k]) && r[k + 1] == Step(r[k], a[k]) {
      if k < |actions| {
        assert a[k] == actions[k];
      } else {
        assert a[k] == moreActions[k - |actions|];
      }
    }
  }

  /** So it can be: a worker comes and goes between a shutdown and the next initialisation. */
  lemma RetiredOfEarlierIncarnation() returns (run: seq<State>, actions: seq<Action>)
    ensures IsRun(run, actions) && run[|actions|].retired == [0]
    ensures |run[|actions|].data| == 1 && run[|actions|].data[0].incarnation < run[|actions|].incarnation
  {
    run, actions := ShutDown();
    var more, moreActions := WorkerComesAndGoes(run[|actions|]);
    RunGoesOn(run, actions, more, moreActions);
    run, actions := run + more[1..], actions + moreActions;
  }

  // ---------------------------------------------------------------- the linked list takes these steps

  class ThreadData {
    const name: string
    const incarnation: nat
    var nextRetired: ThreadData?

    constructor (name: string, incarnation: nat)
      ensures this.name == name && this.incarnation == incarnation && nextRetired == null
    {
      this.name, this.incarnation, nextRetired := name, incarnation, null;
    }
  }

  /** The loop has passed over `i` objects of other names and stopped at one of this name, or at the end. */
  lemma FirstNamedIs(data: seq<Data>, retired: seq<nat>, name: string, i: nat)
    requires i <= |retired|
    requires forall j {:trigger retired[j]} :: 0 <= j < i ==> retired[j] < |data| && data[retired[j]].name != name
    requires i < |retired| ==> retired[i] < |data| && data[retired[i]].name == name
    ensures FirstNamed(data, retired, name) == i
  {
    var f := FirstNamed(data, retired, name);
    assert f < |retired| ==> retired[f] == retired[f];
  }

  /** The objects are the numbered ones of the step system. */
  ghost predicate Numbered(objects: seq<ThreadData>, data: seq<Data>) {
    && |objects| == |data|
    && (forall i, j :: 0 <= i < j < |objects| ==> objects[i] != objects[j])
    && (forall d :: 0 <= d < |objects| ==> Data(objects[d].name, objects[d].incarnation) == data[d])
  }

  ghost predicate Listed(retired: seq<ThreadData>, objects: seq<ThreadData>, numbers: seq<nat>) {
    |retired| == |numbers| &&
    forall i :: 0 <= i < |retired| ==> numbers[i] < |objects| && retired[i] == objects[numbers[i]]
  }

  ghost predicate Slotted(slots: map<nat, ThreadData>, objects: seq<ThreadData>, s: State) {
    && (forall t :: t in slots ==> Of(s, t).Bound?)
    && (forall t: nat :: Of(s, t).Bound? ==> t in slots && Of(s, t).d < |objects| && slots[t] == objects[Of(s, t).d])
  }

  ghost predicate Mirrors(retired: seq<ThreadData>, objects: seq<ThreadData>, slots: map<nat, ThreadData>, s: State) {
    Inv(s) && Numbered(objects, s.data) && Listed(retired, objects, s.retired) && Slotted(slots, objects, s)
  }

  lemma WithoutListed(retired: seq<ThreadData>, objects: seq<ThreadData>, numbers: seq<nat>, i: nat)
    requires Listed(retired, objects, numbers) && i < |retired|
    ensures Listed(Without(retired, i), objects, Without(numbers, i))
  {
    var r, n := Without(retired, i), Without(numbers, i);
    assert forall k {:trigger r[k]} :: 0 <= k < |r| ==>
        r[k] == retired[if k < i then k else k + 1] && n[k] == numbers[if k < i then k else k + 1];
  }

  /** What a thread holds is not on the list. */
  lemma HeldIsNotListed(retired: seq<ThreadData>, objects: seq<ThreadData>, s: State, t: nat, d: nat)
    requires Inv(s) && Numbered(objects, s.data) && Listed(retired, objects, s.retired) && Holds(s, t, d)
    ensures d < |objects| && objects[d] !in retired
  {
    forall i | 0 <= i < |retired| ensures retired[i] != objects[d] {
      assert s.retired[i] in s.retired;
    }
  }

  function Extracted<T>(s: seq<T>, i: nat): seq<T> { if i < |s| then Without(s, i) else s }

  lemma SearchMirrors(retired: seq<ThreadData>, objects: seq<ThreadData>, slots: map<nat, ThreadData>, s: State,
                      t: nat, name: string)
    requires Mirrors(retired, objects, slots, s) && Enabled(s, Search(t, name))
    ensures var i := FirstNamed(s.data, s.retired, name);
            Mirrors(Extracted(retired, i), objects, slots, Step(s, Search(t, name)))
  {
    var i, s' := FirstNamed(s.data, s.retired, name), Step(s, Search(t, name));
    assert Slotted(slots, objects, s') by { OthersKeep(s, Search(t, name)); }
    if i < |retired| { WithoutListed(retired, objects, s.retired, i); }
    assert Inv(s') by { InvStep(s, Search(t, name)); }
  }

  /** The thread holds the object that was found. */
  lemma SearchFinds(retired: seq<ThreadData>, objects: seq<ThreadData>, s: State, t: nat, name: string)
    requires Numbered(objects, s.data) && Listed(retired, objects, s.retired) && Enabled(s, Search(t, name))
    ensures var i, s' := FirstNamed(s.data, s.retired, name), Step(s, Search(t, name));
            if i == |retired| then Of(s', t) == Missed(name)
            else && Of(s', t).Holding? && Of(s', t).d < |objects|
                 && retired[i] == objects[Of(s', t).d] && retired[i].name == name
  {
  }

  lemma CreateMirrors(retired: seq<ThreadData>, objects: seq<ThreadData>, slots: map<nat, ThreadData>, s: State,
                      t: nat, d: ThreadData)
    requires Mirrors(retired, objects, slots, s) && d !in objects && Of(s, t) == Missed(d.name)
    requires d.incarnation == s.incarnation
    ensures Mirrors(retired, objects + [d], slots, Step(s, Create(t)))
  {
    OthersKeep(s, Create(t));
    InvStep(s, Create(t));
    assert Slotted(slots, objects + [d], Step(s, Create(t)));
  }

  lemma BindMirrors(retired: seq<ThreadData>, objects: seq<ThreadData>, slots: map<nat, ThreadData>, s: State, t: nat)
    requires Mirrors(retired, objects, slots, s) && Of(s, t).Holding? && Of(s, t).d < |objects|
    ensures Mirrors(retired, objects, slots[t := objects[Of(s, t).d]], Step(s, Bind(t)))
  {
    OthersKeep(s, Bind(t));
    InvStep(s, Bind(t));
    assert Slotted(slots[t := objects[Of(s, t).d]], objects, Step(s, Bind(t)));
  }

  lemma SlotIsHeld(retired: seq<ThreadData>, objects: seq<ThreadData>, slots: map<nat, ThreadData>, s: State, t: nat)
    requires Mirrors(retired, objects, slots, s) && t in slots
    ensures Of(s, t).Bound? && Of(s, t).d < |s.data| && slots[t] in objects && slots[t] !in retired
  {
    assert Of(s, t).Bound?;
    HeldIsNotListed(retired, objects, s, t, Of(s, t).d);
  }

  function Retired(d: ThreadData, incarnation: nat, retired: seq<ThreadData>): seq<ThreadData> {
    if d.incarnation == incarnation then [d] + retired else retired
  }

  lemma TerminateMirrors(retired: seq<ThreadData>, objects: seq<ThreadData>, slots: map<nat, ThreadData>, s: State,
                         t: nat)
    requires Mirrors(retired, objects, slots, s) && t in slots && Of(s, t).Bound? && Of(s, t).d < |s.data|
    ensures Mirrors(Retired(slots[t], s.incarnation, retired), objects, slots - {t}, Step(s, Terminate(t)))
  {
    var s' := Step(s, Terminate(t));
    assert Slotted(slots - {t}, objects, s') by { OthersKeep(s, Terminate(t)); }
    assert Listed(Retired(slots[t], s.incarnation, retired), objects, s'.retired) && s'.data == s.data;
    assert Inv(s') by { InvStep(s, Terminate(t)); }
  }

  /** Steps that have to do with the status only. */
  lemma StatusMirrors(retired: seq<ThreadData>, objects: seq<ThreadData>, slots: map<nat, ThreadData>, s: State,
                      a: Action)
    requires Mirrors(retired, objects, slots, s) && Enabled(s, a) && (a.Initialize? || a.SetStatus? || a.Settle?)
    ensures Mirrors(retired, objects, slots, Step(s, a))
  {
    InvStep(s, a);
    OthersKeep(s, a);
    assert Of(Step(s, a), a.t) == if a.Settle? then Idle else Of(s, a.t);
    assert Slotted(slots, objects, Step(s, a));
  }

  lemma ShutdownMirrors(retired: seq<ThreadData>, objects: seq<ThreadData>, slots: map<nat, ThreadData>, s: State,
                        t: nat)
    requires Mirrors(retired, objects, slots, s) && Enabled(s, Shutdown(t))
    ensures Mirrors([], objects, slots - {t}, Step(s, Shutdown(t)))
  {
    OthersKeep(s, Shutdown(t));
    InvStep(s, Shutdown(t));
    assert Slotted(slots - {t}, objects, Step(s, Shutdown(t)));
  }

  // What the calls do in the step system.

  function Ensured(s: State, t: nat): State
    requires Outside(s, t)
  { if s.status == Active then s else Step(s, Initialize(t)) }

  /** A thread that has no object searches, creates if it has to, and binds. */
  function Registered(s: State, t: nat, name: string): State
    requires Outside(s, t) && s.status != Uninitialized
  {
    if Of(s, t).Bound? then s
    else
      var s' := Step(s, Search(t, name));
      var s'' := if Of(s', t).Missed? then Step(s', Create(t)) else s';
      Step(s'', Bind(t))
  }

  function Tracked(s: State, t: nat): State
    requires Outside(s, t)
  { Step(Ensured(s, t), SetStatus(t)) }

  function Closed(s: State, t: nat): State
    requires Outside(s, t)
  { Step(Step(Tracked(s, t), Shutdown(t)), Settle(t)) }

  lemma EnsuredIsActive(s: State, t: nat)
    requires Outside(s, t)
    ensures var s' := Ensured(s, t);
            && s'.status == Active && s'.incarnation == s.incarnation + (if s.status == Active then 0 else 1)
            && s'.retired == s.retired && s'.data == s.data && s'.threads == s.threads
  {}

  /** A registered thread has an object of the name, one taken from the list if there was any to take. */
  lemma RegisteredHolds(s: State, t: nat, name: string)
    requires Inv(s) && Of(s, t).Idle? && s.status != Uninitialized
    ensures var s' := Registered(s, t, name);
            && Of(s', t).Bound? && Of(s', t).d < |s'.data| && s'.data[Of(s', t).d].name == name
            && if exists d :: d in s.retired && s.data[d].name == name
               then s'.data == s.data && Of(s', t).d in s.retired && Of(s', t).d !in s'.retired
               else s'.data == s.data + [Data(name, s.incarnation)] && s'.retired == s.retired
  {
    var i := FirstNamed(s.data, s.retired, name);
    if i < |s.retired| {
      assert s.retired[i] in s.retired;
      WithoutOne(s.retired, i);
    }
  }

  /** After a shutdown nothing is retired, the thread has no object, and no object is of the incarnation. */
  lemma ClosedIsDormant(s: State, t: nat)
    requires Inv(s) && Outside(s, t)
    ensures var s' := Closed(s, t);
            && s'.retired == [] && s'.status == Dormant && Of(s', t).Idle? && s'.data == s.data
            && forall d :: 0 <= d < |s'.data| ==> s'.data[d].incarnation < s'.incarnation
  {}

  class Pool {
    var firstRetired: ThreadData?
    var incarnation: nat
    var status: Status
    var slots: map<nat, ThreadData>       // the TLS slot of each thread
    ghost var retired: seq<ThreadData>    // the list, first to last
    ghost var objects: seq<ThreadData>    // all there ever were, by number
    ghost var state: State

    ghost function Node(i: nat): ThreadData?
      reads this`retired
    { if i < |retired| then retired[i] else null }

    /** The links follow `retired`, which has no repeats; objects off the list have none. */
    ghost predicate Linked()
      reads this`firstRetired, this`retired, this`objects, retired, objects
    {
      && firstRetired == Node(0)
      && (forall i, j :: 0 <= i < j < |retired| ==> retired[i] != retired[j])
      && (forall d :: d in retired ==> d in objects)
      && (forall i {:trigger retired[i].nextRetired} :: 0 <= i < |retired| ==> retired[i].nextRetired == Node(i + 1))
      && (forall d :: d in objects && d !in retired ==> d.nextRetired == null)
    }

    /** The list of objects is that of the step system. */
    ghost predicate Listing()
      reads this
    { Numbered(objects, state.data) && Listed(retired, objects, state.retired) }

    ghost predicate Valid()
      reads this, retired, objects
    {
      && incarnation == state.incarnation && status == state.status
      && Mirrors(retired, objects, slots, state) && Linked()
    }

    constructor ()
      ensures Valid() && state == INITIAL && objects == []
    {
      firstRetired, incarnation, status, slots := null, 0, Uninitialized, map[];
      retired, objects, state := [], [], INITIAL;
    }

    /** `*pcursor = cursor->next`, where `pcursor` is the head or the link of the previous object. */
    method Unlink(previous: ThreadData?, cursor: ThreadData, ghost i: nat)
      requires Linked() && i < |retired| && cursor == retired[i]
      requires previous == if i == 0 then null else retired[i - 1]
      modifies this`firstRetired, this`retired, retired
      ensures Linked() && retired == Without(old(retired), i)
    {
      if previous == null {
        firstRetired := cursor.nextRetired;
      } else {
        previous.nextRetired := cursor.nextRetired;
      }
      cursor.nextRetired := null;
      ghost var was := retired;
      retired := Without(was, i);
      assert forall k :: 0 <= k < |retired| ==> retired[k] == was[if k < i then k else k + 1];
    }

    /** The first retired object of the name, and the one before it. */
    method Find(name: string) returns (previous: ThreadData?, cursor: ThreadData?, ghost i: nat)
      requires Linked() && Listing()
      ensures i == FirstNamed(state.data, state.retired, name)
      ensures cursor == Node(FirstNamed(state.data, state.retired, name))
      ensures previous == if i == 0 then null else retired[i - 1]
    {
      previous, cursor, i := null, firstRetired, 0;
      while cursor != null && cursor.name != name
        invariant i <= |retired| && cursor == Node(i) && previous == if i == 0 then null else retired[i - 1]
        invariant forall j :: 0 <= j < i ==> retired[j].name != name
        decreases |retired| - i
      {
        assert cursor == retired[i];
        previous, cursor, i := cursor, cursor.nextRetired, i + 1;
      }
      FirstNamedIs(state.data, state.retired, name, i);
    }

    method Extract(name: string) returns (d: ThreadData?)
      requires Linked() && Listing()
      modifies this`firstRetired, this`retired, retired
      ensures Linked()
      ensures var i := FirstNamed(state.data, state.retired, name);
              retired == Extracted(old(retired), i) && d == old(Node(i))
    {
      var previous;
      ghost var i;
      previous, d, i := Find(name);
      assert d != null <==> i < |retired|;
      if d != null { Unlink(previous, d, i); }
    }

    /** The part of GetRetiredOrCreateThreadData under the lock, for thread `t`. */
    method Take(name: string, ghost t: nat) returns (d: ThreadData?)
      requires Valid() && Enabled(state, Search(t, name))
      modifies this`firstRetired, this`retired, this`state, retired
      ensures Valid() && state == Step(old(state), Search(t, name))
      ensures d == null <==> Of(state, t).Missed?
      ensures d != null ==> Of(state, t).d < |objects| && d == objects[Of(state, t).d] && d.name == name
    {
      ghost var s' := Step(state, Search(t, name));
      SearchFinds(retired, objects, state, t, name);
      SearchMirrors(retired, objects, slots, state, t, name);
      d := TakeInto(name, s');
    }

    method TakeInto(name: string, ghost s': State) returns (d: ThreadData?)
      requires Linked() && Listing() && s'.incarnation == incarnation && s'.status == status
      requires Mirrors(Extracted(retired, FirstNamed(state.data, state.retired, name)), objects, slots, s')
      modifies this`firstRetired, this`retired, this`state, retired
      ensures Valid() && state == s' && d == old(Node(FirstNamed(state.data, state.retired, name)))
    {
      d := Extract(name);
      state := s';
    }

    method CreateThreadData(name: string, ghost t: nat) returns (d: ThreadData)
      requires Valid() && Of(state, t) == Missed(name)
      modifies this`objects, this`state
      ensures Valid() && state == Step(old(state), Create(t)) && objects == old(objects) + [d]
      ensures fresh(d) && d.name == name && Of(state, t) == Holding(|old(objects)|, name)
    {
      d := new ThreadData(name, incarnation);
      CreateMirrors(retired, objects, slots, state, t, d);
      objects := objects + [d];
      state := Step(state, Create(t));
    }

    method SetSlot(t: nat, d: ThreadData)
      requires Valid() && Of(state, t).Holding? && Of(state, t).d < |objects| && d == objects[Of(state, t).d]
      modifies this`slots, this`state
      ensures Valid() && slots == old(slots)[t := d] && state == Step(old(state), Bind(t))
    {
      BindMirrors(retired, objects, slots, state, t);
      slots := slots[t := d];
      state := Step(state, Bind(t));
    }

    /** For a thread that has no object: find or make one, and bind. */
    method Register(name: string, t: nat)
      requires Valid() && Enabled(state, Search(t, name))
      modifies this, retired
      ensures Valid() && t in slots && slots[t].name == name && state == Registered(old(state), t, name)
    {
      var d := Take(name, t);
      if d == null { d := CreateThreadData(name, t); }
      SetSlot(t, d);
    }

    /** `isWorker`: what WorkerPool::RunsTasksOnCurrentThread says. */
    method InitializeThreadContext(threadName: string, t: nat, isWorker: bool)
      requires Valid() && Outside(state, t)
      modifies this, retired
      ensures Valid() && (!isWorker ==> t in slots)
      ensures state == if isWorker then old(state)
                       else Registered(Ensured(old(state), t), t, Sanitized(threadName))
    {
      if isWorker { return; }
      EnsureTlsInitialization(t);
      if t in slots { return; }
      var name := SanitizeThreadName(threadName);
      Register(name, t);
    }

    /** ThreadData::Get by thread `t`. */
    method Get(t: nat) returns (d: ThreadData?)
      requires Valid() && Outside(state, t)
      modifies this, retired
      ensures Valid() && (d == null <==> old(status) == Uninitialized) && (d != null ==> t in slots && d == slots[t])
      ensures state == if d == null then old(state) else Registered(old(state), t, WORKER)
    {
      if status == Uninitialized { return null; }
      if t !in slots { Register(WORKER, t); }
      return slots[t];
    }

    /** Onto the head of the list; an object of another incarnation is left alone. */
    method Retire(d: ThreadData)
      requires Linked() && d in objects && d !in retired
      modifies this`firstRetired, this`retired, d
      ensures Linked() && retired == Retired(d, incarnation, old(retired))
    {
      if incarnation == d.incarnation {
        d.nextRetired := firstRetired;
        firstRetired := d;
        retired := [d] + retired;
      }
    }

    method OnThreadTerminationCleanup(t: nat)
      requires Valid() && t in slots
      modifies this`firstRetired, this`retired, this`slots, this`state, slots[t]
      ensures Valid() && state == Step(old(state), Terminate(t)) && slots == old(slots) - {t}
    {
      var d := slots[t];
      SlotIsHeld(retired, objects, slots, state, t);
      TerminateMirrors(retired, objects, slots, state, t);
      RetireInto(d, t, Step(state, Terminate(t)));
    }

    method RetireInto(d: ThreadData, t: nat, ghost s': State)
      requires Valid() && d in objects && d !in retired && s'.incarnation == incarnation && s'.status == status
      requires Mirrors(Retired(d, incarnation, retired), objects, slots - {t}, s')
      modifies this`firstRetired, this`retired, this`slots, this`state, d
      ensures Valid() && state == s' && slots == old(slots) - {t}
    {
      Retire(d);
      slots := slots - {t};
      state := s';
    }

    /** Counts another incarnation unless it is done already; the list stays as it is. */
    method EnsureTlsInitialization(ghost t: nat)
      requires Valid() && Outside(state, t)
      modifies this`incarnation, this`status, this`state
      ensures Valid() && state == Ensured(old(state), t)
    {
      if status == Active { return; }
      StatusMirrors(retired, objects, slots, state, Initialize(t));
      incarnation := incarnation + 1;
      status := Active;
      state := Step(state, Initialize(t));
    }

    method InitializeAndSetTrackingStatus(ghost t: nat)
      requires Valid() && Outside(state, t)
      modifies this`incarnation, this`status, this`state
      ensures Valid() && state == Tracked(old(state), t)
    {
      EnsureTlsInitialization(t);
      StatusMirrors(retired, objects, slots, state, SetStatus(t));
      status := Active;
      state := Step(state, SetStatus(t));
    }

    method BreakApart()
      requires Linked()
      modifies this`firstRetired, this`retired, retired
      ensures Linked() && retired == [] && forall d :: d in old(retired) ==> d.nextRetired == null
    {
      ghost var was, i := retired, 0;
      while firstRetired != null
        invariant i <= |was| && retired == was && objects == old(objects)
        invariant firstRetired == if i < |was| then was[i] else null
        invariant forall k {:trigger was[k].nextRetired} :: i <= k < |was| ==>
                    was[k].nextRetired == if k + 1 < |was| then was[k + 1] else null
        invariant forall k :: 0 <= k < i ==> was[k].nextRetired == null
        invariant forall d :: d in objects && d !in was ==> d.nextRetired == null
        decreases |was| - i
      {
        var d := firstRetired;
        firstRetired := d.nextRetired;
        d.nextRetired := null;
        i := i + 1;
      }
      forall d | d in objects ensures d.nextRetired == null {
        if d in was { var k :| 0 <= k < |was| && was[k] == d; }
      }
      retired := [];
    }

    /** The locked part: the list is taken apart; and the caller's slot cleared. */
    method CloseList(t: nat)
      requires Valid() && Enabled(state, Shutdown(t))
      modifies this`firstRetired, this`retired, this`incarnation, this`slots, this`state, retired
      ensures Valid() && state == Step(old(state), Shutdown(t)) && slots == old(slots) - {t} && status == old(status)
    {
      ShutdownMirrors(retired, objects, slots, state, t);
      incarnation := incarnation + 1;
      BreakApart();
      slots := slots - {t};
      state := Step(state, Shutdown(t));
    }

    method GoDormant(ghost t: nat)
      requires Valid() && Of(state, t).Closing?
      modifies this`status, this`state
      ensures Valid() && state == Step(old(state), Settle(t))
    {
      StatusMirrors(retired, objects, slots, state, Settle(t));
      status := Dormant;
      state := Step(state, Settle(t));
    }

    method ShutdownSingleThreadedCleanup(t: nat)
      requires Valid() && Outside(state, t)
      modifies this, retired
      ensures Valid() && state == Closed(old(state), t) && slots == old(slots) - {t}
    {
      InitializeAndSetTrackingStatus(t);
      CloseList(t);
      GoDormant(t);
    }
  }
}
