/**
  * observer_list.h: whom an iteration over the list visits, however observers come and go meanwhile and
  * however iterations are nested. The list's own runs are read through the registry they amount to.
  */
module ObserverVisits {
  import opened ObserverList
  import opened Wrappers

  // ---------------------------------------------------------------- registration numbers

  /** Numbers are given out once, and an observer has one at a time. */
  ghost predicate Unique(a: Registry) {
    && (forall r :: r in a.live ==> r < a.next)
    && (forall r, q :: r in a.live && q in a.live && a.live[r] == a.live[q] ==> r == q)
  }

  lemma HistoryStep(reg: seq<Registry>, ops: seq<Op>, k: nat)
    requires IsHistory(reg, ops) && k < |ops|
    ensures Allowed(reg[k], ops[k]) && reg[k + 1] == Do(reg[k], ops[k])
  {}

  lemma UniqueStep(a: Registry, op: Op)
    requires Unique(a) && Allowed(a, op)
    ensures Unique(Do(a, op)) && a.next <= Do(a, op).next
  {
    var a' := Do(a, op);
    if op.Remove? { assert forall r :: r in a'.live ==> r in a.live && a'.live[r] == a.live[r]; }
  }

  lemma {:induction false} UniqueHolds(reg: seq<Registry>, ops: seq<Op>, k: nat)
    requires IsHistory(reg, ops) && reg[0].live == map[] && k < |reg|
    ensures Unique(reg[k])
  {
    if k > 0 {
      UniqueHolds(reg, ops, k - 1);
      HistoryStep(reg, ops, k - 1);
      UniqueStep(reg[k - 1], ops[k - 1]);
    }
  }

  lemma {:induction false} NextGrows(reg: seq<Registry>, ops: seq<Op>, j: nat, k: nat)
    requires IsHistory(reg, ops) && j <= k < |reg|
    ensures reg[j].next <= reg[k].next
  {
    if j < k {
      NextGrows(reg, ops, j, k - 1);
      HistoryStep(reg, ops, k - 1);
    }
  }

  /** Observer `o` is registered as number `r`. */
  predicate RegisteredAs(a: Registry, o: Observer, r: nat) { r in a.live && a.live[r] == o }

  ghost predicate StaysIn(reg: seq<Registry>, o: Observer, j: nat, n: nat)
    requires j <= n < |reg|
  { forall k :: j <= k <= n ==> o in reg[k].live.Values }

  lemma NumberOf(a: Registry, o: Observer) returns (r: nat)
    requires o in a.live.Values
    ensures RegisteredAs(a, o, r)
  {
    r :| r in a.live && a.live[r] == o;
  }

  lemma KeepsNumberStep(a: Registry, op: Op, o: Observer, r: nat)
    requires Unique(a) && RegisteredAs(a, o, r) && Allowed(a, op) && o in Do(a, op).live.Values
    ensures RegisteredAs(Do(a, op), o, r)
  {
    var q := NumberOf(Do(a, op), o);
  }

  /** As long as it is there it keeps its number. */
  lemma {:induction false} KeepsNumber(reg: seq<Registry>, ops: seq<Op>, o: Observer, r: nat, j: nat, n: nat)
    requires IsHistory(reg, ops) && reg[0].live == map[] && j <= n < |reg|
    requires StaysIn(reg, o, j, n) && RegisteredAs(reg[j], o, r)
    ensures forall k :: j <= k <= n ==> RegisteredAs(reg[k], o, r)
  {
    if j < n {
      KeepsNumber(reg, ops, o, r, j, n - 1);
      HistoryStep(reg, ops, n - 1);
      UniqueHolds(reg, ops, n - 1);
      KeepsNumberStep(reg[n - 1], ops[n - 1], o, r);
    }
  }

  /** A number given out before state `j` is only live later if it was so all along, for the same observer. */
  lemma {:induction false} OldNumber(reg: seq<Registry>, ops: seq<Op>, o: Observer, r: nat, j: nat, n: nat)
    requires IsHistory(reg, ops) && j <= n < |reg| && RegisteredAs(reg[n], o, r) && r < reg[j].next
    ensures forall k :: j <= k <= n ==> RegisteredAs(reg[k], o, r)
  {
    if j < n {
      HistoryStep(reg, ops, n - 1);
      NextGrows(reg, ops, j, n - 1);
      OldNumber(reg, ops, o, r, j, n - 1);
    }
  }

  // ---------------------------------------------------------------- passing a number that stays live

  lemma {:induction false} AtMostNext(reg: seq<Registry>, ops: seq<Op>, i: nat, b: nat, n: nat)
    requires Iterating(reg, ops, i, b, n)
    ensures 0 <= AtOf(reg[n], i) <= reg[n].next
    decreases n
  {
    HistoryStep(reg, ops, n - 1);
    if b < n {
      assert Iterating(reg, ops, i, b, n - 1) && ops[n - 1] != End(i);
      AtMostNext(reg, ops, i, b, n - 1);
    }
  }

  /** An iterator past a number that is live from state `m` on, and not before, has stood at it since then. */
  lemma PassesAt(reg: seq<Registry>, ops: seq<Op>, i: nat, b: nat, n: nat, r: nat, m: nat) returns (v: nat)
    requires Iterating(reg, ops, i, b, n) && b - 1 <= m <= n && r < AtOf(reg[n], i)
    requires forall k :: m <= k <= n ==> r in reg[k].live
    requires m >= b ==> AtOf(reg[m], i) <= r && (m > b - 1 ==> r == reg[m - 1].next)
    ensures b <= v && m <= v <= n && AtOf(reg[v], i) == r
  {
    PassedWasVisited(reg, ops, i, b, n, r);
    if k :| b <= k <= n && AtOf(reg[k], i) == r {
      if k >= m {
        v := k;
      } else {
        assert Iterating(reg, ops, i, b, m);
        NeverBack(reg, ops, i, b, k, m);
        v := m;
      }
    } else {
      var k :| b - 1 <= k < n && Skips(reg, i, k, r) && r !in reg[k].live;
      SkipIsLate(reg, ops, i, b, n, r, m, k);
      assert false;
    }
  }

  /** Nothing is skipped before it was registered. */
  lemma SkipIsLate(reg: seq<Registry>, ops: seq<Op>, i: nat, b: nat, n: nat, r: nat, m: nat, k: nat)
    requires Iterating(reg, ops, i, b, n) && b - 1 <= m <= n && b - 1 <= k < n && Skips(reg, i, k, r)
    requires m >= b ==> r == reg[m - 1].next
    ensures k >= m
  {
    if k < m {
      assert Iterating(reg, ops, i, b, k + 1);
      AtMostNext(reg, ops, i, b, k + 1);
      HistoryStep(reg, ops, k);
      NextGrows(reg, ops, k, m - 1);
    }
  }

  // ---------------------------------------------------------------- the list's own runs

  /** In a run from the empty list iterator `i` begins at state `b` and is not ended by state `n`. */
  ghost predicate Iterates(run: seq<State>, ops: seq<Op>, i: nat, b: nat, n: nat) {
    && IsRun(run, ops) && run[0] == Initial(run[0].existingOnly)
    && 0 < b <= n < |run| && ops[b - 1] == Begin(i)
    && forall k {:trigger ops[k]} :: b <= k < n ==> ops[k] != End(i)
  }

  /** `o` is on the list throughout. */
  ghost predicate Stays(run: seq<State>, o: Observer, j: int, n: nat) {
    0 <= j <= n < |run| && forall k :: j <= k <= n ==> Some(o) in run[k].slots
  }

  /** Iterator `i` stands at `o`. */
  predicate Visits(s: State, i: nat, o: Observer) { i in s.iters && Current(s.slots, s.iters[i]) == Some(o) }

  /** `v` is a visit from state `b` on, and there is no other: the iterator does not move between two of them. */
  ghost predicate VisitedOnce(run: seq<State>, ops: seq<Op>, i: nat, o: Observer, b: nat, n: nat, v: nat)
    requires n < |run| && |run| == |ops| + 1
  {
    && b <= v <= n && Visits(run[v], i, o)
    && forall k, j {:trigger Visits(run[k], i, o), ops[j]} ::
         b <= k <= n && Visits(run[k], i, o) && (k <= j < v || v <= j < k) ==> ops[j] != Advance(i)
  }

  lemma RunStep(run: seq<State>, ops: seq<Op>, k: nat)
    requires IsRun(run, ops) && k < |ops|
    ensures Enabled(run[k], ops[k]) && run[k + 1] == Step(run[k], ops[k])
  {}

  /** An iterator over an empty list visits nobody. */
  lemma {:induction false} VisitorAttached(run: seq<State>, ops: seq<Op>, i: nat, b: nat, n: nat)
    requires Iterates(run, ops, i, b, n)
    ensures i in run[n].iters && (run[n].iters[i].At? <==> run[b - 1].slots != [])
    decreases n
  {
    RunStep(run, ops, n - 1);
    if b < n {
      assert Iterates(run, ops, i, b, n - 1) && ops[n - 1] != End(i);
      VisitorAttached(run, ops, i, b, n - 1);
    }
  }

  lemma AttachedIsUnderWay(s: State, a: Registry, i: nat)
    requires Agrees(s, a) && i in s.iters && s.iters[i].At?
    ensures AtOf(a, i) >= 0
  {}

  /** The history of a run in which the iterator is under way. */
  lemma HistoryOf(run: seq<State>, ops: seq<Op>, i: nat, b: nat, n: nat) returns (reg: seq<Registry>)
    requires Iterates(run, ops, i, b, n) && run[b - 1].slots != []
    ensures Iterating(reg, ops, i, b, n) && AllAgree(run, reg) && reg[0] == Empty(run[0].existingOnly)
  {
    var ids;
    reg, ids := RunsAreHistories(run, ops);
    assert AtOf(reg[b], i) >= 0 by {
      VisitorAttached(run, ops, i, b, b);
      AttachedIsUnderWay(run[b], reg[b], i);
    }
  }

  /** To stand at an observer is to stand at its number. */
  lemma VisitIsAt(s: State, a: Registry, i: nat, o: Observer, r: nat)
    requires Agrees(s, a) && Unique(a) && RegisteredAs(a, o, r) && i in s.iters && AtOf(a, i) >= 0
    requires a.cursors[i].limit.Some? ==> r < a.cursors[i].limit.value
    ensures Visits(s, i, o) <==> AtOf(a, i) == r
  {}

  lemma LimitIsNext(reg: seq<Registry>, ops: seq<Op>, i: nat, b: nat, n: nat)
    requires Iterating(reg, ops, i, b, n)
    ensures AtOf(reg[b], i) >= 0 && AtOf(reg[n], i) >= 0
    ensures reg[b].cursors[i].limit == reg[n].cursors[i].limit ==
            if reg[b - 1].existingOnly then Some(reg[b - 1].next) else None
  {
    VisitsExistingOnly(reg, ops, i, b, n);
    assert Iterating(reg, ops, i, b, b);
    VisitsExistingOnly(reg, ops, i, b, b);
  }

  /** From state `m` on, when `o` has number `r`. */
  lemma VisitsAreAt(run: seq<State>, ops: seq<Op>, reg: seq<Registry>, i: nat, o: Observer, b: nat, n: nat,
                    r: nat, m: nat)
    requires Iterating(reg, ops, i, b, n) && AllAgree(run, reg) && b <= m <= n
    requires reg[0].live == map[] && forall k :: m <= k <= n ==> RegisteredAs(reg[k], o, r)
    requires reg[b].cursors[i].limit.Some? ==> r < reg[b].cursors[i].limit.value
    ensures forall k :: m <= k <= n ==> (Visits(run[k], i, o) <==> AtOf(reg[k], i) == r)
  {
    forall k | m <= k <= n ensures Visits(run[k], i, o) <==> AtOf(reg[k], i) == r {
      assert Iterating(reg, ops, i, b, k);
      NeverBack(reg, ops, i, b, k, k);
      UniqueHolds(reg, ops, k);
      assert Agrees(run[k], reg[k]);
      VisitIsAt(run[k], reg[k], i, o, r);
    }
  }

  /** The visit to a number that stays live is the only one. */
  lemma OnlyVisit(run: seq<State>, ops: seq<Op>, reg: seq<Registry>, i: nat, o: Observer, b: nat, n: nat,
                  r: nat, m: nat, v: nat)
    requires Iterating(reg, ops, i, b, n) && |run| == |reg| && b <= m <= v <= n && AtOf(reg[v], i) == r
    requires forall k :: m <= k <= n ==> (Visits(run[k], i, o) <==> AtOf(reg[k], i) == r)
    ensures VisitedOnce(run, ops, i, o, m, n, v)
  {
    forall k, j | m <= k <= n && Visits(run[k], i, o) && (k <= j < v || v <= j < k) ensures ops[j] != Advance(i) {
      var lo, hi := if k < v then k else v, if k < v then v else k;
      assert Iterating(reg, ops, i, b, hi);
      NeverBack(reg, ops, i, b, lo, hi);
    }
  }

  lemma StaysInHistory(run: seq<State>, reg: seq<Registry>, o: Observer, j: nat, n: nat)
    requires AllAgree(run, reg) && Stays(run, o, j, n)
    ensures StaysIn(reg, o, j, n)
  {
    forall k | j <= k <= n ensures o in reg[k].live.Values {
      assert Agrees(run[k], reg[k]) && Some(o) in run[k].slots;
    }
  }

  lemma RegisteredStays(run: seq<State>, reg: seq<Registry>, o: Observer, r: nat, j: nat, n: nat)
    requires AllAgree(run, reg) && j <= n < |run| && forall k :: j <= k <= n ==> RegisteredAs(reg[k], o, r)
    ensures Stays(run, o, j, n)
  {
    forall k | j <= k <= n ensures Some(o) in run[k].slots {
      assert Agrees(run[k], reg[k]) && RegisteredAs(reg[k], o, r);
    }
  }

  /** At its end an iterator is past every live number within its limit. */
  lemma EndIsPast(s: State, a: Registry, i: nat, o: Observer, r: nat)
    requires Agrees(s, a) && Unique(a) && RegisteredAs(a, o, r) && AtOf(a, i) >= 0
    requires i in s.iters && AtEnd(s.slots, s.iters[i])
    requires a.cursors[i].limit.Some? ==> r < a.cursors[i].limit.value
    ensures r < AtOf(a, i)
  {}

  /** An observer that is on the list from before an iteration begins until it reaches its end is visited once. */
  lemma StayingIsVisitedOnce(run: seq<State>, ops: seq<Op>, i: nat, b: nat, n: nat, o: Observer) returns (v: nat)
    requires Iterates(run, ops, i, b, n) && Stays(run, o, b - 1, n)
    requires i in run[n].iters && AtEnd(run[n].slots, run[n].iters[i])
    ensures VisitedOnce(run, ops, i, o, b, n, v)
  {
    assert Some(o) in run[b - 1].slots;
    var reg := HistoryOf(run, ops, i, b, n);
    assert StaysIn(reg, o, b - 1, n) by { StaysInHistory(run, reg, o, b - 1, n); }
    var r := StayingNumber(reg, ops, i, b, n, o);
    assert r < AtOf(reg[n], i) by {
      UniqueHolds(reg, ops, n);
      assert Agrees(run[n], reg[n]) && RegisteredAs(reg[n], o, r);
      EndIsPast(run[n], reg[n], i, o, r);
    }
    v := PassesAt(reg, ops, i, b, n, r, b - 1);
    VisitsAreAt(run, ops, reg, i, o, b, n, r, b);
    OnlyVisit(run, ops, reg, i, o, b, n, r, b, v);
  }

  /** It keeps its number, which is within the limit of the iterator. */
  lemma StayingNumber(reg: seq<Registry>, ops: seq<Op>, i: nat, b: nat, n: nat, o: Observer) returns (r: nat)
    requires Iterating(reg, ops, i, b, n) && reg[0].live == map[] && StaysIn(reg, o, b - 1, n)
    ensures forall k :: b - 1 <= k <= n ==> RegisteredAs(reg[k], o, r)
    ensures AtOf(reg[b], i) >= 0 && AtOf(reg[n], i) >= 0
    ensures reg[b].cursors[i].limit == reg[n].cursors[i].limit
    ensures reg[b].cursors[i].limit.Some? ==> r < reg[b].cursors[i].limit.value
  {
    r := NumberOf(reg[b - 1], o);
    KeepsNumber(reg, ops, o, r, b - 1, n);
    LimitIsNext(reg, ops, i, b, n);
    UniqueHolds(reg, ops, b - 1);
  }

  /** Who comes on the list as number `r`. */
  lemma NewNumber(a: Registry, op: Op, o: Observer)
    requires Allowed(a, op) && o !in a.live.Values && o in Do(a, op).live.Values
    ensures op == Add(o) && RegisteredAs(Do(a, op), o, a.next)
  {
    var r := NumberOf(Do(a, op), o);
  }

  /**
    * Under NOTIFY_ALL an observer that comes on the list while an iteration is under way, and stays until
    * the iteration reaches its end, is visited once too.
    */
  lemma NewcomerIsVisitedOnce(run: seq<State>, ops: seq<Op>, i: nat, b: nat, n: nat, o: Observer, m: nat)
    returns (v: nat)
    requires Iterates(run, ops, i, b, n) && !run[0].existingOnly && run[b - 1].slots != []
    requires b < m <= n && Some(o) !in run[m - 1].slots && Stays(run, o, m, n)
    requires i in run[n].iters && AtEnd(run[n].slots, run[n].iters[i])
    ensures VisitedOnce(run, ops, i, o, m, n, v)
  {
    var reg := HistoryOf(run, ops, i, b, n);
    var r := reg[m - 1].next;
    assert StaysIn(reg, o, m, n) by { StaysInHistory(run, reg, o, m, n); }
    assert o !in reg[m - 1].live.Values by { assert Agrees(run[m - 1], reg[m - 1]); }
    NewcomerNumber(reg, ops, i, b, n, o, m);
    NoLimit(reg, ops, i, b, n);
    assert r < AtOf(reg[n], i) by {
      UniqueHolds(reg, ops, n);
      assert Agrees(run[n], reg[n]) && RegisteredAs(reg[n], o, r);
      EndIsPast(run[n], reg[n], i, o, r);
    }
    assert forall k :: m <= k <= n ==> RegisteredAs(reg[k], o, r);
    v := PassesAt(reg, ops, i, b, n, r, m);
    VisitsAreAt(run, ops, reg, i, o, b, n, r, m);
    OnlyVisit(run, ops, reg, i, o, b, n, r, m, v);
  }

  /** It gets the next number, which no iterator is past. */
  lemma NewcomerNumber(reg: seq<Registry>, ops: seq<Op>, i: nat, b: nat, n: nat, o: Observer, m: nat)
    requires Iterating(reg, ops, i, b, n) && reg[0].live == map[] && b < m <= n
    requires o !in reg[m - 1].live.Values && StaysIn(reg, o, m, n)
    ensures AtOf(reg[m], i) <= reg[m - 1].next
    ensures forall k :: m <= k <= n ==> RegisteredAs(reg[k], o, reg[m - 1].next)
  {
    HistoryStep(reg, ops, m - 1);
    NewNumber(reg[m - 1], ops[m - 1], o);
    KeepsNumber(reg, ops, o, reg[m - 1].next, m, n);
    assert Iterating(reg, ops, i, b, m - 1);
    AtMostNext(reg, ops, i, b, m - 1);
  }

  lemma NoLimit(reg: seq<Registry>, ops: seq<Op>, i: nat, b: nat, n: nat)
    requires Iterating(reg, ops, i, b, n) && !reg[0].existingOnly
    ensures AtOf(reg[b], i) >= 0 && AtOf(reg[n], i) >= 0
    ensures reg[b].cursors[i].limit == reg[n].cursors[i].limit == None
  {
    LimitIsNext(reg, ops, i, b, n);
    SameMode(reg, ops, b - 1);
  }

  lemma {:induction false} SameMode(reg: seq<Registry>, ops: seq<Op>, k: nat)
    requires IsHistory(reg, ops) && k < |reg|
    ensures reg[k].existingOnly == reg[0].existingOnly
  {
    if k > 0 {
      SameMode(reg, ops, k - 1);
      HistoryStep(reg, ops, k - 1);
    }
  }

  lemma VisitedIsOld(s: State, reg: seq<Registry>, ops: seq<Op>, i: nat, b: nat, n: nat, o: Observer) returns (r: nat)
    requires Iterating(reg, ops, i, b, n) && reg[0].existingOnly && Agrees(s, reg[n]) && Visits(s, i, o)
    ensures forall k :: b - 1 <= k <= n ==> RegisteredAs(reg[k], o, r)
  {
    LimitIsNext(reg, ops, i, b, n);
    SameMode(reg, ops, b - 1);
    r := reg[n].cursors[i].at;
    OldNumber(reg, ops, o, r, b - 1, n);
  }

  /** Under NOTIFY_EXISTING_ONLY whoever is visited has been on the list since before the iteration began. */
  lemma OnlyExistingVisited(run: seq<State>, ops: seq<Op>, i: nat, b: nat, n: nat, o: Observer)
    requires Iterates(run, ops, i, b, n) && run[0].existingOnly && Visits(run[n], i, o)
    ensures Stays(run, o, b - 1, n)
  {
    VisitorAttached(run, ops, i, b, n);
    var reg := HistoryOf(run, ops, i, b, n);
    var r := VisitedIsOld(run[n], reg, ops, i, b, n, o);
    RegisteredStays(run, reg, o, r, b - 1, n);
  }
}
