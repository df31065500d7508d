/**
  * observer_list.h: a list of observers that may be changed while it is being iterated, at any
  * depth of nesting. An entry removed during an iteration becomes null and is dropped when the
  * last iteration ends.
  *
  * The reference the code is compared with is a registry. Every successful add gets the next
  * registration number; the registry maps live registrations to observers; an iterator is a
  * registration number that moves to the least live registration above it.
  */
module ObserverList {
  import opened Wrappers

  type Observer = nat                    // the address of an observer
  type Slots = seq<Option<Observer>>     // `observers_`; None is a null entry

  // ---------------------------------------------------------------- what the code does to the vector

  function Added(s: Slots, obs: Observer): Slots { if Some(obs) in s then s else s + [Some(obs)] }

  /** `std::find`: the first index holding `obs`, or the length. */
  function Find(s: Slots, obs: Observer): (i: nat)
    ensures i <= |s| && (i < |s| ==> s[i] == Some(obs))
    ensures forall j :: 0 <= j < i ==> s[j] != Some(obs)
  {
    if s == [] || s[0] == Some(obs) then 0 else Find(s[1..], obs) + 1
  }

  function Erased<T>(s: seq<T>, i: nat): (r: seq<T>)
    requires i < |s|
    ensures |r| == |s| - 1
  { s[..i] + s[i + 1..] }

  function Removed(s: Slots, depth: nat, obs: Observer): Slots {
    var i := Find(s, obs);
    if i == |s| then s else if depth != 0 then s[i := None] else Erased(s, i)
  }

  function Nulls(n: nat): Slots { seq(n, _ => None) }

  function Cleared(s: Slots, depth: nat): Slots { if depth != 0 then Nulls(|s|) else [] }

  /** Erase-remove of the null entries. */
  function Compacted(s: Slots): (r: Slots)
    ensures forall x :: x in r ==> x.Some?
  {
    if s == [] then []
    else if s[|s| - 1].None? then Compacted(s[..|s| - 1])
    else Compacted(s[..|s| - 1]) + [s[|s| - 1]]
  }

  /** Where `EnsureValidIndex` stops. */
  function Scan(s: Slots, i: nat, max: nat): (k: nat)
    requires max <= |s|
    ensures if i <= max then i <= k <= max && (k < max ==> s[k].Some?) else k == i
    ensures forall j :: i <= j < k ==> s[j].None?
    decreases max - i
  {
    if i >= max || s[i].Some? then i else Scan(s, i + 1, max)
  }

  // ---------------------------------------------------------------- the classes

  class ObserverListBase {
    var observers: Slots
    var notifyDepth: nat
    const existingOnly: bool   // NOTIFY_EXISTING_ONLY rather than NOTIFY_ALL

    constructor (existingOnly: bool)
      ensures observers == [] && notifyDepth == 0 && this.existingOnly == existingOnly
    {
      observers, notifyDepth, this.existingOnly := [], 0, existingOnly;
    }

    method AddObserver(obs: Observer)
      modifies this`observers
      ensures observers == Added(old(observers), obs)
    {
      if Some(obs) in observers { return; }
      observers := observers + [Some(obs)];
    }

    method RemoveObserver(obs: Observer)
      modifies this`observers
      ensures observers == Removed(old(observers), notifyDepth, obs)
    {
      var i := 0;
      while i < |observers| && observers[i] != Some(obs)
        invariant i <= |observers| && forall j :: 0 <= j < i ==> observers[j] != Some(obs)
      {
        i := i + 1;
      }
      assert Find(observers, obs) == i;
      if i < |observers| {
        if notifyDepth != 0 {
          observers := observers[i := None];
        } else {
          observers := Erased(observers, i);
        }
      }
    }

    method HasObserver(obs: Observer) returns (found: bool)
      ensures found <==> Some(obs) in observers
    {
      var i := 0;
      while i < |observers|
        invariant i <= |observers| && forall j :: 0 <= j < i ==> observers[j] != Some(obs)
      {
        if observers[i] == Some(obs) { return true; }
        i := i + 1;
      }
      return false;
    }

    method Clear()
      modifies this`observers
      ensures observers == Cleared(old(observers), notifyDepth)
    {
      if notifyDepth != 0 {
        var i := 0;
        while i < |observers|
          invariant i <= |observers| == |old(observers)|
          invariant forall j :: 0 <= j < i ==> observers[j] == None
        {
          observers := observers[i := None];
          i := i + 1;
        }
        assert observers == Nulls(|old(observers)|);
      } else {
        observers := [];
      }
    }

    /** `std::remove` slides the entries that stay towards the front; then the tail is cut off. */
    method Compact()
      modifies this`observers
      ensures observers == Compacted(old(observers))
    {
      ghost var s := observers;
      var i, kept := 0, 0;
      while i < |observers|
        invariant kept <= i <= |s| == |observers|
        invariant observers[..kept] == Compacted(s[..i]) && observers[i..] == s[i..]
      {
        assert s[..i + 1][..i] == s[..i];
        assert observers[i..][0] == s[i..][0];
        if observers[i].Some? {
          ghost var before := observers;
          observers := observers[kept := observers[i]];
          assert observers[..kept] == before[..kept];
          assert observers[..kept + 1] == before[..kept] + [s[i]];
          assert observers[i + 1..] == before[i..][1..];
          kept := kept + 1;
        } else {
          assert observers[i + 1..] == observers[i..][1..];
        }
        i := i + 1;
      }
      assert s[..i] == s;
      observers := observers[..kept];
    }
  }

  class Iter {
    var list: ObserverListBase?
    var index: nat
    var maxIndex: Option<nat>   // None: the largest size_t, which no vector reaches

    /** A default-constructed iterator: `end()`, and `begin()` of an empty list. */
    constructor End()
      ensures list == null
    {
      list, index, maxIndex := null, 0, None;
    }

    constructor Over(list: ObserverListBase)
      modifies list`notifyDepth
      ensures this.list == list && list.notifyDepth == old(list.notifyDepth) + 1
      ensures Position() == Started(list.observers, list.existingOnly)
    {
      this.list, index := list, 0;
      maxIndex := if list.existingOnly then Some(|list.observers|) else None;
      new;
      EnsureValidIndex();
      list.notifyDepth := list.notifyDepth + 1;
    }

    ghost function Position(): Iterator
      reads this
    { if list == null then Detached else At(index, maxIndex) }

    function ClampedMaxIndex(): (m: nat)
      requires list != null
      reads this, list
      ensures m <= |list.observers|
    { Clamped(list.observers, maxIndex) }

    predicate IsEnd()
      reads this, list
    { list == null || index == ClampedMaxIndex() }

    method EnsureValidIndex()
      modifies this`index
      ensures list != null ==> index == Scan(list.observers, old(index), ClampedMaxIndex())
    {
      if list == null { return; }
      var maxIndex := ClampedMaxIndex();
      while index < maxIndex && list.observers[index].None?
        invariant old(index) <= maxIndex ==> index <= maxIndex
        invariant Scan(list.observers, index, maxIndex) == Scan(list.observers, old(index), maxIndex)
      {
        index := index + 1;
      }
    }

    /** `operator++`. Loops do not go on from an end; this does, one index further each time. */
    method Increment()
      modifies this`index
      ensures list != null ==> Position() == Moved(list.observers, old(Position()))
      ensures list == null ==> Position() == Detached
    {
      if list != null {
        index := index + 1;
        EnsureValidIndex();
      }
    }

    method GetCurrent() returns (obs: Option<Observer>)
      ensures obs == if list == null then None else Current(list.observers, Position())
    {
      if list == null { return None; }
      obs := if index < ClampedMaxIndex() then list.observers[index] else None;
    }

    /** `operator==`: two ends are equal whatever they came from. */
    method Equals(other: Iter) returns (same: bool)
      ensures same <==> (IsEnd() && other.IsEnd()) || (list == other.list && index == other.index)
      ensures IsEnd() != other.IsEnd() && (list == other.list ==> maxIndex == other.maxIndex) ==> !same
    {
      if IsEnd() && other.IsEnd() { return true; }
      return list == other.list && index == other.index;
    }

    /** The destructor: the end of the last iteration drops the null entries. */
    method Destroy()
      requires list != null ==> list.notifyDepth > 0
      modifies list
      ensures list != null ==> list.notifyDepth == old(list.notifyDepth) - 1
      ensures list != null ==> list.observers == AfterEnd(old(list.observers), list.notifyDepth)
    {
      if list != null {
        list.notifyDepth := list.notifyDepth - 1;
        if list.notifyDepth == 0 { list.Compact(); }
      }
    }
  }

  method BeginIteration(list: ObserverListBase) returns (it: Iter)
    modifies list`notifyDepth
    ensures fresh(it) && it.Position() == Begun(list.observers, list.existingOnly)
    ensures list.notifyDepth == old(list.notifyDepth) + if it.Position().At? then 1 else 0
    ensures it.list == null || it.list == list
  {
    if list.observers == [] {
      it := new Iter.End();
    } else {
      it := new Iter.Over(list);
    }
  }

  // ---------------------------------------------------------------- one list and its iterators

  datatype Iterator = Detached | At(index: nat, max: Option<nat>)

  function Clamped(s: Slots, max: Option<nat>): nat {
    if max.Some? && max.value < |s| then max.value else |s|
  }

  function Started(s: Slots, existingOnly: bool): Iterator {
    At(Scan(s, 0, |s|), if existingOnly then Some(|s|) else None)
  }

  function Begun(s: Slots, existingOnly: bool): Iterator { if s == [] then Detached else Started(s, existingOnly) }

  function Moved(s: Slots, it: Iterator): Iterator {
    if it.Detached? then it else At(Scan(s, it.index + 1, Clamped(s, it.max)), it.max)
  }

  predicate AtEnd(s: Slots, it: Iterator) { it.Detached? || it.index == Clamped(s, it.max) }

  function Current(s: Slots, it: Iterator): Option<Observer> {
    if it.At? && it.index < Clamped(s, it.max) then s[it.index] else None
  }

  function AfterEnd(s: Slots, depth: nat): Slots { if depth == 0 then Compacted(s) else s }

  datatype State = State(slots: Slots, depth: nat, existingOnly: bool, iters: map<nat, Iterator>)

  /** What callbacks and loops do, in whatever order nesting produces. */
  datatype Op = Add(obs: Observer) | Remove(obs: Observer) | Clear
              | Begin(iter: nat) | Advance(iter: nat) | End(iter: nat)

  /** Iterators are named once, and only advanced before their end. */
  predicate Enabled(s: State, op: Op) {
    match op
    case Begin(i) => i !in s.iters
    case Advance(i) => i in s.iters && (s.iters[i].At? ==> s.iters[i].index < Clamped(s.slots, s.iters[i].max))
    case End(i) => i in s.iters && (s.iters[i].At? ==> s.depth > 0)
    case _ => true
  }

  function Step(s: State, op: Op): State
    requires Enabled(s, op)
  {
    match op
    case Add(o) => s.(slots := Added(s.slots, o))
    case Remove(o) => s.(slots := Removed(s.slots, s.depth, o))
    case Clear => s.(slots := Cleared(s.slots, s.depth))
    case Begin(i) =>
      var it := Begun(s.slots, s.existingOnly);
      s.(iters := s.iters[i := it], depth := if it.At? then s.depth + 1 else s.depth)
    case Advance(i) => s.(iters := s.iters[i := Moved(s.slots, s.iters[i])])
    case End(i) =>
      if s.iters[i].Detached? then s.(iters := s.iters - {i})
      else State(AfterEnd(s.slots, s.depth - 1), s.depth - 1, s.existingOnly, s.iters - {i})
  }

  function Initial(existingOnly: bool): State { State([], 0, existingOnly, map[]) }

  // ---------------------------------------------------------------- the registry

  /** `at` is a registration number; registrations from `limit` on are not visited. */
  datatype Cursor = Nowhere | Cursor(at: nat, limit: Option<nat>)

  datatype Registry = Registry(live: map<nat, Observer>, next: nat, existingOnly: bool, cursors: map<nat, Cursor>)

  function Stop(next: nat, limit: Option<nat>): nat { if limit.Some? && limit.value < next then limit.value else next }

  /** The least live registration from `from` on, or `stop` if none comes before it. */
  function Next(live: map<nat, Observer>, from: nat, stop: nat): (r: nat)
    requires from <= stop
    ensures from <= r <= stop && (r < stop ==> r in live)
    ensures forall q :: from <= q < r ==> q !in live
    decreases stop - from
  {
    if from == stop || from in live then from else Next(live, from + 1, stop)
  }

  function WithNew(a: Registry, obs: Observer): Registry {
    if obs in a.live.Values then a else a.(live := a.live[a.next := obs], next := a.next + 1)
  }

  function Without(live: map<nat, Observer>, obs: Observer): map<nat, Observer> {
    map r | r in live && live[r] != obs :: live[r]
  }

  predicate Idle(a: Registry) { a.live == map[] && forall i :: i in a.cursors ==> a.cursors[i].Nowhere? }

  function NewCursor(a: Registry): Cursor {
    if Idle(a) then Nowhere else Cursor(Next(a.live, 0, a.next), if a.existingOnly then Some(a.next) else None)
  }

  function MovedCursor(a: Registry, c: Cursor): Cursor
    requires c.Cursor? ==> c.at < Stop(a.next, c.limit)
  { if c.Nowhere? then c else c.(at := Next(a.live, c.at + 1, Stop(a.next, c.limit))) }

  predicate Allowed(a: Registry, op: Op) {
    match op
    case Begin(i) => i !in a.cursors
    case Advance(i) => i in a.cursors && (a.cursors[i].Cursor? ==> a.cursors[i].at < Stop(a.next, a.cursors[i].limit))
    case End(i) => i in a.cursors
    case _ => true
  }

  function Do(a: Registry, op: Op): Registry
    requires Allowed(a, op)
  {
    match op
    case Add(o) => WithNew(a, o)
    case Remove(o) => a.(live := Without(a.live, o))
    case Clear => a.(live := map[])
    case Begin(i) => a.(cursors := a.cursors[i := NewCursor(a)])
    case Advance(i) => a.(cursors := a.cursors[i := MovedCursor(a, a.cursors[i])])
    case End(i) => a.(cursors := a.cursors - {i})
  }

  function Empty(existingOnly: bool): Registry { Registry(map[], 0, existingOnly, map[]) }

  // ---------------------------------------------------------------- the vector as a registry

  ghost predicate Increasing(ids: seq<nat>, next: nat) {
    && (forall i, j :: 0 <= i < j < |ids| ==> ids[i] < ids[j])
    && (forall i :: 0 <= i < |ids| ==> ids[i] < next)
  }

  /** The registrations in `s` when entry i is registration `ids[i]`. */
  ghost function LiveOf(s: Slots, ids: seq<nat>): map<nat, Observer>
    requires |s| == |ids|
  {
    if s == [] then map[]
    else
      var n := |s| - 1;
      var rest := LiveOf(s[..n], ids[..n]);
      if s[n].Some? then rest[ids[n] := s[n].value] else rest
  }

  lemma {:induction false} LiveIsAnEntry(s: Slots, ids: seq<nat>, r: nat) returns (i: nat)
    requires |s| == |ids| && r in LiveOf(s, ids)
    ensures i < |s| && ids[i] == r && s[i] == Some(LiveOf(s, ids)[r])
  {
    var n := |s| - 1;
    if s[n].Some? && ids[n] == r {
      i := n;
    } else {
      i := LiveIsAnEntry(s[..n], ids[..n], r);
    }
  }

  lemma {:induction false} EntryIsLive(s: Slots, ids: seq<nat>, next: nat, i: nat)
    requires |s| == |ids| && Increasing(ids, next) && i < |s|
    ensures s[i].Some? <==> ids[i] in LiveOf(s, ids)
    ensures s[i].Some? ==> LiveOf(s, ids)[ids[i]] == s[i].value
  {
    var n := |s| - 1;
    if i < n {
      EntryIsLive(s[..n], ids[..n], next, i);
    } else if s[n].None? && ids[n] in LiveOf(s, ids) {
      var j := LiveIsAnEntry(s[..n], ids[..n], ids[n]);
      assert false;
    }
  }

  /** The registration an index stands for; the length stands for the next one. */
  ghost function Number(ids: seq<nat>, next: nat, i: nat): nat { if i < |ids| then ids[i] else next }

  ghost predicate IterRelated(s: Slots, ids: seq<nat>, next: nat, it: Iterator, c: Cursor) {
    match it
    case Detached => c.Nowhere?
    case At(index, max) =>
      && c.Cursor? && index <= Clamped(s, max) && c.at == Number(ids, next, index)
      && match max {
        case None => c.limit.None?
        case Some(m) => m <= |s| && c.limit == Some(Number(ids, next, m))
      }
  }

  ghost predicate ItersRelated(s: State, a: Registry, ids: seq<nat>) {
    && s.iters.Keys == a.cursors.Keys
    && forall i :: i in s.iters ==> IterRelated(s.slots, ids, a.next, s.iters[i], a.cursors[i])
  }

  ghost predicate Related(s: State, a: Registry, ids: seq<nat>) {
    && |ids| == |s.slots| && Increasing(ids, a.next)
    && a.live == LiveOf(s.slots, ids) && s.existingOnly == a.existingOnly
    && ItersRelated(s, a, ids)
  }

  ghost function Attached(iters: map<nat, Iterator>): set<nat> { set i | i in iters && iters[i].At? }

  ghost predicate NoDuplicates(s: Slots) {
    forall i, j :: 0 <= i < j < |s| && s[i].Some? ==> s[i] != s[j]
  }

  /** The depth counts the iterators under way; outside iterations there are no null entries. */
  ghost predicate Valid(s: State) {
    && s.depth == |Attached(s.iters)|
    && (s.depth == 0 ==> forall i :: 0 <= i < |s.slots| ==> s.slots[i].Some?)
    && (s.depth > 0 ==> s.slots != [])
    && NoDuplicates(s.slots)
  }

  // ---------------------------------------------------------------- each operation keeps the relation

  lemma Present(s: State, a: Registry, ids: seq<nat>, o: Observer)
    requires Related(s, a, ids)
    ensures Some(o) in s.slots <==> o in a.live.Values
  {
    if Some(o) in s.slots {
      var i :| 0 <= i < |s.slots| && s.slots[i] == Some(o);
      EntryIsLive(s.slots, ids, a.next, i);
      assert a.live[ids[i]] == o;
    }
    if o in a.live.Values {
      var r :| r in a.live && a.live[r] == o;
      var i := LiveIsAnEntry(s.slots, ids, r);
    }
  }

  /** The registration number where an iterator ends is the one where its cursor stops. */
  lemma StopsWhereClamped(s: Slots, ids: seq<nat>, next: nat, it: Iterator, c: Cursor)
    requires |s| == |ids| && Increasing(ids, next) && it.At? && IterRelated(s, ids, next, it, c)
    ensures Stop(next, c.limit) == Number(ids, next, Clamped(s, it.max))
    ensures it.index < Clamped(s, it.max) <==> c.at < Stop(next, c.limit)
  {}

  lemma EnabledIsAllowed(s: State, a: Registry, ids: seq<nat>, op: Op)
    requires Valid(s) && Related(s, a, ids)
    ensures Enabled(s, op) <==> Allowed(a, op)
  {
    if op.Advance? && op.iter in s.iters && s.iters[op.iter].At? {
      StopsWhereClamped(s.slots, ids, a.next, s.iters[op.iter], a.cursors[op.iter]);
    }
    if op.End? && op.iter in s.iters && s.iters[op.iter].At? {
      assert op.iter in Attached(s.iters);
    }
  }

  lemma AppendKeepsIter(s: Slots, ids: seq<nat>, next: nat, it: Iterator, c: Cursor, slot: Option<Observer>)
    requires |s| == |ids| && IterRelated(s, ids, next, it, c)
    ensures IterRelated(s + [slot], ids + [next], next + 1, it, c)
  {}

  lemma AddKeeps(s: State, a: Registry, ids: seq<nat>, o: Observer) returns (ids': seq<nat>)
    requires Valid(s) && Related(s, a, ids)
    ensures Valid(Step(s, Add(o))) && Related(Step(s, Add(o)), Do(a, Add(o)), ids')
  {
    Present(s, a, ids, o);
    if Some(o) in s.slots {
      ids' := ids;
    } else {
      ids' := ids + [a.next];
      var slots := s.slots + [Some(o)];
      assert slots[..|s.slots|] == s.slots && ids'[..|ids|] == ids;
      forall i | i in s.iters ensures IterRelated(slots, ids', a.next + 1, s.iters[i], a.cursors[i]) {
        AppendKeepsIter(s.slots, ids, a.next, s.iters[i], a.cursors[i], Some(o));
      }
    }
  }

  lemma {:induction false} LiveAfterNull(s: Slots, ids: seq<nat>, next: nat, i: nat)
    requires |s| == |ids| && Increasing(ids, next) && i < |s|
    ensures LiveOf(s[i := None], ids) == LiveOf(s, ids) - {ids[i]}
  {
    var n := |s| - 1;
    if i < n {
      assert s[i := None][..n] == s[..n][i := None];
      LiveAfterNull(s[..n], ids[..n], next, i);
    } else {
      assert s[i := None][..n] == s[..n];
      if ids[n] in LiveOf(s[..n], ids[..n]) {
        var j := LiveIsAnEntry(s[..n], ids[..n], ids[n]);
      }
    }
  }

  lemma {:induction false} LiveAfterErase(s: Slots, ids: seq<nat>, next: nat, i: nat)
    requires |s| == |ids| && Increasing(ids, next) && i < |s|
    ensures LiveOf(Erased(s, i), Erased(ids, i)) == LiveOf(s, ids) - {ids[i]}
  {
    var n := |s| - 1;
    if i < n {
      assert Erased(s, i)[..n - 1] == Erased(s[..n], i) && Erased(ids, i)[..n - 1] == Erased(ids[..n], i);
      LiveAfterErase(s[..n], ids[..n], next, i);
    } else {
      assert Erased(s, i) == s[..n] && Erased(ids, i) == ids[..n];
      if ids[n] in LiveOf(s[..n], ids[..n]) {
        var j := LiveIsAnEntry(s[..n], ids[..n], ids[n]);
      }
    }
  }

  /** An observer has at most one registration. */
  lemma LiveWithout(s: Slots, ids: seq<nat>, next: nat, o: Observer)
    requires |s| == |ids| && Increasing(ids, next) && NoDuplicates(s)
    ensures var i := Find(s, o);
            Without(LiveOf(s, ids), o) == if i == |s| then LiveOf(s, ids) else LiveOf(s, ids) - {ids[i]}
  {
    var i, live := Find(s, o), LiveOf(s, ids);
    forall r | r in live ensures live[r] == o <==> i < |s| && r == ids[i] {
      var j := LiveIsAnEntry(s, ids, r);
      if i < |s| && r == ids[i] { EntryIsLive(s, ids, next, i); }
    }
    if i < |s| { EntryIsLive(s, ids, next, i); }
  }

  lemma NoneAttached(s: State)
    requires Valid(s) && s.depth == 0
    ensures forall i :: i in s.iters ==> s.iters[i].Detached?
  {
    assert forall i :: i in Attached(s.iters) <==> i in s.iters && s.iters[i].At?;
  }

  lemma NullKeeps(s: State, a: Registry, ids: seq<nat>, i: nat, live: map<nat, Observer>)
    requires Valid(s) && Related(s, a, ids) && s.depth != 0 && i < |s.slots| && live == a.live - {ids[i]}
    ensures Valid(s.(slots := s.slots[i := None])) && Related(s.(slots := s.slots[i := None]), a.(live := live), ids)
  {
    LiveAfterNull(s.slots, ids, a.next, i);
  }

  lemma EraseKeeps(s: State, a: Registry, ids: seq<nat>, i: nat, live: map<nat, Observer>)
    requires Valid(s) && Related(s, a, ids) && s.depth == 0 && i < |s.slots| && live == a.live - {ids[i]}
    ensures Valid(s.(slots := Erased(s.slots, i)))
    ensures Related(s.(slots := Erased(s.slots, i)), a.(live := live), Erased(ids, i))
  {
    LiveAfterErase(s.slots, ids, a.next, i);
    NoneAttached(s);
  }

  lemma RemoveKeeps(s: State, a: Registry, ids: seq<nat>, o: Observer) returns (ids': seq<nat>)
    requires Valid(s) && Related(s, a, ids)
    ensures Valid(Step(s, Remove(o))) && Related(Step(s, Remove(o)), Do(a, Remove(o)), ids')
  {
    var i, live := Find(s.slots, o), Without(a.live, o);
    LiveWithout(s.slots, ids, a.next, o);
    if i == |s.slots| {
      ids' := ids;
    } else if s.depth != 0 {
      NullKeeps(s, a, ids, i, live);
      ids' := ids;
    } else {
      EraseKeeps(s, a, ids, i, live);
      ids' := Erased(ids, i);
    }
  }

  lemma {:induction false} LiveOfNulls(s: Slots, ids: seq<nat>)
    requires |s| == |ids| && forall i :: 0 <= i < |s| ==> s[i].None?
    ensures LiveOf(s, ids) == map[]
  {
    if s != [] { LiveOfNulls(s[..|s| - 1], ids[..|s| - 1]); }
  }

  lemma ClearKeeps(s: State, a: Registry, ids: seq<nat>) returns (ids': seq<nat>)
    requires Valid(s) && Related(s, a, ids)
    ensures Valid(Step(s, Clear)) && Related(Step(s, Clear), Do(a, Clear), ids')
  {
    if s.depth != 0 {
      ids' := ids;
      LiveOfNulls(Nulls(|s.slots|), ids);
    } else {
      ids' := [];
      NoneAttached(s);
    }
  }

  /** Scanning the vector and looking for the least live registration end at the same entry. */
  lemma ScanFindsNext(s: Slots, ids: seq<nat>, next: nat, i: nat, max: nat, from: nat)
    requires |s| == |ids| && Increasing(ids, next) && i <= max <= |s|
    requires from <= Number(ids, next, i) && (i > 0 ==> ids[i - 1] < from)
    requires Number(ids, next, i) <= Number(ids, next, max)
    ensures Number(ids, next, Scan(s, i, max)) == Next(LiveOf(s, ids), from, Number(ids, next, max))
  {
    var live, stop, k := LiveOf(s, ids), Number(ids, next, max), Scan(s, i, max);
    var r := Next(live, from, stop);
    if k < max {
      EntryIsLive(s, ids, next, k);
      assert !(ids[k] < r);
    }
    if r < Number(ids, next, k) {
      var j := LiveIsAnEntry(s, ids, r);
      assert false;
    }
  }

  lemma IdleIsEmpty(s: State, a: Registry, ids: seq<nat>)
    requires Valid(s) && Related(s, a, ids)
    ensures Idle(a) <==> s.slots == []
  {
    if s.slots == [] {
      NoneAttached(s);
    } else if Idle(a) {
      forall i | i in s.iters ensures s.iters[i].Detached? { assert a.cursors[i].Nowhere?; }
      assert Attached(s.iters) == {};
      EntryIsLive(s.slots, ids, a.next, 0);
    }
  }

  lemma SetIter(s: State, a: Registry, ids: seq<nat>, i: nat, depth: nat, it: Iterator, c: Cursor)
    requires Related(s, a, ids) && IterRelated(s.slots, ids, a.next, it, c)
    ensures Related(s.(iters := s.iters[i := it], depth := depth), a.(cursors := a.cursors[i := c]), ids)
  {}

  lemma BeginKeeps(s: State, a: Registry, ids: seq<nat>, i: nat)
    requires Valid(s) && Related(s, a, ids) && Enabled(s, Begin(i))
    ensures Valid(Step(s, Begin(i))) && Related(Step(s, Begin(i)), Do(a, Begin(i)), ids)
  {
    IdleIsEmpty(s, a, ids);
    var it := Begun(s.slots, s.existingOnly);
    if s.slots == [] {
      assert Attached(s.iters[i := it]) == Attached(s.iters);
    } else {
      ScanFindsNext(s.slots, ids, a.next, 0, |s.slots|, 0);
      assert Attached(s.iters[i := it]) == Attached(s.iters) + {i};
    }
    SetIter(s, a, ids, i, if it.At? then s.depth + 1 else s.depth, it, NewCursor(a));
  }

  lemma MovedRelated(s: Slots, ids: seq<nat>, a: Registry, it: Iterator, c: Cursor)
    requires |s| == |ids| && Increasing(ids, a.next) && a.live == LiveOf(s, ids)
    requires IterRelated(s, ids, a.next, it, c)
    requires it.At? ==> it.index < Clamped(s, it.max)
    ensures c.Cursor? ==> c.at < Stop(a.next, c.limit)
    ensures IterRelated(s, ids, a.next, Moved(s, it), MovedCursor(a, c))
  {
    if it.At? {
      StopsWhereClamped(s, ids, a.next, it, c);
      ScanFindsNext(s, ids, a.next, it.index + 1, Clamped(s, it.max), c.at + 1);
    }
  }

  lemma AdvanceKeeps(s: State, a: Registry, ids: seq<nat>, i: nat)
    requires Valid(s) && Related(s, a, ids) && Enabled(s, Advance(i))
    ensures Allowed(a, Advance(i))
    ensures Valid(Step(s, Advance(i))) && Related(Step(s, Advance(i)), Do(a, Advance(i)), ids)
  {
    EnabledIsAllowed(s, a, ids, Advance(i));
    var it, c := s.iters[i], a.cursors[i];
    assert IterRelated(s.slots, ids, a.next, it, c);
    var it', c' := Moved(s.slots, it), MovedCursor(a, c);
    assert Attached(s.iters[i := it']) == Attached(s.iters);
    MovedRelated(s.slots, ids, a, it, c);
    SetIter(s, a, ids, i, s.depth, it', c');
  }

  ghost function KeptIds(s: Slots, ids: seq<nat>): seq<nat>
    requires |s| == |ids|
  {
    if s == [] then []
    else
      var n := |s| - 1;
      if s[n].None? then KeptIds(s[..n], ids[..n]) else KeptIds(s[..n], ids[..n]) + [ids[n]]
  }

  lemma {:induction false} CompactKeepsLive(s: Slots, ids: seq<nat>, next: nat)
    requires |s| == |ids| && Increasing(ids, next)
    ensures |KeptIds(s, ids)| == |Compacted(s)| && Increasing(KeptIds(s, ids), next)
    ensures LiveOf(Compacted(s), KeptIds(s, ids)) == LiveOf(s, ids)
  {
    if s != [] {
      var n := |s| - 1;
      CompactKeepsLive(s[..n], ids[..n], ids[n]);
      if s[n].Some? {
        var c, k := Compacted(s), KeptIds(s, ids);
        assert c[..|c| - 1] == Compacted(s[..n]) && k[..|c| - 1] == KeptIds(s[..n], ids[..n]);
      }
    }
  }

  lemma {:induction false} CompactKeepsDistinct(s: Slots)
    requires NoDuplicates(s)
    ensures NoDuplicates(Compacted(s)) && forall x :: x in Compacted(s) ==> x in s
  {
    if s != [] {
      var n := |s| - 1;
      CompactKeepsDistinct(s[..n]);
      var c := Compacted(s[..n]);
      forall i | 0 <= i < |c| ensures s[n].Some? ==> c[i] != s[n] {
        assert c[i] in s[..n];
      }
    }
  }

  lemma EndKeeps(s: State, a: Registry, ids: seq<nat>, i: nat) returns (ids': seq<nat>)
    requires Valid(s) && Related(s, a, ids) && Enabled(s, End(i))
    ensures Valid(Step(s, End(i))) && Related(Step(s, End(i)), Do(a, End(i)), ids')
  {
    ids' := ids;
    var s' := Step(s, End(i));
    assert Attached(s'.iters) == Attached(s.iters) - {i};
    if s.iters[i].At? {
      assert i in Attached(s.iters);
      if s'.depth == 0 {
        ids' := KeptIds(s.slots, ids);
        CompactKeepsLive(s.slots, ids, a.next);
        CompactKeepsDistinct(s.slots);
        NoneAttached(s');
      }
    }
  }

  lemma StepKeeps(s: State, a: Registry, ids: seq<nat>, op: Op) returns (ids': seq<nat>)
    requires Valid(s) && Related(s, a, ids) && Enabled(s, op)
    ensures Allowed(a, op) && Valid(Step(s, op)) && Related(Step(s, op), Do(a, op), ids')
  {
    EnabledIsAllowed(s, a, ids, op);
    match op
    case Add(o) => ids' := AddKeeps(s, a, ids, o);
    case Remove(o) => ids' := RemoveKeeps(s, a, ids, o);
    case Clear => ids' := ClearKeeps(s, a, ids);
    case Begin(i) => BeginKeeps(s, a, ids, i); ids' := ids;
    case Advance(i) => AdvanceKeeps(s, a, ids, i); ids' := ids;
    case End(i) => ids' := EndKeeps(s, a, ids, i);
  }

  // ---------------------------------------------------------------- whole runs

  ghost predicate IsRun(run: seq<State>, ops: seq<Op>) {
    && |run| == |ops| + 1
    && forall k {:trigger ops[k]} :: 0 <= k < |ops| ==> Enabled(run[k], ops[k]) && run[k + 1] == Step(run[k], ops[k])
  }

  ghost predicate IsHistory(reg: seq<Registry>, ops: seq<Op>) {
    && |reg| == |ops| + 1
    && forall k {:trigger ops[k]} :: 0 <= k < |ops| ==> Allowed(reg[k], ops[k]) && reg[k + 1] == Do(reg[k], ops[k])
  }

  function CursorCurrent(a: Registry, c: Cursor): Option<Observer> {
    if c.Cursor? && c.at < Stop(a.next, c.limit) && c.at in a.live then Some(a.live[c.at]) else None
  }

  predicate CursorAtEnd(a: Registry, c: Cursor) { c.Nowhere? || c.at == Stop(a.next, c.limit) }

  /** What a caller can see of the list is what the registry says. */
  ghost predicate Agrees(s: State, a: Registry) {
    && (forall o :: Some(o) in s.slots <==> o in a.live.Values)
    && s.iters.Keys == a.cursors.Keys
    && (forall i :: i in s.iters ==>
      && (s.iters[i].Detached? <==> a.cursors[i].Nowhere?)
      && Current(s.slots, s.iters[i]) == CursorCurrent(a, a.cursors[i])
      && (AtEnd(s.slots, s.iters[i]) <==> CursorAtEnd(a, a.cursors[i])))
  }

  lemma RelatedAgrees(s: State, a: Registry, ids: seq<nat>)
    requires Related(s, a, ids)
    ensures Agrees(s, a)
  {
    forall o: Observer ensures Some(o) in s.slots <==> o in a.live.Values { Present(s, a, ids, o); }
    forall i | i in s.iters
      ensures s.iters[i].Detached? <==> a.cursors[i].Nowhere?
      ensures Current(s.slots, s.iters[i]) == CursorCurrent(a, a.cursors[i])
      ensures AtEnd(s.slots, s.iters[i]) <==> CursorAtEnd(a, a.cursors[i])
    {
      var it, c := s.iters[i], a.cursors[i];
      assert IterRelated(s.slots, ids, a.next, it, c);
      if it.At? {
        StopsWhereClamped(s.slots, ids, a.next, it, c);
        if it.index < Clamped(s.slots, it.max) { EntryIsLive(s.slots, ids, a.next, it.index); }
      }
    }
  }

  lemma RunPrefix(run: seq<State>, ops: seq<Op>)
    requires IsRun(run, ops) && ops != []
    ensures IsRun(run[..|ops|], ops[..|ops| - 1])
    ensures ops == ops[..|ops| - 1] + [ops[|ops| - 1]] && run == run[..|ops|] + [run[|ops|]]
    ensures Enabled(run[|ops| - 1], ops[|ops| - 1]) && run[|ops|] == Step(run[|ops| - 1], ops[|ops| - 1])
  {
    var run0, ops0 := run[..|ops|], ops[..|ops| - 1];
    forall k | 0 <= k < |ops0| ensures Enabled(run0[k], ops0[k]) && run0[k + 1] == Step(run0[k], ops0[k]) {
      assert ops0[k] == ops[k];
    }
  }

  lemma LongerHistory(reg: seq<Registry>, ops: seq<Op>, op: Op)
    requires IsHistory(reg, ops) && Allowed(reg[|ops|], op)
    ensures IsHistory(reg + [Do(reg[|ops|], op)], ops + [op])
  {
    var reg', ops' := reg + [Do(reg[|ops|], op)], ops + [op];
    forall k | 0 <= k < |ops'| ensures Allowed(reg'[k], ops'[k]) && reg'[k + 1] == Do(reg'[k], ops'[k]) {
      if k < |ops| { assert ops'[k] == ops[k]; }
    }
  }

  ghost predicate AllAgree(run: seq<State>, reg: seq<Registry>) {
    |run| == |reg| && forall k :: 0 <= k < |run| ==> Agrees(run[k], reg[k]) && Valid(run[k])
  }

  lemma LongerAgree(run: seq<State>, reg: seq<Registry>, s: State, a: Registry, ids: seq<nat>)
    requires AllAgree(run, reg) && Valid(s) && Related(s, a, ids)
    ensures AllAgree(run + [s], reg + [a])
  {
    RelatedAgrees(s, a, ids);
  }

  /** Every run of the list, however nested, is seen by its callers as a history of the registry. */
  lemma {:induction false} RunsAreHistories(run: seq<State>, ops: seq<Op>) returns (reg: seq<Registry>, ids: seq<nat>)
    requires IsRun(run, ops) && run[0] == Initial(run[0].existingOnly)
    ensures IsHistory(reg, ops) && reg[0] == Empty(run[0].existingOnly) && AllAgree(run, reg)
    ensures Related(run[|ops|], reg[|ops|], ids)
    decreases |ops|
  {
    if ops == [] {
      reg, ids := [Empty(run[0].existingOnly)], [];
      assert Attached(run[0].iters) == {};
      RelatedAgrees(run[0], reg[0], []);
    } else {
      var n := |ops| - 1;
      RunPrefix(run, ops);
      var reg0, ids0 := RunsAreHistories(run[..n + 1], ops[..n]);
      ids := StepKeeps(run[n], reg0[n], ids0, ops[n]);
      var a := Do(reg0[n], ops[n]);
      LongerAgree(run[..n + 1], reg0, run[n + 1], a, ids);
      LongerHistory(reg0, ops[..n], ops[n]);
      reg := reg0 + [a];
    }
  }

  // ---------------------------------------------------------------- the entries are a plain list

  /** The non-null entries in order. */
  function Plain(s: Slots): seq<Observer> {
    if s == [] then []
    else if s[|s| - 1].None? then Plain(s[..|s| - 1])
    else Plain(s[..|s| - 1]) + [s[|s| - 1].value]
  }

  function Dropped(l: seq<Observer>, o: Observer): seq<Observer> {
    if l == [] then []
    else if l[|l| - 1] == o then Dropped(l[..|l| - 1], o)
    else Dropped(l[..|l| - 1], o) + [l[|l| - 1]]
  }

  /** The same operation on a list that nobody iterates. */
  function PlainDo(l: seq<Observer>, op: Op): seq<Observer> {
    match op
    case Add(o) => if o in l then l else l + [o]
    case Remove(o) => Dropped(l, o)
    case Clear => []
    case _ => l
  }

  function PlainAfter(ops: seq<Op>): seq<Observer> {
    if ops == [] then [] else PlainDo(PlainAfter(ops[..|ops| - 1]), ops[|ops| - 1])
  }

  lemma {:induction false} PlainMember(s: Slots, o: Observer)
    ensures o in Plain(s) <==> Some(o) in s
  {
    if s != [] {
      PlainMember(s[..|s| - 1], o);
      assert s == s[..|s| - 1] + [s[|s| - 1]];
    }
  }

  lemma {:induction false} DropAbsent(l: seq<Observer>, o: Observer)
    requires o !in l
    ensures Dropped(l, o) == l
  {
    if l != [] { DropAbsent(l[..|l| - 1], o); }
  }

  lemma {:induction false} PlainWithout(s: Slots, o: Observer, i: nat)
    requires i < |s| && s[i] == Some(o) && forall j :: 0 <= j < |s| && j != i ==> s[j] != Some(o)
    ensures Plain(s[i := None]) == Dropped(Plain(s), o) == Plain(Erased(s, i))
  {
    var n := |s| - 1;
    if i < n {
      PlainWithout(s[..n], o, i);
      assert s[i := None][..n] == s[..n][i := None] && Erased(s, i)[..n - 1] == Erased(s[..n], i);
      var l := Plain(s);
      assert s[n].Some? ==> l[..|l| - 1] == Plain(s[..n]);
    } else {
      PlainMember(s[..n], o);
      assert s[i := None][..n] == s[..n] == Erased(s, i);
      DropAbsent(Plain(s[..n]), o);
      assert Plain(s)[..|Plain(s)| - 1] == Plain(s[..n]);
    }
  }

  lemma {:induction false} PlainOfNulls(s: Slots)
    requires forall i :: 0 <= i < |s| ==> s[i].None?
    ensures Plain(s) == []
  {
    if s != [] { PlainOfNulls(s[..|s| - 1]); }
  }

  lemma {:induction false} PlainOfCompacted(s: Slots)
    ensures Plain(Compacted(s)) == Plain(s)
  {
    if s != [] {
      PlainOfCompacted(s[..|s| - 1]);
      var c := Compacted(s);
      assert s[|s| - 1].Some? ==> c[..|c| - 1] == Compacted(s[..|s| - 1]);
    }
  }

  lemma PlainStep(s: State, op: Op)
    requires Valid(s) && Enabled(s, op)
    ensures Plain(Step(s, op).slots) == PlainDo(Plain(s.slots), op)
  {
    if op.Add? {
      PlainMember(s.slots, op.obs);
      assert (s.slots + [Some(op.obs)])[..|s.slots|] == s.slots;
    } else if op.Remove? {
      PlainMember(s.slots, op.obs);
      var i := Find(s.slots, op.obs);
      if i == |s.slots| { DropAbsent(Plain(s.slots), op.obs); } else { PlainWithout(s.slots, op.obs, i); }
    } else if op.Clear? {
      PlainOfNulls(Nulls(|s.slots|));
    } else if op.End? {
      PlainOfCompacted(s.slots);
    }
  }

  /** After any run the entries are the list that the same adds, removes and clears would build. */
  lemma {:induction false} EntriesArePlainList(run: seq<State>, ops: seq<Op>)
    requires IsRun(run, ops) && run[0] == Initial(run[0].existingOnly)
    ensures Plain(run[|ops|].slots) == PlainAfter(ops)
    ensures run[|ops|].depth == 0 ==> run[|ops|].slots == Compacted(run[|ops|].slots)
    decreases |ops|
  {
    var reg, ids := RunsAreHistories(run, ops);
    assert Valid(run[|ops|]);
    if run[|ops|].depth == 0 { NothingToCompact(run[|ops|].slots); }
    if ops != [] {
      RunPrefix(run, ops);
      EntriesArePlainList(run[..|ops|], ops[..|ops| - 1]);
      assert Valid(run[|ops| - 1]);
      PlainStep(run[|ops| - 1], ops[|ops| - 1]);
    }
  }

  lemma {:induction false} NothingToCompact(s: Slots)
    requires forall i :: 0 <= i < |s| ==> s[i].Some?
    ensures Compacted(s) == s
  {
    if s != [] { NothingToCompact(s[..|s| - 1]); }
  }

  // ---------------------------------------------------------------- what an iteration visits

  /** Where iterator `i` stands; -1 when it is not under way. */
  function AtOf(a: Registry, i: nat): int {
    if i in a.cursors && a.cursors[i].Cursor? then a.cursors[i].at else -1
  }

  /** Iterator `i` starts at state `b` and is still there at state `n`. */
  ghost predicate Iterating(reg: seq<Registry>, ops: seq<Op>, i: nat, b: nat, n: nat) {
    && IsHistory(reg, ops) && 0 < b <= n < |reg| && ops[b - 1] == Begin(i) && AtOf(reg[b], i) >= 0
    && forall k {:trigger ops[k]} :: b <= k < n ==> ops[k] != End(i)
  }

  /** An iterator that is not ended keeps its limit, and moves only forward, only when advanced. */
  lemma CursorStep(reg: seq<Registry>, ops: seq<Op>, i: nat, k: nat)
    requires IsHistory(reg, ops) && k < |ops| && AtOf(reg[k], i) >= 0 && ops[k] != End(i)
    ensures AtOf(reg[k + 1], i) >= AtOf(reg[k], i) && reg[k + 1].cursors[i].limit == reg[k].cursors[i].limit
    ensures AtOf(reg[k + 1], i) > AtOf(reg[k], i) <==> ops[k] == Advance(i)
  {
    assert Allowed(reg[k], ops[k]) && reg[k + 1] == Do(reg[k], ops[k]);
  }

  /** So no registration is visited twice. */
  lemma {:induction false} NeverBack(reg: seq<Registry>, ops: seq<Op>, i: nat, b: nat, k: nat, n: nat)
    requires Iterating(reg, ops, i, b, n) && b <= k <= n
    ensures 0 <= AtOf(reg[k], i) <= AtOf(reg[n], i) && reg[n].cursors[i].limit == reg[b].cursors[i].limit
    ensures (exists j {:trigger ops[j]} :: k <= j < n && ops[j] == Advance(i)) ==> AtOf(reg[k], i) < AtOf(reg[n], i)
    decreases n - b, n - k
  {
    if k < n {
      assert Iterating(reg, ops, i, b, n - 1);
      NeverBack(reg, ops, i, b, k, n - 1);
      assert ops[n - 1] != End(i);
      CursorStep(reg, ops, i, n - 1);
    } else if b < n {
      assert Iterating(reg, ops, i, b, n - 1);
      NeverBack(reg, ops, i, b, n - 1, n - 1);
      assert ops[n - 1] != End(i);
      CursorStep(reg, ops, i, n - 1);
    }
  }

  /** Step k takes iterator `i` past registration `r` without stopping there. */
  ghost predicate Skips(reg: seq<Registry>, i: nat, k: nat, r: nat)
    requires k + 1 < |reg|
  { AtOf(reg[k], i) < r < AtOf(reg[k + 1], i) }

  /** A registration is only skipped when it is not live, and only stopped at when it is. */
  lemma StopsAtLive(reg: seq<Registry>, ops: seq<Op>, i: nat, k: nat)
    requires IsHistory(reg, ops) && k < |ops| && AtOf(reg[k], i) < AtOf(reg[k + 1], i)
    ensures forall r :: Skips(reg, i, k, r) ==> r !in reg[k].live
    ensures var c := reg[k + 1].cursors[i];
            c.at < Stop(reg[k].next, c.limit) ==> c.at in reg[k].live
  {
    assert Allowed(reg[k], ops[k]) && reg[k + 1] == Do(reg[k], ops[k]);
    assert ops[k] == Begin(i) || ops[k] == Advance(i);
  }

  /**
    * Every registration behind an iterator was visited, unless it was not live at the moment the
    * iterator went past it.
    */
  lemma {:induction false} PassedWasVisited(reg: seq<Registry>, ops: seq<Op>, i: nat, b: nat, n: nat, r: nat)
    requires Iterating(reg, ops, i, b, n) && r < AtOf(reg[n], i)
    ensures
      || (exists k :: b <= k <= n && AtOf(reg[k], i) == r)
      || (exists k :: b - 1 <= k < n && Skips(reg, i, k, r) && r !in reg[k].live)
    decreases n
  {
    assert ops[b - 1] == Begin(i) && Allowed(reg[b - 1], ops[b - 1]);
    if n == b {
      StopsAtLive(reg, ops, i, b - 1);
      assert Skips(reg, i, b - 1, r);
    } else {
      assert Iterating(reg, ops, i, b, n - 1);
      NeverBack(reg, ops, i, b, n - 1, n - 1);
      if AtOf(reg[n - 1], i) > r {
        PassedWasVisited(reg, ops, i, b, n - 1, r);
      } else if AtOf(reg[n - 1], i) < r {
        StopsAtLive(reg, ops, i, n - 1);
        assert Skips(reg, i, n - 1, r);
      }
    }
  }

  /** NOTIFY_EXISTING_ONLY visits nothing registered after the iteration began; NOTIFY_ALL has no limit. */
  lemma VisitsExistingOnly(reg: seq<Registry>, ops: seq<Op>, i: nat, b: nat, n: nat)
    requires Iterating(reg, ops, i, b, n)
    ensures AtOf(reg[n], i) >= 0
    ensures reg[n].cursors[i].limit == if reg[b - 1].existingOnly then Some(reg[b - 1].next) else None
    ensures CursorCurrent(reg[n], reg[n].cursors[i]).Some? && reg[b - 1].existingOnly ==>
              AtOf(reg[n], i) < reg[b - 1].next
  {
    NeverBack(reg, ops, i, b, n, n);
    assert ops[b - 1] == Begin(i) && reg[b] == Do(reg[b - 1], ops[b - 1]);
  }
}
