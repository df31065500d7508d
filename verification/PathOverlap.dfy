/**
  * path_service.cc with calls that overlap. `Get` takes its lock twice: first for the cache, the
  * overrides and the head of the provider list, and again to store what the providers answered. In
  * between it walks the providers, which see the overrides in force at that moment. Any number of
  * threads do so, interleaved with the other calls.
  */
module PathOverlap {
  import opened PathService
  import opened Wrappers

  // ---------------------------------------------------------------- steps

  /** A `Get` past its first lock; `seen` are the overrides at its walk, `path` what it is about to store. */
  datatype Pending = Looked(key: int, providers: seq<Provider>)
                   | Found(key: int, providers: seq<Provider>, seen: Paths, path: string)

  datatype System = System(s: State, gets: map<nat, Pending>)

  /** The three parts of `Get` by a thread, and the calls that take their lock once. */
  datatype Event = Look(t: nat, key: int) | Walk(t: nat) | Store(t: nat) | Do(call: Call)

  ghost predicate Enabled(y: System, e: Event) {
    match e
    case Look(t, key) => t !in y.gets && key > DIR_CURRENT
    case Walk(t) => t in y.gets && y.gets[t].Looked?
    case Store(t) => t in y.gets && y.gets[t].Found?
    case Do(call) => !call.Get? && Legal(y.s, call)
  }

  function Answered(files: Files, providers: seq<Provider>, key: int, overrides: Paths): Option<string> {
    Checked(files, Ask(providers, key, overrides))
  }

  ghost function Step(files: Files, y: System, e: Event): System
    requires Enabled(y, e)
  {
    match e
    case Look(t, key) =>
      if !y.s.cacheDisabled && key in y.s.cache then y
      else if key in y.s.overrides then y.(s := Cached(y.s, key, y.s.overrides[key]))
      else y.(gets := y.gets[t := Looked(key, y.s.providers)])
    case Walk(t) =>
      var g := y.gets[t];
      var path := Answered(files, g.providers, g.key, y.s.overrides);
      y.(gets := if path.None? then y.gets - {t} else y.gets[t := Found(g.key, g.providers, y.s.overrides, path.value)])
    case Store(t) => System(Cached(y.s, y.gets[t].key, y.gets[t].path), y.gets - {t})
    case Do(call) => y.(s := After(files, y.s, call))
  }

  /** What a thread that looks `key` up gets at its first lock; None if it has to go on. */
  function FirstAnswer(s: State, key: int): Option<string> {
    if !s.cacheDisabled && key in s.cache then Some(s.cache[key])
    else if key in s.overrides then Some(s.overrides[key])
    else None
  }

  ghost predicate Initial(y: System) {
    y.gets == map[] && y.s.cache == map[] && Ranged(y.s.providers)
  }

  ghost predicate IsRun(files: Files, run: seq<System>, ev: seq<Event>) {
    && |run| == |ev| + 1 && Initial(run[0])
    && forall k {:trigger ev[k]} :: 0 <= k < |ev| ==> Enabled(run[k], ev[k]) && run[k + 1] == Step(files, run[k], ev[k])
  }

  lemma RunStep(files: Files, run: seq<System>, ev: seq<Event>, k: nat)
    requires IsRun(files, run, ev) && k < |ev|
    ensures Enabled(run[k], ev[k]) && run[k + 1] == Step(files, run[k], ev[k])
  {}

  // ---------------------------------------------------------------- providers registered later do not matter

  ghost predicate InSome(key: int, providers: seq<Provider>) {
    exists i :: 0 <= i < |providers| && providers[i].start <= key < providers[i].end
  }

  /** The list as it was when `older` was its beginning. */
  ghost predicate Behind(older: seq<Provider>, providers: seq<Provider>) {
    |older| <= |providers| && providers[|providers| - |older|..] == older
  }

  lemma AnswererInRange(providers: seq<Provider>, key: int, overrides: Paths)
    requires Ask(providers, key, overrides) != "" && forall i :: 0 <= i < |providers| ==> InRange(providers[i])
    ensures InSome(key, providers)
  {
    var i := WhoAnswered(providers, key, overrides);
    assert InRange(providers[i]);
  }

  lemma NewProviderIsSilent(p: Provider, providers: seq<Provider>, key: int, overrides: Paths)
    requires InRange(p) && Apart(p, providers) && InSome(key, providers)
    ensures Ask([p] + providers, key, overrides) == Ask(providers, key, overrides)
  {
    AskRegistered(p, providers, key, overrides);
    assert p.answer(key, overrides).None?;
  }

  /** For a key in the range of an older provider. */
  lemma {:induction false} OlderAnswer(older: seq<Provider>, providers: seq<Provider>, key: int, overrides: Paths)
    requires Ranged(providers) && Behind(older, providers) && InSome(key, older)
    ensures Ask(providers, key, overrides) == Ask(older, key, overrides)
    decreases |providers|
  {
    if |older| == |providers| {
      assert providers[0..] == providers;
    } else {
      var rest := providers[1..];
      RangedRest(providers);
      assert Behind(older, rest);
      OlderAnswer(older, rest, key, overrides);
      InSomeLonger(older, rest, key);
      assert InRange(providers[0]) && Apart(providers[0], providers[0 + 1..]);
      NewProviderIsSilent(providers[0], rest, key, overrides);
      assert [providers[0]] + rest == providers;
    }
  }

  lemma RangedRest(providers: seq<Provider>)
    requires Ranged(providers) && providers != []
    ensures Ranged(providers[1..])
  {
    var rest := providers[1..];
    forall i | 0 <= i < |rest| ensures InRange(rest[i]) && Apart(rest[i], rest[i + 1..]) {
      assert rest[i] == providers[i + 1] && rest[i + 1..] == providers[i + 1 + 1..];
      assert InRange(providers[i + 1]) && Apart(providers[i + 1], providers[i + 1 + 1..]);
    }
  }

  lemma InSomeLonger(older: seq<Provider>, providers: seq<Provider>, key: int)
    requires Behind(older, providers) && InSome(key, older)
    ensures InSome(key, providers)
  {
    var i :| 0 <= i < |older| && older[i].start <= key < older[i].end;
    assert providers[|providers| - |older| + i] == older[i];
  }

  // ---------------------------------------------------------------- what every step keeps

  ghost predicate PendingInv(files: Files, s: State, g: Pending) {
    && g.key > DIR_CURRENT && Behind(g.providers, s.providers)
    && (g.Found? ==> Answered(files, g.providers, g.key, g.seen) == Some(g.path) && InSome(g.key, g.providers))
  }

  /** Cached keys are overridden or in the range of a provider, so that registering one more changes nothing. */
  ghost predicate Inv(files: Files, y: System) {
    && Ranged(y.s.providers) && DIR_CURRENT !in y.s.cache && (y.s.cacheDisabled ==> y.s.cache == map[])
    && (forall key :: key in y.s.cache ==> key in y.s.overrides || InSome(key, y.s.providers))
    && (forall t :: t in y.gets ==> PendingInv(files, y.s, y.gets[t]))
  }

  lemma RangedBehind(older: seq<Provider>, providers: seq<Provider>)
    requires Ranged(providers) && Behind(older, providers)
    ensures forall i :: 0 <= i < |older| ==> InRange(older[i])
  {
    forall i | 0 <= i < |older| ensures InRange(older[i]) {
      assert older[i] == providers[|providers| - |older| + i];
    }
  }

  lemma RangedMore(p: Provider, providers: seq<Provider>)
    requires Ranged(providers) && InRange(p) && Apart(p, providers)
    ensures Ranged([p] + providers)
  {
    var more := [p] + providers;
    assert more[1..] == providers;
    forall i | 0 <= i < |more| ensures InRange(more[i]) && Apart(more[i], more[i + 1..]) {
      if i > 0 {
        assert more[i] == providers[i - 1] && more[i + 1..] == providers[i - 1 + 1..];
        assert InRange(providers[i - 1]) && Apart(providers[i - 1], providers[i - 1 + 1..]);
      }
    }
  }

  lemma BehindMore(older: seq<Provider>, p: Provider, providers: seq<Provider>)
    requires Behind(older, providers)
    ensures Behind(older, [p] + providers)
  {
    var more := [p] + providers;
    assert more[|more| - |older|..] == providers[|providers| - |older|..];
  }

  lemma RegisterKeepsInv(files: Files, y: System, p: Provider)
    requires Inv(files, y) && Legal(y.s, Register(p))
    ensures Inv(files, Step(files, y, Do(Register(p))))
  {
    var providers, y' := y.s.providers, Step(files, y, Do(Register(p)));
    RangedMore(p, providers);
    BehindMore(providers, p, providers);
    forall key | InSome(key, providers) ensures InSome(key, [p] + providers) {
      InSomeLonger(providers, [p] + providers, key);
    }
    forall t | t in y'.gets ensures PendingInv(files, y'.s, y'.gets[t]) {
      assert PendingInv(files, y.s, y.gets[t]);
      BehindMore(y.gets[t].providers, p, providers);
    }
  }

  lemma WalkKeepsInv(files: Files, y: System, t: nat)
    requires Inv(files, y) && Enabled(y, Walk(t))
    ensures Inv(files, Step(files, y, Walk(t)))
  {
    var g := y.gets[t];
    assert PendingInv(files, y.s, g);
    if Answered(files, g.providers, g.key, y.s.overrides).Some? {
      RangedBehind(g.providers, y.s.providers);
      AnswererInRange(g.providers, g.key, y.s.overrides);
    }
  }

  lemma InvStep(files: Files, y: System, e: Event)
    requires Inv(files, y) && Enabled(y, e)
    ensures Inv(files, Step(files, y, e))
  {
    match e
    case Look(t, key) => assert Behind(y.s.providers, y.s.providers);
    case Walk(t) => WalkKeepsInv(files, y, t);
    case Store(t) =>
      var g := y.gets[t];
      assert PendingInv(files, y.s, g);
      InSomeLonger(g.providers, y.s.providers, g.key);
    case Do(call) => if call.Register? { RegisterKeepsInv(files, y, call.provider); }
  }

  lemma {:induction false} InvHolds(files: Files, run: seq<System>, ev: seq<Event>, n: nat)
    requires IsRun(files, run, ev) && n < |run|
    ensures Inv(files, run[n])
  {
    if n > 0 {
      InvHolds(files, run, ev, n - 1);
      RunStep(files, run, ev, n - 1);
      InvStep(files, run[n - 1], ev[n - 1]);
    }
  }

  // ---------------------------------------------------------------- stale entries

  /** The cache holds a path for the key which a lookup would not find now. */
  ghost predicate Stale(files: Files, s: State, key: int) {
    key in s.cache && Lookup(files, s.overrides, s.providers, key) != Some(s.cache[key])
  }

  lemma CoherentHasNoStale(files: Files, y: System)
    requires Inv(files, y)
    ensures Coherent(files, y.s) <==> forall key :: !Stale(files, y.s, key)
  {
    if forall key :: !Stale(files, y.s, key) {
      forall key | key in y.s.cache ensures Lookup(files, y.s.overrides, y.s.providers, key) == Some(y.s.cache[key]) {
        assert !Stale(files, y.s, key);
      }
    }
  }

  /**
    * Between its walk and its store nothing happened that concerns a `Get`: an override of its key now
    * says what it found, or there is none and its providers answer as they did under the overrides it saw.
    */
  ghost predicate Untouched(files: Files, g: Pending, now: Paths)
    requires g.Found?
  {
    if g.key in now then now[g.key] == g.path
    else Answered(files, g.providers, g.key, now) == Answered(files, g.providers, g.key, g.seen)
  }

  /** A store makes its key stale exactly if it was touched meanwhile, and no other key either way. */
  lemma StoreExactly(files: Files, y: System, t: nat, key: int)
    requires Inv(files, y) && Enabled(y, Store(t))
    ensures var g, s' := y.gets[t], Step(files, y, Store(t)).s;
            Stale(files, s', key) <==>
              if key == g.key && !y.s.cacheDisabled then !Untouched(files, g, y.s.overrides) else Stale(files, y.s, key)
  {
    var g := y.gets[t];
    assert PendingInv(files, y.s, g);
    OlderAnswer(g.providers, y.s.providers, g.key, y.s.overrides);
  }

  /** Over every run: the cache stays coherent at a store exactly if that `Get` was untouched, or caching is off. */
  lemma StoreKeepsCoherentExactly(files: Files, run: seq<System>, ev: seq<Event>, k: nat)
    requires IsRun(files, run, ev) && k < |ev| && ev[k].Store? && Coherent(files, run[k].s)
    ensures ev[k].t in run[k].gets && run[k].gets[ev[k].t].Found?
    ensures Coherent(files, run[k + 1].s) <==>
            run[k].s.cacheDisabled || Untouched(files, run[k].gets[ev[k].t], run[k].s.overrides)
  {
    RunStep(files, run, ev, k);
    InvHolds(files, run, ev, k);
    InvHolds(files, run, ev, k + 1);
    CoherentHasNoStale(files, run[k]);
    CoherentHasNoStale(files, run[k + 1]);
    var g, after := run[k].gets[ev[k].t], run[k + 1].s;
    StoreExactly(files, run[k], ev[k].t, g.key);
    forall key | Stale(files, after, key) ensures key == g.key && !run[k].s.cacheDisabled {
      StoreExactly(files, run[k], ev[k].t, key);
    }
  }

  // ---------------------------------------------------------------- runs without overrides in between

  /** A call that changes the overrides, and so empties the cache. */
  ghost predicate ChangesOverrides(files: Files, s: State, e: Event) {
    e.Do? && match e.call {
      case Override(_, path, isAbsolute, create, there) => OverridePath(files, path, isAbsolute, create, there).Some?
      case RemoveOverride(key) => key in s.overrides
      case _ => false
    }
  }

  /** No such call succeeds while some `Get` is between its locks. */
  ghost predicate Undisturbed(files: Files, run: seq<System>, ev: seq<Event>)
    requires |ev| < |run|
  {
    forall k {:trigger ev[k]} :: 0 <= k < |ev| && ChangesOverrides(files, run[k].s, ev[k]) ==> run[k].gets == map[]
  }

  /** Every pending `Get` started under the overrides still in force. */
  ghost predicate Settled(files: Files, y: System) {
    && Coherent(files, y.s)
    && forall t :: t in y.gets ==>
         y.gets[t].key !in y.s.overrides && (y.gets[t].Found? ==> y.gets[t].seen == y.s.overrides)
  }

  lemma RegisterKeepsCoherent(files: Files, y: System, p: Provider)
    requires Inv(files, y) && Coherent(files, y.s) && Legal(y.s, Register(p))
    ensures Coherent(files, Step(files, y, Do(Register(p))).s)
  {
    RegisterKeeps(files, y.s, p);
  }

  lemma StoreKeepsSettled(files: Files, y: System, t: nat)
    requires Inv(files, y) && Settled(files, y) && Enabled(y, Store(t))
    ensures Settled(files, Step(files, y, Store(t)))
  {
    var y' := Step(files, y, Store(t));
    InvStep(files, y, Store(t));
    CoherentHasNoStale(files, y);
    CoherentHasNoStale(files, y');
    forall key ensures !Stale(files, y'.s, key) { StoreExactly(files, y, t, key); }
  }

  lemma SettledStep(files: Files, y: System, e: Event)
    requires Inv(files, y) && Settled(files, y) && Enabled(y, e)
    requires ChangesOverrides(files, y.s, e) ==> y.gets == map[]
    ensures Settled(files, Step(files, y, e))
  {
    match e
    case Look(t, key) =>
    case Walk(t) =>
    case Store(t) => StoreKeepsSettled(files, y, t);
    case Do(call) => if call.Register? { RegisterKeepsCoherent(files, y, call.provider); }
  }

  /**
    * In every run in which no override is made or removed while some `Get` is between its locks, every
    * state is coherent, whatever is registered, looked up or disabled meanwhile.
    */
  lemma {:induction false} UndisturbedStaysCoherent(files: Files, run: seq<System>, ev: seq<Event>, n: nat)
    requires IsRun(files, run, ev) && Undisturbed(files, run, ev) && n < |run|
    ensures Coherent(files, run[n].s) && Settled(files, run[n])
  {
    if n > 0 {
      UndisturbedStaysCoherent(files, run, ev, n - 1);
      InvHolds(files, run, ev, n - 1);
      RunStep(files, run, ev, n - 1);
      SettledStep(files, run[n - 1], ev[n - 1]);
    }
  }

  /** And what such a `Get` returns is what a lookup finds at the moment it returns. */
  lemma UndisturbedAnswers(files: Files, run: seq<System>, ev: seq<Event>, k: nat)
    requires IsRun(files, run, ev) && Undisturbed(files, run, ev) && k < |ev|
    ensures ev[k].Look? && FirstAnswer(run[k].s, ev[k].key).Some? ==>
              Lookup(files, run[k].s.overrides, run[k].s.providers, ev[k].key) == FirstAnswer(run[k].s, ev[k].key)
    ensures ev[k].Store? ==>
              && ev[k].t in run[k].gets && run[k].gets[ev[k].t].Found?
              && Lookup(files, run[k].s.overrides, run[k].s.providers, run[k].gets[ev[k].t].key) ==
                 Some(run[k].gets[ev[k].t].path)
  {
    UndisturbedStaysCoherent(files, run, ev, k);
    InvHolds(files, run, ev, k);
    RunStep(files, run, ev, k);
    if ev[k].Store? {
      var g := run[k].gets[ev[k].t];
      assert PendingInv(files, run[k].s, g);
      OlderAnswer(g.providers, run[k].s.providers, g.key, run[k].s.overrides);
    }
  }

  // ---------------------------------------------------------------- what the walk of a Get answers

  /** Thread `t` looks `key` up at event j, has to go on, and walks the providers at event k. */
  ghost predicate WalksAfter(run: seq<System>, ev: seq<Event>, t: nat, key: int, j: nat, k: nat)
    requires |ev| < |run|
  {
    && j < k < |ev| && ev[j] == Look(t, key) && FirstAnswer(run[j].s, key).None? && ev[k] == Walk(t)
    && forall i {:trigger ev[i]} :: j < i < k ==> ev[i] != Walk(t)
  }

  /** Until it walks, a `Get` keeps the providers it saw, and the overrides are those it saw. */
  lemma {:induction false} StillLooked(files: Files, run: seq<System>, ev: seq<Event>, t: nat, key: int, j: nat, n: nat)
    requires IsRun(files, run, ev) && Undisturbed(files, run, ev) && j < n < |run|
    requires ev[j] == Look(t, key) && FirstAnswer(run[j].s, key).None?
    requires forall i {:trigger ev[i]} :: j < i < n ==> ev[i] != Walk(t)
    ensures t in run[n].gets && run[n].gets[t] == Looked(key, run[j].s.providers)
    ensures run[n].s.overrides == run[j].s.overrides
    decreases n
  {
    RunStep(files, run, ev, n - 1);
    if n > j + 1 {
      StillLooked(files, run, ev, t, key, j, n - 1);
      assert ev[n - 1] != Walk(t) && !ChangesOverrides(files, run[n - 1].s, ev[n - 1]);
    }
  }

  /** Undisturbed, a walk finds, or fails to find, what an uncached lookup would have at the first lock. */
  lemma UndisturbedWalk(files: Files, run: seq<System>, ev: seq<Event>, t: nat, key: int, j: nat, k: nat)
    requires IsRun(files, run, ev) && Undisturbed(files, run, ev) && WalksAfter(run, ev, t, key, j, k)
    ensures var found := Lookup(files, run[j].s.overrides, run[j].s.providers, key);
            if found.None? then t !in run[k + 1].gets
            else t in run[k + 1].gets && run[k + 1].gets[t].Found? && Some(run[k + 1].gets[t].path) == found
  {
    StillLooked(files, run, ev, t, key, j, k);
    RunStep(files, run, ev, k);
  }

  /** The providers registered since `older` was the list. */
  ghost function Newer(older: seq<Provider>, providers: seq<Provider>): seq<Provider>
    requires Behind(older, providers)
  { providers[..|providers| - |older|] }

  lemma {:induction false} AskNewer(newer: seq<Provider>, older: seq<Provider>, key: int, overrides: Paths)
    requires Ask(older, key, overrides) == ""
    ensures Ask(newer + older, key, overrides) == Ask(newer, key, overrides)
  {
    if newer == [] {
      assert newer + older == older;
    } else {
      assert (newer + older)[1..] == newer[1..] + older;
      AskNewer(newer[1..], older, key, overrides);
    }
  }

  /** For a key in the range of no older provider. */
  lemma NewerAnswer(older: seq<Provider>, providers: seq<Provider>, key: int, overrides: Paths)
    requires Ranged(providers) && Behind(older, providers) && !InSome(key, older)
    ensures Ask(older, key, overrides) == ""
    ensures Ask(providers, key, overrides) == Ask(Newer(older, providers), key, overrides)
  {
    RangedBehind(older, providers);
    if Ask(older, key, overrides) != "" { AnswererInRange(older, key, overrides); }
    assert Newer(older, providers) + older == providers;
    AskNewer(Newer(older, providers), older, key, overrides);
  }

  /**
    * It is also what an uncached lookup would find at the walk, exactly if a provider of the first lock has
    * the key in its range or those registered since have no path for it.
    */
  lemma WalkIsCurrentExactly(files: Files, run: seq<System>, ev: seq<Event>, t: nat, key: int, j: nat, k: nat)
    requires IsRun(files, run, ev) && Undisturbed(files, run, ev) && WalksAfter(run, ev, t, key, j, k)
    ensures var older, s := run[j].s.providers, run[k].s;
            && Behind(older, s.providers)
            && (Lookup(files, s.overrides, s.providers, key) == Lookup(files, run[j].s.overrides, older, key) <==>
                InSome(key, older) || Checked(files, Ask(Newer(older, s.providers), key, s.overrides)).None?)
  {
    StillLooked(files, run, ev, t, key, j, k);
    InvHolds(files, run, ev, k);
    var older, s := run[j].s.providers, run[k].s;
    assert PendingInv(files, s, run[k].gets[t]);
    assert key !in s.overrides;
    if InSome(key, older) {
      OlderAnswer(older, s.providers, key, s.overrides);
    } else {
      NewerAnswer(older, s.providers, key, s.overrides);
    }
  }

  /** A provider registered between the first lock and the walk is not asked. */
  lemma RegisterBetweenLocks() returns (files: Files, run: seq<System>, ev: seq<Event>)
    ensures IsRun(files, run, ev) && Undisturbed(files, run, ev) && WalksAfter(run, ev, 0, 7, 0, 2)
    ensures 0 !in run[3].gets && Lookup(files, run[2].s.overrides, run[2].s.providers, 7) == Some("/new")
  {
    files := Files(p => p, p => false);
    var answer: (int, Paths) -> Option<string> := (key, overrides) => if key == 7 then Some("/new") else None;
    var p := Provider(7, 8, answer);
    var y0 := System(State(map[], map[], [], false), map[]);
    var y1 := y0.(gets := map[0 := Looked(7, [])]);
    var y2 := y1.(s := y0.s.(providers := [p]));
    ev := [Look(0, 7), Do(Register(p)), Walk(0)];
    run := [y0, y1, y2, y2.(gets := map[])];
    assert InRange(p) && Apart(p, []) && [p] + [] == [p];
    assert Step(files, y0, ev[0]) == y1 && Step(files, y1, ev[1]) == y2;
    assert y2.gets - {0} == map[] && Step(files, y2, ev[2]) == run[3];
  }

  // ---------------------------------------------------------------- how long a stale entry lasts

  /** The event empties the cache, or stores another path for the key. */
  ghost predicate Replaces(files: Files, y: System, e: Event, key: int) {
    || ChangesOverrides(files, y.s, e) || (e.Do? && e.call.DisableCache?)
    || (e.Store? && e.t in y.gets && y.gets[e.t].key == key)
  }

  lemma StaleStep(files: Files, y: System, e: Event, key: int)
    requires Inv(files, y) && Enabled(y, e) && Stale(files, y.s, key) && !Replaces(files, y, e, key)
    ensures var s' := Step(files, y, e).s;
            Stale(files, s', key) && s'.cache[key] == y.s.cache[key] && s'.cacheDisabled == y.s.cacheDisabled
  {
    if e.Do? && e.call.Register? {
      if key !in y.s.overrides { NewProviderIsSilent(e.call.provider, y.s.providers, key, y.s.overrides); }
    }
  }

  /** A stale entry is what every lookup of the key is answered with, until an event of that kind. */
  lemma {:induction false} StaleIsAnswered(files: Files, run: seq<System>, ev: seq<Event>, k: nat, n: nat, key: int)
    requires IsRun(files, run, ev) && k <= n < |run| && Stale(files, run[k].s, key)
    requires forall j {:trigger ev[j]} :: k <= j < n ==> !Replaces(files, run[j], ev[j], key)
    ensures Stale(files, run[n].s, key) && FirstAnswer(run[n].s, key) == Some(run[k].s.cache[key])
    ensures Lookup(files, run[n].s.overrides, run[n].s.providers, key) != Some(run[k].s.cache[key])
    ensures run[n].s.cache[key] == run[k].s.cache[key]
  {
    InvHolds(files, run, ev, n);
    if n > k {
      StaleIsAnswered(files, run, ev, k, n - 1, key);
      InvHolds(files, run, ev, n - 1);
      RunStep(files, run, ev, n - 1);
      assert !Replaces(files, run[n - 1], ev[n - 1], key);
      StaleStep(files, run[n - 1], ev[n - 1], key);
    }
  }

  /** An override, a removal or switching the cache off ends it for every key. */
  lemma ClearingEndsStale(files: Files, y: System, e: Event, key: int)
    requires Enabled(y, e) && (ChangesOverrides(files, y.s, e) || (e.Do? && e.call.DisableCache?))
    ensures !Stale(files, Step(files, y, e).s, key)
  {}

  // ---------------------------------------------------------------- such a run

  /** A provider of one key, overridden between the walk of a `Get` and its store. */
  lemma OverrideBetweenLocks() returns (files: Files, run: seq<System>, ev: seq<Event>)
    ensures IsRun(files, run, ev) && |ev| == 5
    ensures Stale(files, run[4].s, 7) && Coherent(files, run[3].s)
    ensures ev[4] == Look(1, 7) && FirstAnswer(run[4].s, 7) == Some("/old")
    ensures Lookup(files, run[4].s.overrides, run[4].s.providers, 7) == Some("/new")
  {
    files := Files(p => p, p => false);
    var answer: (int, Paths) -> Option<string> := (key, overrides) => if key == 7 then Some("/old") else None;
    var p := Provider(7, 8, answer);
    var y0 := System(State(map[], map[], [p], false), map[]);
    assert InRange(p) && Apart(p, []) && [p][0 + 1..] == [];
    ev := [Look(0, 7), Walk(0), Do(Override(7, "/new", true, false, true)), Store(0), Look(1, 7)];
    var y1 := y0.(gets := map[0 := Looked(7, [p])]);
    assert [p][1..] == [] && Ask([p], 7, map[]) == "/old";
    var y2 := y0.(gets := map[0 := Found(7, [p], map[], "/old")]);
    var y3 := y2.(s := y0.s.(overrides := map[7 := "/new"]));
    var y4 := System(y3.s.(cache := map[7 := "/old"]), map[]);
    run := [y0, y1, y2, y3, y4, y4];
    assert Step(files, y0, ev[0]) == y1 && Step(files, y1, ev[1]) == y2;
    assert Step(files, y2, ev[2]) == y3 && Step(files, y3, ev[3]) == y4 && Step(files, y4, ev[4]) == y4;
  }
}
