/**
  * path_service.cc: paths looked up by key, from overrides or from a list of providers, behind a cache.
  * The current directory, the file system and the providers are parameters.
  */
module PathService {
  import opened Wrappers

  const DIR_CURRENT: int := 1

  type Paths = map<int, string>

  /** Answers a key given the overrides in force, on which it may depend. */
  datatype Provider = Provider(start: int, end: int, answer: (int, Paths) -> Option<string>)

  /** MakeAbsoluteFilePath, empty when it fails, and FilePath::ReferencesParent. */
  datatype Files = Files(absolute: string -> string, referencesParent: string -> bool)

  // ---------------------------------------------------------------- looking up without a cache

  /** The first provider that answers; no answer is the empty path. */
  function Ask(providers: seq<Provider>, key: int, overrides: Paths): string {
    if providers == [] then ""
    else
      var path := providers[0].answer(key, overrides);
      if path.Some? then path.value else Ask(providers[1..], key, overrides)
  }

  /** An empty path is a failure, and so is a path with parent references that cannot be made absolute. */
  function Checked(files: Files, path: string): Option<string> {
    if path == "" then None
    else if !files.referencesParent(path) then Some(path)
    else if files.absolute(path) == "" then None
    else Some(files.absolute(path))
  }

  function Lookup(files: Files, overrides: Paths, providers: seq<Provider>, key: int): Option<string> {
    if key in overrides then Some(overrides[key]) else Checked(files, Ask(providers, key, overrides))
  }

  // ---------------------------------------------------------------- the calls

  datatype State = State(cache: Paths, overrides: Paths, providers: seq<Provider>, cacheDisabled: bool)

  function Cached(s: State, key: int, path: string): State {
    if s.cacheDisabled then s else s.(cache := s.cache[key := path])
  }

  function AfterGet(files: Files, s: State, key: int): State {
    if key == DIR_CURRENT || (!s.cacheDisabled && key in s.cache) then s
    else
      var path := Lookup(files, s.overrides, s.providers, key);
      if path.None? then s else Cached(s, key, path.value)
  }

  function GetAnswer(files: Files, s: State, key: int, cwd: Option<string>): Option<string> {
    if key == DIR_CURRENT then cwd
    else if !s.cacheDisabled && key in s.cache then Some(s.cache[key])
    else Lookup(files, s.overrides, s.providers, key)
  }

  /** What OverrideAndCreateIfNeeded stores; `there`: the directory exists or could be made. */
  function OverridePath(files: Files, path: string, isAbsolute: bool, create: bool, there: bool): Option<string> {
    if create && !there then None
    else if isAbsolute then Some(path)
    else if files.absolute(path) == "" then None
    else Some(files.absolute(path))
  }

  function Overridden(s: State, key: int, path: string): State {
    s.(cache := map[], overrides := s.overrides[key := path])
  }

  function WithoutOverride(s: State, key: int): State {
    if key in s.overrides then s.(cache := map[], overrides := s.overrides - {key}) else s
  }

  function Registered(s: State, p: Provider): State { s.(providers := [p] + s.providers) }

  function Uncached(s: State): State { s.(cache := map[], cacheDisabled := true) }

  class Service {
    const files: Files
    var cache: Paths
    var overrides: Paths
    var providers: seq<Provider>
    var cacheDisabled: bool

    constructor (files: Files, providers: seq<Provider>)
      ensures this.files == files && Now() == State(map[], map[], providers, false)
    {
      this.files, cache, overrides, this.providers, cacheDisabled := files, map[], map[], providers, false;
    }

    ghost function Now(): State
      reads this
    { State(cache, overrides, providers, cacheDisabled) }

    method Get(key: int, cwd: Option<string>) returns (result: Option<string>)
      requires key >= DIR_CURRENT
      modifies this`cache
      ensures Now() == AfterGet(files, old(Now()), key)
      ensures result == GetAnswer(files, old(Now()), key, cwd)
    {
      if key == DIR_CURRENT { return cwd; }
      if !cacheDisabled && key in cache { return Some(cache[key]); }
      if key in overrides {
        if !cacheDisabled { cache := cache[key := overrides[key]]; }
        return Some(overrides[key]);
      }
      var i, path := 0, "";
      while i < |providers|
        invariant i <= |providers| && path == ""
        invariant Ask(providers, key, overrides) == Ask(providers[i..], key, overrides)
      {
        var answer := providers[i].answer(key, overrides);
        if answer.Some? {
          path := answer.value;
          break;
        }
        assert providers[i..][1..] == providers[i + 1..];
        i := i + 1;
      }
      assert path == Ask(providers, key, overrides);
      if path == "" { return None; }
      if files.referencesParent(path) {
        path := files.absolute(path);
        if path == "" { return None; }
      }
      if !cacheDisabled { cache := cache[key := path]; }
      return Some(path);
    }

    method OverrideAndCreateIfNeeded(key: int, path: string, isAbsolute: bool, create: bool, there: bool)
      returns (ok: bool)
      requires key > DIR_CURRENT
      modifies this`cache, this`overrides
      ensures var p := OverridePath(files, path, isAbsolute, create, there);
              ok == p.Some? && Now() == if ok then Overridden(old(Now()), key, p.value) else old(Now())
    {
      var filePath := path;
      if create {
        if !there { return false; }
      }
      if !isAbsolute {
        filePath := files.absolute(filePath);
        if filePath == "" { return false; }
      }
      cache := map[];
      overrides := overrides[key := filePath];
      return true;
    }

    method RemoveOverride(key: int) returns (ok: bool)
      modifies this`cache, this`overrides
      ensures ok == (key in old(overrides)) && Now() == WithoutOverride(old(Now()), key)
    {
      if key !in overrides { return false; }
      cache := map[];
      overrides := overrides - {key};
      return true;
    }

    method RegisterProvider(p: Provider)
      requires Apart(p, providers)
      modifies this`providers
      ensures Now() == Registered(old(Now()), p)
    {
      providers := [p] + providers;
    }

    method DisableCache()
      modifies this`cache, this`cacheDisabled
      ensures Now() == Uncached(old(Now()))
    {
      cache := map[];
      cacheDisabled := true;
    }
  }

  // ---------------------------------------------------------------- the cache agrees with the lookup

  predicate Apart(p: Provider, providers: seq<Provider>) {
    p.start < p.end && forall i :: 0 <= i < |providers| ==> p.start >= providers[i].end || p.end <= providers[i].start
  }

  /** Keys outside its range get no answer. */
  ghost predicate InRange(p: Provider) {
    forall key, overrides :: p.answer(key, overrides).Some? ==> p.start <= key < p.end
  }

  ghost predicate Ranged(providers: seq<Provider>) {
    && (forall i :: 0 <= i < |providers| ==> InRange(providers[i]))
    && (forall i :: 0 <= i < |providers| ==> Apart(providers[i], providers[i + 1..]))
  }

  /** Every cached path is the one a lookup would find now. */
  ghost predicate Coherent(files: Files, s: State) {
    && DIR_CURRENT !in s.cache && (s.cacheDisabled ==> s.cache == map[])
    && forall key :: key in s.cache ==> Lookup(files, s.overrides, s.providers, key) == Some(s.cache[key])
  }

  lemma GetKeeps(files: Files, s: State, key: int, cwd: Option<string>)
    requires Coherent(files, s)
    ensures Coherent(files, AfterGet(files, s, key))
    ensures GetAnswer(files, s, key, cwd) ==
            if key == DIR_CURRENT then cwd else Lookup(files, s.overrides, s.providers, key)
  {}

  /** The walk ends with the first provider that answers. */
  lemma {:induction false} AskIsFirst(providers: seq<Provider>, key: int, overrides: Paths, i: nat)
    requires i <= |providers| && forall j :: 0 <= j < i ==> providers[j].answer(key, overrides).None?
    requires i < |providers| ==> providers[i].answer(key, overrides).Some?
    ensures Ask(providers, key, overrides) ==
            if i < |providers| then providers[i].answer(key, overrides).value else ""
  {
    if i > 0 { AskIsFirst(providers[1..], key, overrides, i - 1); }
  }

  /** A path found is the providers' own only if it has no parent references; otherwise it is made absolute. */
  lemma FoundIsSafe(files: Files, overrides: Paths, providers: seq<Provider>, key: int)
    requires key !in overrides
    ensures var path, found := Ask(providers, key, overrides), Lookup(files, overrides, providers, key);
            && (found.None? <==> path == "" || (files.referencesParent(path) && files.absolute(path) == ""))
            && (found.Some? ==> found.value != "")
            && (found.Some? && files.referencesParent(path) ==> found.value == files.absolute(path))
            && (found.Some? && !files.referencesParent(path) ==> found.value == path)
  {}

  /**
    * With the cache on, a call that is answered leaves its answer there, and no other change; the next call
    * for the key is answered from there, without another look at overrides or providers.
    */
  lemma AnswerIsCached(files: Files, s: State, key: int, cwd: Option<string>)
    requires key != DIR_CURRENT && !s.cacheDisabled
    ensures var p, s' := GetAnswer(files, s, key, cwd), AfterGet(files, s, key);
            && (p.None? ==> s' == s) && (p.Some? ==> s' == s.(cache := s.cache[key := p.value]))
            && forall o, ps :: p.Some? ==> GetAnswer(files, s'.(overrides := o, providers := ps), key, cwd) == p
  {
    if key in s.cache { assert s.cache[key := s.cache[key]] == s.cache; }
  }

  /** With the cache off nothing is stored, and every call looks up anew. */
  lemma NothingIsCached(files: Files, s: State, key: int, cwd: Option<string>)
    requires s.cacheDisabled
    ensures AfterGet(files, s, key) == s
    ensures key != DIR_CURRENT ==> GetAnswer(files, s, key, cwd) == Lookup(files, s.overrides, s.providers, key)
  {}

  /**
    * An override succeeds exactly if the directory is there, where it was asked for, and the path is absolute
    * or can be made so; the absolute path is then the answer for the key. Otherwise nothing changes.
    */
  lemma OverrideExactly(files: Files, s: State, key: int, path: string, isAbsolute: bool, create: bool, there: bool,
                        cwd: Option<string>)
    requires key > DIR_CURRENT
    ensures var call := Override(key, path, isAbsolute, create, there);
            var ok := (create ==> there) && (isAbsolute || files.absolute(path) != "");
            && Answer(files, s, call) == Flag(ok)
            && (!ok ==> After(files, s, call) == s)
            && (ok ==> GetAnswer(files, After(files, s, call), key, cwd) ==
                       Some(if isAbsolute then path else files.absolute(path)))
            && (ok ==> After(files, s, call).overrides.Keys == s.overrides.Keys + {key})
            && forall k :: k in s.overrides && k != key ==> After(files, s, call).overrides[k] == s.overrides[k]
  {}

  /** Providers are apart exactly if no key is in two of their ranges. */
  lemma ApartExactly(p: Provider, providers: seq<Provider>)
    requires p.start < p.end && forall i :: 0 <= i < |providers| ==> providers[i].start < providers[i].end
    ensures Apart(p, providers) <==>
            forall i, key {:trigger Covers(providers[i], key)} ::
              0 <= i < |providers| && Covers(providers[i], key) ==> !Covers(p, key)
  {
    forall i | 0 <= i < |providers| && !(p.start >= providers[i].end || p.end <= providers[i].start)
      ensures exists key :: Covers(providers[i], key) && Covers(p, key)
    {
      var key := if p.start >= providers[i].start then p.start else providers[i].start;
      assert Covers(providers[i], key) && Covers(p, key);
    }
  }

  predicate Covers(p: Provider, key: int) { p.start <= key < p.end }

  /** An override is what the next call is answered with, and removing it undoes it but for the cache. */
  lemma OverrideAndRemove(files: Files, s: State, key: int, path: string, cwd: Option<string>)
    requires key > DIR_CURRENT
    ensures GetAnswer(files, Overridden(s, key, path), key, cwd) == Some(path)
    ensures key !in s.overrides ==> WithoutOverride(Overridden(s, key, path), key) == s.(cache := map[])
  {
    if key !in s.overrides { assert s.overrides[key := path] - {key} == s.overrides; }
  }

  /** Someone answered if the walk found a path. */
  lemma {:induction false} WhoAnswered(providers: seq<Provider>, key: int, overrides: Paths) returns (i: nat)
    requires Ask(providers, key, overrides) != ""
    ensures i < |providers| && providers[i].answer(key, overrides).Some?
  {
    if providers[0].answer(key, overrides).Some? {
      i := 0;
    } else {
      i := WhoAnswered(providers[1..], key, overrides);
      i := i + 1;
    }
  }

  /** A new provider is asked first; it leaves an answer alone unless it has a different one. */
  lemma AskRegistered(p: Provider, providers: seq<Provider>, key: int, overrides: Paths)
    ensures Ask([p] + providers, key, overrides) ==
            if p.answer(key, overrides).Some? then p.answer(key, overrides).value else Ask(providers, key, overrides)
  {
    assert ([p] + providers)[1..] == providers;
  }

  /** Registering keeps the cache coherent exactly when the provider changes no cached answer. */
  lemma RegisterKeepsExactly(files: Files, s: State, p: Provider)
    requires Coherent(files, s)
    ensures Coherent(files, Registered(s, p)) <==>
            forall key :: key in s.cache && key !in s.overrides && p.answer(key, s.overrides).Some? ==>
              Checked(files, p.answer(key, s.overrides).value) == Some(s.cache[key])
  {
    forall key | key in s.cache
      ensures Lookup(files, s.overrides, [p] + s.providers, key) ==
              if key !in s.overrides && p.answer(key, s.overrides).Some?
              then Checked(files, p.answer(key, s.overrides).value)
              else Some(s.cache[key])
    {
      AskRegistered(p, s.providers, key, s.overrides);
    }
  }

  /** Which a provider with a range of its own never does. */
  lemma RegisterKeeps(files: Files, s: State, p: Provider)
    requires Coherent(files, s) && Ranged(s.providers) && InRange(p) && Apart(p, s.providers)
    ensures Coherent(files, Registered(s, p)) && Ranged(Registered(s, p).providers)
  {
    forall key | key in s.cache && key !in s.overrides ensures p.answer(key, s.overrides).None? {
      assert Lookup(files, s.overrides, s.providers, key) == Some(s.cache[key]);
      var i := WhoAnswered(s.providers, key, s.overrides);
      assert InRange(s.providers[i]);
    }
    RegisterKeepsExactly(files, s, p);
    var more := [p] + s.providers;
    forall i | 0 <= i < |more| ensures InRange(more[i]) && Apart(more[i], more[i + 1..]) {
      if i == 0 {
        assert more[1..] == s.providers;
      } else {
        assert more[i] == s.providers[i - 1] && more[i + 1..] == s.providers[i..];
        assert InRange(s.providers[i - 1]) && Apart(s.providers[i - 1], s.providers[i - 1 + 1..]);
      }
    }
  }

  // ---------------------------------------------------------------- every run of calls

  datatype Call = Get(key: int, cwd: Option<string>)
                | Override(key: int, path: string, isAbsolute: bool, create: bool, there: bool)
                | RemoveOverride(key: int) | Register(provider: Provider) | DisableCache

  datatype Result = Path(path: Option<string>) | Flag(ok: bool) | Done

  ghost predicate Legal(s: State, c: Call) {
    match c
    case Get(key, _) => key >= DIR_CURRENT
    case Override(key, _, _, _, _) => key > DIR_CURRENT
    case Register(p) => InRange(p) && Apart(p, s.providers)
    case _ => true
  }

  function After(files: Files, s: State, c: Call): State {
    match c
    case Get(key, _) => AfterGet(files, s, key)
    case Override(key, path, isAbsolute, create, there) =>
      var p := OverridePath(files, path, isAbsolute, create, there);
      if p.Some? then Overridden(s, key, p.value) else s
    case RemoveOverride(key) => WithoutOverride(s, key)
    case Register(p) => Registered(s, p)
    case DisableCache => Uncached(s)
  }

  function Answer(files: Files, s: State, c: Call): Result {
    match c
    case Get(key, cwd) => Path(GetAnswer(files, s, key, cwd))
    case Override(key, path, isAbsolute, create, there) =>
      Flag(OverridePath(files, path, isAbsolute, create, there).Some?)
    case RemoveOverride(key) => Flag(key in s.overrides)
    case _ => Done
  }

  ghost predicate AllLegal(files: Files, s: State, calls: seq<Call>)
    decreases |calls|
  { calls == [] || (Legal(s, calls[0]) && AllLegal(files, After(files, s, calls[0]), calls[1..])) }

  function Answers(files: Files, s: State, calls: seq<Call>): seq<Result>
    decreases |calls|
  { if calls == [] then [] else [Answer(files, s, calls[0])] + Answers(files, After(files, s, calls[0]), calls[1..]) }

  /** The state after these calls. */
  function AfterAll(files: Files, s: State, calls: seq<Call>): State {
    if calls == [] then s else After(files, AfterAll(files, s, calls[..|calls| - 1]), calls[|calls| - 1])
  }

  lemma {:induction false} AfterFirst(files: Files, s: State, calls: seq<Call>)
    requires calls != []
    ensures AfterAll(files, s, calls) == AfterAll(files, After(files, s, calls[0]), calls[1..])
    decreases |calls|
  {
    var n := |calls| - 1;
    if n > 0 {
      AfterFirst(files, s, calls[..n]);
      assert calls[..n][1..] == calls[1..][..n - 1];
    } else {
      assert calls[..0] == [];
    }
  }

  /** Each answer is that of its call after the calls before it. */
  lemma {:induction false} AnswersAt(files: Files, s: State, calls: seq<Call>, i: nat)
    requires i < |calls|
    ensures |Answers(files, s, calls)| == |calls|
    ensures Answers(files, s, calls)[i] == Answer(files, AfterAll(files, s, calls[..i]), calls[i])
    decreases |calls|
  {
    var s' := After(files, s, calls[0]);
    if |calls| > 1 { AnswersAt(files, s', calls[1..], if i == 0 then 0 else i - 1); }
    if i > 0 {
      AfterFirst(files, s, calls[..i]);
      assert calls[..i][1..] == calls[1..][..i - 1];
    } else {
      assert calls[..0] == [];
    }
  }

  lemma CallKeeps(files: Files, s: State, c: Call)
    requires Coherent(files, s) && Ranged(s.providers) && Legal(s, c)
    ensures Coherent(files, After(files, s, c)) && Ranged(After(files, s, c).providers)
  {
    match c
    case Get(key, cwd) => GetKeeps(files, s, key, cwd);
    case Register(p) => RegisterKeeps(files, s, p);
    case _ =>
  }

  /** One call gives the same answer, and the same state but for the cache, as with the cache disabled. */
  lemma CallAgrees(files: Files, s: State, c: Call)
    requires Coherent(files, s)
    ensures Answer(files, s, c) == Answer(files, Uncached(s), c)
    ensures Uncached(After(files, s, c)) == After(files, Uncached(s), c)
  {
    if c.Get? { GetKeeps(files, s, c.key, c.cwd); }
  }

  /** Over any run of calls the cache cannot be told from no cache. */
  lemma {:induction false} CacheIsInvisible(files: Files, s: State, calls: seq<Call>)
    requires Coherent(files, s) && Ranged(s.providers) && AllLegal(files, s, calls)
    ensures Answers(files, s, calls) == Answers(files, Uncached(s), calls)
    decreases |calls|
  {
    if calls != [] {
      CallKeeps(files, s, calls[0]);
      CallAgrees(files, s, calls[0]);
      CacheIsInvisible(files, After(files, s, calls[0]), calls[1..]);
    }
  }
}
