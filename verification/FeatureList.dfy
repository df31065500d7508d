/**
  * feature_list.cc: feature overrides printed as two comma-separated lists, and read back from them.
  * An entry is `Name`, `*Name` for a feature left at its default, and either may be followed by `<Trial`.
  * Field trials are known by name; `trials` are the names that FieldTrialList::Find resolves.
  */
module FeatureList {
  import opened Strings
  import opened Wrappers

  datatype Setting = UseDefault | Enable | Disable
  datatype Override = Override(state: Setting, trial: Option<string>)
  type Overrides = map<string, Override>
  datatype Entry = Entry(name: string, over: Override)

  // ---------------------------------------------------------------- printing

  function Piece(name: string, o: Override): string {
    (if o.state.UseDefault? then "*" else "") + name + if o.trial.Some? then "<" + o.trial.value else ""
  }

  function Appended(list: string, piece: string): string { (if list != "" then list + "," else "") + piece }

  /** The overrides of `order` that go to the one list or the other. */
  function Chosen(order: seq<string>, m: Overrides, disabled: bool): (r: seq<string>)
    ensures forall k :: k in r <==> k in order && k in m && m[k].state.Disable? == disabled
  {
    if order == [] then []
    else
      var n := |order| - 1;
      var k := order[n];
      var rest := Chosen(order[..n], m, disabled);
      if k in m && m[k].state.Disable? == disabled then rest + [k] else rest
  }

  function Pieces(names: seq<string>, m: Overrides): (r: seq<string>)
    requires forall k :: k in names ==> k in m
    ensures |r| == |names|
  { seq(|names|, i requires 0 <= i < |names| => Piece(names[i], m[names[i]])) }

  function Listing(pieces: seq<string>): string {
    if pieces == [] then "" else Appended(Listing(pieces[..|pieces| - 1]), pieces[|pieces| - 1])
  }

  function Printed(names: seq<string>, m: Overrides): string
    requires forall k :: k in names ==> k in m
  { Listing(Pieces(names, m)) }

  // ---------------------------------------------------------------- reading

  /** The pieces between commas. */
  function Split(s: string): (r: seq<string>)
    ensures r != []
  {
    if s == "" then [""]
    else
      var n := |s| - 1;
      var rest := Split(s[..n]);
      if s[n] == ',' then rest + [""] else rest[..|rest| - 1] + [rest[|rest| - 1] + [s[n]]]
  }

  /** Trimmed, without those that are then empty. */
  function Kept(pieces: seq<string>): seq<string> {
    if pieces == [] then []
    else
      var n := |pieces| - 1;
      Kept(pieces[..n]) + if Trim(pieces[n]) != "" then [Trim(pieces[n])] else []
  }

  function Find(s: string, c: char): (i: nat)
    ensures i <= |s| && (i < |s| ==> s[i] == c) && forall j :: 0 <= j < i ==> s[j] != c
  { if s == "" || s[0] == c then 0 else Find(s[1..], c) + 1 }

  /** RegisterOverride's view of a name and the state of the list it is in. */
  function Starred(name: string, state: Setting, trial: Option<string>): Entry {
    if "*" <= name then Entry(name[1..], Override(UseDefault, trial)) else Entry(name, Override(state, trial))
  }

  function TrialOf(piece: string, i: nat, trials: set<string>): Option<string>
    requires i <= |piece|
  { if i < |piece| && piece[i + 1..] in trials then Some(piece[i + 1..]) else None }

  /** What one piece registers. */
  function EntryOf(piece: string, state: Setting, trials: set<string>): Entry {
    var i := Find(piece, '<');
    Starred(piece[..i], state, TrialOf(piece, i, trials))
  }

  /** std::map::insert: the first override of a name stays. */
  function Registered(m: Overrides, e: Entry): Overrides { if e.name in m then m else m[e.name := e.over] }

  function AllRegistered(m: Overrides, entries: seq<Entry>): Overrides {
    if entries == [] then m
    else Registered(AllRegistered(m, entries[..|entries| - 1]), entries[|entries| - 1])
  }

  function Entries(pieces: seq<string>, state: Setting, trials: set<string>): (r: seq<Entry>)
    ensures |r| == |pieces|
  { seq(|pieces|, i requires 0 <= i < |pieces| => EntryOf(pieces[i], state, trials)) }

  /** What one of the two lists says. */
  function Listed(list: string, state: Setting, trials: set<string>): seq<Entry> {
    Entries(Kept(Split(list)), state, trials)
  }

  function ReadInto(m: Overrides, enable: string, disable: string, trials: set<string>): Overrides {
    AllRegistered(AllRegistered(m, Listed(disable, Disable, trials)), Listed(enable, Enable, trials))
  }

  function FromCommandLine(enable: string, disable: string, trials: set<string>): Overrides {
    ReadInto(map[], enable, disable, trials)
  }

  class FeatureList {
    const trials: set<string>
    var overrides: Overrides

    constructor (trials: set<string>)
      ensures this.trials == trials && overrides == map[]
    {
      this.trials, overrides := trials, map[];
    }

    method InitializeFromCommandLine(enable: string, disable: string)
      modifies this
      ensures overrides == ReadInto(old(overrides), enable, disable, trials)
    {
      RegisterOverridesFromCommandLine(disable, Disable);
      RegisterOverridesFromCommandLine(enable, Enable);
    }

    method RegisterOverridesFromCommandLine(list: string, state: Setting)
      modifies this
      ensures overrides == AllRegistered(old(overrides), Listed(list, state, trials))
    {
      var pieces := Kept(Split(list));
      ghost var entries := Entries(pieces, state, trials);
      assert entries[..0] == [] && entries[..|pieces|] == entries;
      for i := 0 to |pieces|
        invariant overrides == AllRegistered(old(overrides), entries[..i])
      {
        assert entries[..i + 1][..i] == entries[..i] && entries[i] == EntryOf(pieces[i], state, trials);
        var name, trial := pieces[i], None;
        var pos := Find(name, '<');
        if pos < |name| {
          if name[pos + 1..] in trials { trial := Some(name[pos + 1..]); }
        }
        RegisterOverride(name[..pos], state, trial);
      }
    }

    method RegisterOverride(name: string, state: Setting, trial: Option<string>)
      modifies this
      ensures overrides == Registered(old(overrides), Starred(name, state, trial))
    {
      var featureName, overriddenState := name, state;
      if "*" <= name {
        featureName := name[1..];
        overriddenState := UseDefault;
      }
      if featureName !in overrides {
        overrides := overrides[featureName := Override(overriddenState, trial)];
      }
    }

    method GetFeatureOverrides() returns (enable: string, disable: string)
      ensures exists order :: PrintedIn(order, overrides, enable, disable)
    {
      var left := overrides.Keys;
      enable, disable := "", "";
      ghost var order := [];
      while left != {}
        invariant Visiting(order, left, overrides)
        invariant enable == Printed(Chosen(order, overrides, false), overrides)
        invariant disable == Printed(Chosen(order, overrides, true), overrides)
        decreases |left|
      {
        var name :| name in left;
        assert name in overrides;
        ghost var before := left;
        left := left - {name};
        var o := overrides[name];
        PrintedOneMore(order, name, overrides);
        if o.state.Disable? {
          disable := Appended(disable, Piece(name, o));
        } else {
          enable := Appended(enable, Piece(name, o));
        }
        assert left + {name} == before;
        VisitedOne(order, left, name, overrides);
        order := order + [name];
      }
      assert PrintedIn(order, overrides, enable, disable);
    }
  }

  ghost predicate Distinct(s: seq<string>) { forall i, j :: 0 <= i < j < |s| ==> s[i] != s[j] }

  /** Visited so far in this order, with these left. */
  ghost predicate Visiting(order: seq<string>, left: set<string>, m: Overrides) {
    && Distinct(order) && (forall k :: k in left ==> k in m) && (forall k :: k in order ==> k in m && k !in left)
    && (forall k :: k in m ==> k in left || k in order)
  }

  lemma VisitedOne(order: seq<string>, left: set<string>, k: string, m: Overrides)
    requires k !in left && Visiting(order, left + {k}, m)
    ensures Visiting(order + [k], left, m)
  {}

  /** The two lists when the overrides are visited in this order, each once. */
  ghost predicate PrintedIn(order: seq<string>, m: Overrides, enable: string, disable: string) {
    && Distinct(order) && (forall k :: k in order <==> k in m)
    && enable == Printed(Chosen(order, m, false), m) && disable == Printed(Chosen(order, m, true), m)
  }

  lemma PrintedOneMore(order: seq<string>, k: string, m: Overrides)
    requires k in m
    ensures var list, other := Chosen(order, m, m[k].state.Disable?), Chosen(order, m, !m[k].state.Disable?);
            && Chosen(order + [k], m, !m[k].state.Disable?) == other
            && Printed(Chosen(order + [k], m, m[k].state.Disable?), m) == Appended(Printed(list, m), Piece(k, m[k]))
  {
    assert (order + [k])[..|order|] == order;
    var list := Chosen(order, m, m[k].state.Disable?);
    var pieces := Pieces(list, m);
    assert Pieces(list + [k], m) == pieces + [Piece(k, m[k])];
    assert (pieces + [Piece(k, m[k])])[..|pieces|] == pieces;
  }

  // ---------------------------------------------------------------- lists come back as their pieces

  lemma {:induction false} SplitPiece(list: string, piece: string)
    requires ',' !in piece
    ensures Split(list + "," + piece) == Split(list) + [piece]
    ensures Split(piece) == [piece]
  {
    var s := list + "," + piece;
    if piece == "" {
      assert s[..|s| - 1] == list;
    } else {
      var n := |piece| - 1;
      SplitPiece(list, piece[..n]);
      assert s[..|s| - 1] == list + "," + piece[..n];
      assert piece[..n] + [piece[n]] == piece;
      assert s[|s| - 1] == piece[n];
    }
  }

  lemma KeptOneMore(pieces: seq<string>, piece: string)
    ensures Kept(pieces + [piece]) == Kept(pieces) + if Trim(piece) != "" then [Trim(piece)] else []
  {
    assert (pieces + [piece])[..|pieces|] == pieces;
  }

  lemma NothingListed()
    ensures Kept(Split("")) == []
  {
    KeptOneMore([], "");
    assert [] + [""] == [""];
  }

  lemma AppendedReadsBack(list: string, piece: string)
    requires ',' !in piece
    ensures Kept(Split(Appended(list, piece))) == Kept(Split(list)) + if Trim(piece) != "" then [Trim(piece)] else []
  {
    SplitPiece(list, piece);
    if list == "" {
      NothingListed();
      KeptOneMore([], piece);
      assert [] + [piece] == [piece] && Appended(list, piece) == piece;
    } else {
      KeptOneMore(Split(list), piece);
    }
  }

  predicate Whole(piece: string) { ',' !in piece }

  lemma LastReadsBack(pieces: seq<string>, n: nat)
    requires |pieces| == n + 1 && Whole(pieces[n]) && Kept(Split(Listing(pieces[..n]))) == Kept(pieces[..n])
    ensures Kept(Split(Listing(pieces))) == Kept(pieces)
  {
    AppendedReadsBack(Listing(pieces[..n]), pieces[n]);
  }

  /** Reading a list yields its pieces, but for trimming. */
  lemma {:induction false} ListingReadsBack(pieces: seq<string>)
    requires forall p :: p in pieces ==> Whole(p)
    ensures Kept(Split(Listing(pieces))) == Kept(pieces)
  {
    if pieces == [] {
      NothingListed();
    } else {
      var n := |pieces| - 1;
      ListingReadsBack(pieces[..n]);
      LastReadsBack(pieces, n);
    }
  }

  // ---------------------------------------------------------------- the round trip

  /** No character with a meaning in the lists. */
  predicate ValidName(s: string) { ',' !in s && '<' !in s && '*' !in s }

  ghost predicate ValidOverrides(m: Overrides, trials: set<string>) {
    forall k :: k in m ==>
      ValidName(k) && (m[k].trial.Some? ==> ValidName(m[k].trial.value) && m[k].trial.value in trials)
  }

  /** An entry survives trimming. */
  predicate Survives(name: string, o: Override) { Piece(name, o) != "" && Trimmed(Piece(name, o)) }

  function Head(name: string, o: Override): string { (if o.state.UseDefault? then "*" else "") + name }

  lemma PieceParts(k: string, o: Override)
    requires ValidName(k)
    ensures var p, head := Piece(k, o), Head(k, o);
            && |p| >= |head| && p[..|head|] == head && '<' !in head
            && if o.trial.Some? then |p| > |head| && p[|head|] == '<' && p[|head| + 1..] == o.trial.value else p == head
  {
    var p, head := Piece(k, o), Head(k, o);
    assert p == head + if o.trial.Some? then "<" + o.trial.value else "";
  }

  lemma EntryOfPiece(name: string, o: Override, state: Setting, trials: set<string>)
    requires ValidName(name) && (o.trial.Some? ==> o.trial.value in trials) && (o.state.UseDefault? || o.state == state)
    ensures EntryOf(Piece(name, o), state, trials) == Entry(name, o)
  {
    var p, head := Piece(name, o), Head(name, o);
    PieceParts(name, o);
    NameOfSlice(p, 0, |head|, |p|);
    assert p[0..|p|] == p && p[0..|head|] == head;
    StarredHead(name, o, state);
  }

  lemma FindIs(s: string, c: char, i: nat)
    requires i <= |s| && (forall j :: 0 <= j < i ==> s[j] != c) && (i < |s| ==> s[i] == c)
    ensures Find(s, c) == i
  {}

  /** What is read: a name, a star for the default, and behind "<" a trial that counts if it is known. */
  lemma EntryExactly(name: string, trial: string, state: Setting, trials: set<string>)
    requires '<' !in name && (name == "" || name[0] != '*')
    ensures EntryOf(name, state, trials) == Entry(name, Override(state, None))
    ensures EntryOf("*" + name, state, trials) == Entry(name, Override(UseDefault, None))
    ensures var known := if trial in trials then Some(trial) else None;
            && EntryOf(name + "<" + trial, state, trials) == Entry(name, Override(state, known))
            && EntryOf("*" + name + "<" + trial, state, trials) == Entry(name, Override(UseDefault, known))
  {
    EntryOfHead(name, "", state, trials);
    EntryOfHead("*" + name, "", state, trials);
    EntryOfHead(name, trial, state, trials);
    EntryOfHead("*" + name, trial, state, trials);
    assert ("*" + name)[1..] == name;
  }

  lemma EntryOfHead(head: string, trial: string, state: Setting, trials: set<string>)
    requires '<' !in head
    ensures EntryOf(head, state, trials) == Starred(head, state, None)
    ensures EntryOf(head + "<" + trial, state, trials) ==
            Starred(head, state, if trial in trials then Some(trial) else None)
  {
    FindIs(head, '<', |head|);
    assert head[..|head|] == head;
    var piece := head + "<" + trial;
    FindIs(piece, '<', |head|);
    assert piece[..|head|] == head && piece[|head| + 1..] == trial;
  }

  lemma StarredHead(name: string, o: Override, state: Setting)
    requires ValidName(name) && (o.state.UseDefault? || o.state == state)
    ensures Starred(Head(name, o), state, o.trial) == Entry(name, o)
  {
    assert name == "" || name[0] in name;
    if o.state.UseDefault? { assert Head(name, o)[1..] == name; } else { assert Head(name, o) == name; }
  }

  lemma {:induction false} RegisteredFrom(m: Overrides, entries: seq<Entry>, k: string) returns (i: nat)
    requires k in AllRegistered(m, entries)
    ensures k in m ==> AllRegistered(m, entries)[k] == m[k]
    ensures k !in m ==> i < |entries| && entries[i] == Entry(k, AllRegistered(m, entries)[k])
  {
    if entries == [] { return 0; }
    var n := |entries| - 1;
    if k in AllRegistered(m, entries[..n]) {
      i := RegisteredFrom(m, entries[..n], k);
    } else {
      i := n;
      if k in m { StaysRegistered(m, entries[..n], k); }
    }
  }

  lemma {:induction false} StaysRegistered(m: Overrides, entries: seq<Entry>, k: string)
    ensures k in m ==> k in AllRegistered(m, entries)
    ensures forall i :: 0 <= i < |entries| ==> entries[i].name in AllRegistered(m, entries)
  {
    if entries != [] { StaysRegistered(m, entries[..|entries| - 1], k); }
  }

  lemma AllButLast<T>(s: seq<T>)
    requires s != []
    ensures s[..|s| - 1] + [s[|s| - 1]] == s
  {}

  lemma {:induction false} KeptAll(pieces: seq<string>)
    requires forall i :: 0 <= i < |pieces| ==> pieces[i] != "" && Trimmed(pieces[i])
    ensures Kept(pieces) == pieces
  {
    if pieces != [] {
      var n := |pieces| - 1;
      KeptAll(pieces[..n]);
      TrimAgain(pieces[n]);
      AllButLast(pieces);
    }
  }

  /** Entry `i` is the first of its name. */
  ghost predicate FirstOf(entries: seq<Entry>, k: string, i: int) {
    0 <= i < |entries| && entries[i].name == k && forall j :: 0 <= j < i ==> entries[j].name != k
  }

  lemma FirstOfPrefix(entries: seq<Entry>, k: string, i: int, n: nat)
    requires n <= |entries|
    ensures FirstOf(entries[..n], k, i) <==> FirstOf(entries, k, i) && i < n
  {}

  /** What is registered already stays; otherwise the first entry of a name decides. */
  lemma {:induction false} AllRegisteredExactly(m: Overrides, entries: seq<Entry>, k: string)
    ensures var r := AllRegistered(m, entries);
            && (k in r <==> k in m || exists i :: FirstOf(entries, k, i))
            && (k in m ==> r[k] == m[k])
            && forall i :: k !in m && FirstOf(entries, k, i) ==> r[k] == entries[i].over
  {
    if entries != [] {
      var n := |entries| - 1;
      AllRegisteredExactly(m, entries[..n], k);
      forall i ensures FirstOf(entries[..n], k, i) <==> FirstOf(entries, k, i) && i < n {
        FirstOfPrefix(entries, k, i, n);
      }
      if exists i :: FirstOf(entries[..n], k, i) {
        var i :| FirstOf(entries[..n], k, i);
        assert FirstOf(entries, k, i);
      } else if entries[n].name == k {
        NoneBefore(entries, k, n);
      }
    }
  }

  /** A last entry of a name no entry before has is the first. */
  lemma {:induction false} NoneBefore(entries: seq<Entry>, k: string, n: nat)
    requires n < |entries| && entries[n].name == k && forall i :: i < n ==> !FirstOf(entries, k, i)
    ensures FirstOf(entries, k, n)
  {
    if j :| 0 <= j < n && entries[j].name == k {
      NoneBefore(entries, k, j);
    }
  }

  /** Reading both lists: what was registered stays, then the disabled list, then the enabled one. */
  lemma ReadIntoExactly(m: Overrides, enable: string, disable: string, trials: set<string>, k: string)
    ensures var r, off, on := ReadInto(m, enable, disable, trials), Listed(disable, Disable, trials),
                              Listed(enable, Enable, trials);
            && (k in r <==> k in m || (exists i :: FirstOf(off, k, i)) || exists i :: FirstOf(on, k, i))
            && (k in m ==> r[k] == m[k])
            && (forall i :: k !in m && FirstOf(off, k, i) ==> r[k] == off[i].over && !r[k].state.Enable?)
            && forall i :: k !in m && (forall j :: !FirstOf(off, k, j)) && FirstOf(on, k, i) ==> r[k] == on[i].over
  {
    var off, on := Listed(disable, Disable, trials), Listed(enable, Enable, trials);
    AllRegisteredExactly(m, off, k);
    AllRegisteredExactly(AllRegistered(m, off), on, k);
  }

  lemma {:induction false} KeptFrom(pieces: seq<string>, i: nat) returns (j: nat)
    requires i < |Kept(pieces)|
    ensures j < |pieces| && Kept(pieces)[i] == Trim(pieces[j]) != ""
  {
    var n := |pieces| - 1;
    if i < |Kept(pieces[..n])| { j := KeptFrom(pieces[..n], i); } else { j := n; }
  }

  function Reread(order: seq<string>, m: Overrides, trials: set<string>): Overrides {
    FromCommandLine(Printed(Chosen(order, m, false), m), Printed(Chosen(order, m, true), m), trials)
  }

  lemma NoComma(k: string, o: Override)
    requires ValidName(k) && (o.trial.Some? ==> ValidName(o.trial.value))
    ensures ',' !in Piece(k, o)
  {}

  lemma PiecesReadBack(names: seq<string>, m: Overrides, trials: set<string>)
    requires ValidOverrides(m, trials) && forall k :: k in names ==> k in m
    ensures Kept(Split(Printed(names, m))) == Kept(Pieces(names, m))
  {
    var pieces := Pieces(names, m);
    forall i | 0 <= i < |names| ensures ',' !in pieces[i] {
      assert names[i] in names;
      NoComma(names[i], m[names[i]]);
    }
    ListingReadsBack(pieces);
  }

  // ---------------------------------------------------------------- entries that survive come back

  function EntriesFor(names: seq<string>, m: Overrides): (r: seq<Entry>)
    requires forall k :: k in names ==> k in m
    ensures |r| == |names|
  { seq(|names|, i requires 0 <= i < |names| => Entry(names[i], m[names[i]])) }

  ghost predicate InList(names: seq<string>, m: Overrides, state: Setting) {
    forall k :: k in names ==> k in m && (m[k].state.UseDefault? || m[k].state == state)
  }

  lemma ListComesBack(names: seq<string>, m: Overrides, state: Setting, trials: set<string>)
    requires ValidOverrides(m, trials) && InList(names, m, state) && forall k :: k in names ==> Survives(k, m[k])
    ensures Listed(Printed(names, m), state, trials) == EntriesFor(names, m)
  {
    PiecesReadBack(names, m, trials);
    var pieces := Pieces(names, m);
    forall i | 0 <= i < |pieces| ensures pieces[i] != "" && Trimmed(pieces[i]) {
      assert Survives(names[i], m[names[i]]);
    }
    KeptAll(pieces);
    forall i | 0 <= i < |names| ensures Entries(pieces, state, trials)[i] == EntriesFor(names, m)[i] {
      assert names[i] in names;
      EntryOfPiece(names[i], m[names[i]], state, trials);
    }
  }

  lemma Rebuilt(m: Overrides, off: seq<string>, on: seq<string>)
    requires forall k :: k in off || k in on <==> k in m
    ensures AllRegistered(AllRegistered(map[], EntriesFor(off, m)), EntriesFor(on, m)) == m
  {
    var m1 := AllRegistered(map[], EntriesFor(off, m));
    var r := AllRegistered(m1, EntriesFor(on, m));
    forall k | k in m ensures k in r {
      StaysRegistered(map[], EntriesFor(off, m), k);
      StaysRegistered(m1, EntriesFor(on, m), k);
      if k in off {
        var i :| 0 <= i < |off| && off[i] == k;
        assert EntriesFor(off, m)[i].name == k;
      } else {
        var i :| 0 <= i < |on| && on[i] == k;
        assert EntriesFor(on, m)[i].name == k;
      }
    }
    forall k | k in r ensures k in m && r[k] == m[k] {
      var i := RegisteredFrom(m1, EntriesFor(on, m), k);
      if k in m1 {
        i := RegisteredFrom(map[], EntriesFor(off, m), k);
        assert off[i] in off;
      } else {
        assert on[i] in on;
      }
    }
  }

  lemma AllComeBack(order: seq<string>, m: Overrides, trials: set<string>)
    requires ValidOverrides(m, trials) && (forall k :: k in order <==> k in m)
    requires forall k :: k in m ==> Survives(k, m[k])
    ensures Reread(order, m, trials) == m
  {
    var off, on := Chosen(order, m, true), Chosen(order, m, false);
    ListComesBack(off, m, Disable, trials);
    ListComesBack(on, m, Enable, trials);
    Rebuilt(m, off, on);
  }

  // ---------------------------------------------------------------- and others do not

  /** A re-read override was read from the trimmed piece of some override. */
  ghost predicate ReadFrom(m: Overrides, e: Entry, k: string, state: Setting, trials: set<string>) {
    && k in m && !state.UseDefault? && (m[k].state.UseDefault? || m[k].state == state)
    && Trim(Piece(k, m[k])) != "" && EntryOf(Trim(Piece(k, m[k])), state, trials) == e
  }

  lemma ListedFrom(names: seq<string>, m: Overrides, state: Setting, trials: set<string>, i: nat) returns (k: string)
    requires ValidOverrides(m, trials) && InList(names, m, state) && !state.UseDefault?
    requires i < |Listed(Printed(names, m), state, trials)|
    ensures ReadFrom(m, Listed(Printed(names, m), state, trials)[i], k, state, trials)
  {
    PiecesReadBack(names, m, trials);
    var j := KeptFrom(Pieces(names, m), i);
    k := names[j];
    assert k in names;
  }

  lemma RereadFrom(order: seq<string>, m: Overrides, trials: set<string>, k: string)
    returns (k2: string, state: Setting)
    requires ValidOverrides(m, trials) && k in Reread(order, m, trials)
    ensures ReadFrom(m, Entry(k, Reread(order, m, trials)[k]), k2, state, trials)
  {
    var off, on := Chosen(order, m, true), Chosen(order, m, false);
    var m1 := AllRegistered(map[], Listed(Printed(off, m), Disable, trials));
    var i := RegisteredFrom(m1, Listed(Printed(on, m), Enable, trials), k);
    if k in m1 {
      i := RegisteredFrom(map[], Listed(Printed(off, m), Disable, trials), k);
      k2 := ListedFrom(off, m, Disable, trials, i);
      state := Disable;
    } else {
      k2 := ListedFrom(on, m, Enable, trials, i);
      state := Enable;
    }
  }

  lemma NameOfSlice(p: string, a: nat, end: nat, b: nat)
    requires a <= end <= b <= |p| && '<' !in p[..end] && (end < b ==> p[end] == '<')
    ensures Find(p[a..b], '<') == end - a && p[a..b][..end - a] == p[a..end]
  {
    var t := p[a..b];
    assert forall i :: 0 <= i < end - a ==> t[i] == p[..end][a + i];
    assert end < b ==> t[end - a] == p[end];
  }

  /** Trimming a piece can only shorten its name. */
  lemma NameShrinks(k: string, o: Override, state: Setting, trials: set<string>)
    requires ValidName(k) && Trim(Piece(k, o)) != ""
    ensures var n := EntryOf(Trim(Piece(k, o)), state, trials).name;
            |n| < |k| || n == k
  {
    var p, head := Piece(k, o), Head(k, o);
    var a, b := TrimIsSlice(p);
    PieceParts(k, o);
    var end := if b < |head| then b else |head|;
    NameOfTrimmed(p, head, a, b);
    assert o.state.UseDefault? ==> p[0] == head[0] == '*';
    SliceOfHead(k, o, a, end, state, TrialOf(p[a..b], end - a, trials));
  }

  lemma NameOfTrimmed(p: string, head: string, a: nat, b: nat)
    requires |head| <= |p| && p[..|head|] == head && '<' !in head && (|head| < |p| ==> p[|head|] == '<')
    requires a <= b <= |p| && forall i :: 0 <= i < a ==> IsSpace(p[i])
    ensures var end := if b < |head| then b else |head|;
            && a <= end && Find(p[a..b], '<') == end - a && p[a..b][..end - a] == head[a..end]
  {
    var end := if b < |head| then b else |head|;
    assert p[..end] == head[..end] && p[a..end] == head[a..end];
    NameOfSlice(p, a, end, b);
  }

  lemma SliceOfHead(k: string, o: Override, a: nat, end: nat, state: Setting, trial: Option<string>)
    requires ValidName(k) && a <= end <= |Head(k, o)| && (o.state.UseDefault? ==> a == 0 && end > 0)
    ensures var n := Starred(Head(k, o)[a..end], state, trial).name;
            |n| < |k| || n == k
  {
    var h := Head(k, o);
    var s := h[a..end];
    if o.state.UseDefault? {
      assert h == "*" + k && h[1..] == k;
      assert forall i :: 0 <= i < end - 1 ==> s[1..][i] == h[i + 1] == k[i];
      assert s[1..] == k[..end - 1];
    } else {
      assert s == k[a..end];
      assert s == "" || s[0] in k;
    }
  }

  /** Whatever a piece registers, printing that again is no longer than the piece. */
  lemma EntryIsNoLonger(t: string, state: Setting, trials: set<string>)
    requires !state.UseDefault?
    ensures var e := EntryOf(t, state, trials);
            |Piece(e.name, e.over)| <= |t|
  {}

  lemma {:induction false} LongestLost(order: seq<string>, m: Overrides) returns (k: string)
    requires exists k :: k in order && k in m && !Survives(k, m[k])
    ensures k in order && k in m && !Survives(k, m[k])
    ensures forall j :: j in order && j in m && !Survives(j, m[j]) ==> |j| <= |k|
  {
    var n := |order| - 1;
    var last := order[n];
    assert order == order[..n] + [last];
    if exists k :: k in order[..n] && k in m && !Survives(k, m[k]) {
      k := LongestLost(order[..n], m);
      if last in m && !Survives(last, m[last]) && |last| > |k| { k := last; }
    } else {
      k := last;
    }
  }

  /** An entry that reads back as itself survives. */
  lemma OwnEntrySurvives(m: Overrides, k: string, state: Setting, trials: set<string>)
    requires k in m && ReadFrom(m, Entry(k, m[k]), k, state, trials)
    ensures Survives(k, m[k])
  {
    var p := Piece(k, m[k]);
    EntryIsNoLonger(Trim(p), state, trials);
    TrimIsTrimmed(p);
    var a, b := TrimIsSlice(p);
    assert p[0..|p|] == p;
  }

  /** A survivor is read as itself only. */
  lemma SurvivorIsItself(m: Overrides, e: Entry, k: string, state: Setting, trials: set<string>)
    requires ValidOverrides(m, trials) && ReadFrom(m, e, k, state, trials) && Survives(k, m[k])
    ensures e == Entry(k, m[k])
  {
    TrimAgain(Piece(k, m[k]));
    EntryOfPiece(k, m[k], state, trials);
  }

  /** If something does not survive, the longest such name would have to be read from itself. */
  lemma LostIsLost(order: seq<string>, m: Overrides, trials: set<string>)
    requires ValidOverrides(m, trials) && (forall k :: k in order <==> k in m)
    requires exists k :: k in m && !Survives(k, m[k])
    ensures Reread(order, m, trials) != m
  {
    if Reread(order, m, trials) == m {
      var k := LongestLost(order, m);
      var k2, state := RereadFrom(order, m, trials, k);
      if Survives(k2, m[k2]) {
        SurvivorIsItself(m, Entry(k, m[k]), k2, state, trials);
      } else {
        NameShrinks(k2, m[k2], state, trials);
        OwnEntrySurvives(m, k, state, trials);
      }
      assert false;
    }
  }

  lemma RoundTripsExactly(order: seq<string>, m: Overrides, trials: set<string>)
    requires ValidOverrides(m, trials) && (forall k :: k in order <==> k in m)
    ensures Reread(order, m, trials) == m <==> forall k :: k in m ==> Survives(k, m[k])
  {
    if forall k :: k in m ==> Survives(k, m[k]) {
      AllComeBack(order, m, trials);
    } else {
      LostIsLost(order, m, trials);
    }
  }

  /**
    * Reading back the two printed lists, in whatever order they were printed, rebuilds the overrides
    * with their trials exactly when every printed entry is non-empty and has no white space at its ends.
    */
  lemma PrintedReadsBackExactly(m: Overrides, enable: string, disable: string, trials: set<string>)
    requires ValidOverrides(m, trials) && exists order :: PrintedIn(order, m, enable, disable)
    ensures FromCommandLine(enable, disable, trials) == m <==> forall k :: k in m ==> Survives(k, m[k])
  {
    var order :| PrintedIn(order, m, enable, disable);
    RoundTripsExactly(order, m, trials);
  }

  lemma CleanSurvives(k: string, o: Override)
    requires k != "" && Trimmed(k) && (o.trial.Some? ==> Trimmed(o.trial.value))
    ensures Survives(k, o)
  {
    var p := Piece(k, o);
    assert p[0] == if o.state.UseDefault? then '*' else k[0];
    if o.trial.Some? {
      var t := o.trial.value;
      assert p[|p| - 1] == if t == "" then '<' else t[|t| - 1];
    } else {
      assert p[|p| - 1] == k[|k| - 1];
    }
  }

  /** So it does for names and trials that are valid and free of surrounding spaces, the names non-empty. */
  lemma CleanNamesRoundTrip(m: Overrides, enable: string, disable: string, trials: set<string>)
    requires ValidOverrides(m, trials) && exists order :: PrintedIn(order, m, enable, disable)
    requires forall k :: k in m ==> k != "" && Trimmed(k) && (m[k].trial.Some? ==> Trimmed(m[k].trial.value))
    ensures FromCommandLine(enable, disable, trials) == m
  {
    forall k | k in m ensures Survives(k, m[k]) { CleanSurvives(k, m[k]); }
    PrintedReadsBackExactly(m, enable, disable, trials);
  }

  lemma NothingPrinted(m: Overrides, disabled: bool)
    ensures Printed(Chosen([], m, disabled), m) == ""
  {}

  lemma OnePrinted(k: string, m: Overrides)
    requires k in m && !m[k].state.Disable?
    ensures Printed(Chosen([k], m, false), m) == Piece(k, m[k]) && Printed(Chosen([k], m, true), m) == ""
  {
    NothingPrinted(m, false);
    NothingPrinted(m, true);
    PrintedOneMore([], k, m);
    assert [] + [k] == [k];
  }

  /** A valid name that ends in a space is read back without it. */
  lemma TrailingSpaceIsLost(trials: set<string>) returns (k: string, m: Overrides)
    ensures ValidName(k) && m == map[k := Override(Enable, None)]
    ensures PrintedIn([k], m, k, "") && FromCommandLine(k, "", trials) != m
  {
    var o := Override(Enable, None);
    k := "A ";
    m := map[k := o];
    assert Piece(k, o) == k && !Trimmed(k) && !Survives(k, o);
    OnePrinted(k, m);
    assert PrintedIn([k], m, k, "");
    PrintedReadsBackExactly(m, k, "", trials);
  }
}
