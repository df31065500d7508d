/**
  * command_line.cc on POSIX: argv is normalised so that switches come before arguments, and the last
  * value given for each switch can be looked up.
  */
module CommandLine {
  import opened Strings
  import opened Wrappers

  // ---------------------------------------------------------------- switches

  function PrefixLength(s: string): nat { if "--" <= s then 2 else if "-" <= s then 1 else 0 }

  /** The position of the first equals sign, or the length. */
  function EqualsPosition(s: string): (i: nat)
    ensures i <= |s| && (i < |s| ==> s[i] == '=') && forall j :: 0 <= j < i ==> s[j] != '='
  {
    if s == "" || s[0] == '=' then 0 else EqualsPosition(s[1..]) + 1
  }

  /** The name keeps its prefix. */
  datatype Switch = Switch(name: string, value: string)

  function Key(s: Switch): string { s.name[PrefixLength(s.name)..] }

  /** IsSwitch */
  function Split(arg: string): Option<Switch> {
    var p := PrefixLength(arg);
    if p == 0 || p == |arg| then None
    else
      var i := EqualsPosition(arg);
      Some(Switch(arg[..i], if i < |arg| then arg[i + 1..] else ""))
  }

  /** A switch is anything of two characters or more that begins with a dash, but for two dashes alone. */
  lemma SwitchExactly(arg: string)
    ensures Split(arg).Some? <==> |arg| >= 2 && arg[0] == '-' && arg != "--"
    ensures Split(arg).Some? ==>
              var s := Split(arg).value;
              && '=' !in s.name
              && (arg == s.name + "=" + s.value || (arg == s.name && s.value == ""))
              && (s.name == "--" + Key(s) || (s.name == "-" + Key(s) && !("-" <= Key(s))))
  {
    var i := EqualsPosition(arg);
    if Split(arg).Some? {
      var s := Split(arg).value;
      assert i < |arg| ==> arg == arg[..i] + [arg[i]] + arg[i + 1..];
      assert i >= PrefixLength(arg);
      assert s.name[..PrefixLength(arg)] == arg[..PrefixLength(arg)];
    }
  }

  /** How a switch is written back into argv. */
  function Combined(s: Switch): string {
    (if PrefixLength(s.name) == 0 then "--" + s.name else s.name) + if s.value != "" then "=" + s.value else ""
  }

  /** A switch appended by its bare name is written with two dashes, and reads back under that name. */
  lemma BareNameReadsBack(name: string, value: string)
    requires name != "" && name[0] != '-' && '=' !in name
    ensures Split(Combined(Switch(name, value))) == Some(Switch("--" + name, value))
    ensures Key(Switch("--" + name, value)) == Key(Switch(name, value)) == name
  {
    var head := "--" + name;
    var arg := Combined(Switch(name, value));
    assert head[2..] == name && name[0..] == name;
    assert arg == head + if value != "" then "=" + value else "";
    var i := EqualsPosition(arg);
    assert forall j :: 0 <= j < |head| ==> arg[j] == head[j];
    assert '=' !in head;
    if value != "" {
      assert arg[|head|] == '=' && arg[|head| + 1..] == value;
    }
    assert arg[..|head|] == head;
  }

  function Combineds(switches: seq<Switch>): (r: seq<string>)
    ensures |r| == |switches|
  { seq(|switches|, i requires 0 <= i < |switches| => Combined(switches[i])) }

  /** The value looked up for a key is the last one given. */
  function Values(switches: seq<Switch>): map<string, string> {
    if switches == [] then map[]
    else
      var last := switches[|switches| - 1];
      Values(switches[..|switches| - 1])[Key(last) := last.value]
  }

  lemma {:induction false} ValuesAreLast(switches: seq<Switch>, i: nat)
    requires i < |switches| && forall j :: i < j < |switches| ==> Key(switches[j]) != Key(switches[i])
    ensures Key(switches[i]) in Values(switches) && Values(switches)[Key(switches[i])] == switches[i].value
  {
    if i < |switches| - 1 { ValuesAreLast(switches[..|switches| - 1], i); }
  }

  lemma {:induction false} ValuesOnlyGiven(switches: seq<Switch>, key: string) returns (i: nat)
    requires key in Values(switches)
    ensures i < |switches| && Key(switches[i]) == key
  {
    var n := |switches| - 1;
    if Key(switches[n]) == key { i := n; } else { i := ValuesOnlyGiven(switches[..n], key); }
  }

  // ---------------------------------------------------------------- what a list of arguments says

  const TERMINATOR: string := "--"

  /** The switches and the other arguments, each in the order given. */
  datatype Parsed = Parsed(switches: seq<Switch>, args: seq<string>)

  /** An argument after trimming, and what it is as a switch. */
  datatype Item = Item(arg: string, asSwitch: Option<Switch>)

  function ItemOf(given: string): Item { Item(Trim(given), Split(Trim(given))) }

  function Items(args: seq<string>): (items: seq<Item>)
    ensures |items| == |args|
  { seq(|args|, i requires 0 <= i < |args| => ItemOf(args[i])) }

  function Parse(items: seq<Item>, on: bool): Parsed {
    if items == [] then Parsed([], [])
    else
      var on' := on && items[0].arg != TERMINATOR;
      Prepended(items[0], on', Parse(items[1..], on'))
  }

  function Prepended(item: Item, on: bool, rest: Parsed): Parsed {
    if on && item.asSwitch.Some? then rest.(switches := [item.asSwitch.value] + rest.switches)
    else rest.(args := [item.arg] + rest.args)
  }

  function Joined(p: Parsed, q: Parsed): Parsed { Parsed(p.switches + q.switches, p.args + q.args) }

  /** Whether switches are still recognised after these. */
  predicate On(items: seq<Item>, on: bool) {
    if items == [] then on else On(items[1..], on && items[0].arg != TERMINATOR)
  }

  datatype Line = Line(argv: seq<string>, beginArgs: nat, switches: map<string, string>)

  function Written(program: string, p: Parsed): Line {
    Line([program] + Combineds(p.switches) + p.args, 1 + |p.switches|, Values(p.switches))
  }

  function LineOf(argv: seq<string>): Line {
    if argv == [] then Written("", Parsed([], [])) else Written(Trim(argv[0]), Parse(Items(argv[1..]), true))
  }

  // ---------------------------------------------------------------- the class

  class CommandLine {
    var argv: seq<string>
    var beginArgs: nat
    var switches: map<string, string>

    ghost predicate Valid()
      reads this
    { 1 <= beginArgs <= |argv| }

    ghost function Now(): Line
      reads this
    { Line(argv, beginArgs, switches) }

    constructor (argv: seq<string>)
      ensures Valid() && Now() == LineOf(argv)
    {
      this.argv, beginArgs, switches := [""], 1, map[];
      new;
      InitFromArgv(argv);
    }

    method InitFromArgv(argv: seq<string>)
      modifies this
      ensures Valid() && Now() == LineOf(argv)
    {
      this.argv := [""];
      switches := map[];
      beginArgs := 1;
      SetProgram(if argv == [] then "" else argv[0]);
      AppendSwitchesAndArguments(argv, this.argv[0], Parsed([], []));
      ghost var parsed := Parse(Items(if argv == [] then [] else argv[1..]), true);
      assert Joined(Parsed([], []), parsed) == parsed;
    }

    method SetProgram(program: string)
      requires Valid()
      modifies this`argv
      ensures argv == old(argv)[0 := Trim(program)]
    {
      argv := argv[0 := Trim(program)];
    }

    /** Inserted at the divider, which moves. */
    method AppendSwitchNative(name: string, value: string)
      requires Valid()
      modifies this
      ensures Valid() && beginArgs == old(beginArgs) + 1
      ensures argv == old(argv)[..old(beginArgs)] + [Combined(Switch(name, value))] + old(argv)[old(beginArgs)..]
      ensures switches == old(switches)[Key(Switch(name, value)) := value]
    {
      var combined := name;
      var prefixLength := PrefixLength(combined);
      switches := switches[name[prefixLength..] := value];
      if prefixLength == 0 { combined := "--" + combined; }
      if value != "" { combined := combined + ("=" + value); }
      assert combined == Combined(Switch(name, value));
      argv := argv[..beginArgs] + [combined] + argv[beginArgs..];
      beginArgs := beginArgs + 1;
    }

    method AppendArgNative(value: string)
      modifies this`argv
      ensures argv == old(argv) + [value]
    {
      argv := argv + [value];
    }

    /** From the second element on, after what the line already holds. */
    method AppendSwitchesAndArguments(args: seq<string>, ghost program: string, ghost p: Parsed)
      requires Valid() && Now() == Written(program, p)
      modifies this
      ensures Valid()
      ensures Now() == Written(program, Joined(p, Parse(Items(if args == [] then [] else args[1..]), true)))
    {
      var parseSwitches, i := true, 1;
      ghost var items := Items(if args == [] then [] else args[1..]);
      assert items[..0] == [] && Joined(p, Parsed([], [])) == p;
      while i < |args|
        invariant 1 <= i && i <= |items| + 1 && parseSwitches == On(items[..i - 1], true)
        invariant Valid() && Now() == Written(program, Joined(p, Parse(items[..i - 1], true)))
      {
        ParseOneMore(items, i - 1, true);
        ghost var on := parseSwitches && items[i - 1].arg != TERMINATOR;
        OneMoreJoined(p, Parse(items[..i - 1], true), items[i - 1], on);
        parseSwitches := AppendOne(args[i], parseSwitches, program, Joined(p, Parse(items[..i - 1], true)));
        i := i + 1;
      }
      assert items[..|items|] == items;
    }

    method AppendOne(given: string, parseSwitches: bool, ghost program: string, ghost p: Parsed) returns (on: bool)
      requires Valid() && Now() == Written(program, p)
      modifies this
      ensures on == (parseSwitches && ItemOf(given).arg != TERMINATOR)
      ensures Valid() && Now() == Written(program, OneMore(p, ItemOf(given), on))
    {
      var arg := Trim(given);
      on := parseSwitches && arg != TERMINATOR;
      var s := Split(arg);
      WrittenOneMore(program, p, s, arg);
      if on && s.Some? {
        AppendSwitchNative(s.value.name, s.value.value);
      } else {
        AppendArgNative(arg);
      }
    }
  }

  lemma {:induction false} ParseBoth(a: seq<Item>, b: seq<Item>, on: bool)
    ensures Parse(a + b, on) == Joined(Parse(a, on), Parse(b, On(a, on)))
    ensures On(a + b, on) == On(b, On(a, on))
  {
    if a == [] {
      assert a + b == b;
    } else {
      var on' := on && a[0].arg != TERMINATOR;
      assert (a + b)[1..] == a[1..] + b;
      ParseBoth(a[1..], b, on');
      PrependedJoined(a[0], on', Parse(a[1..], on'), Parse(b, On(a, on)));
    }
  }

  lemma PrependedJoined(item: Item, on: bool, p: Parsed, q: Parsed)
    ensures Prepended(item, on, Joined(p, q)) == Joined(Prepended(item, on, p), q)
  {}

  function OneMore(p: Parsed, item: Item, on: bool): Parsed {
    if on && item.asSwitch.Some? then p.(switches := p.switches + [item.asSwitch.value])
    else p.(args := p.args + [item.arg])
  }

  lemma OneMoreJoined(p: Parsed, q: Parsed, item: Item, on: bool)
    ensures OneMore(Joined(p, q), item, on) == Joined(p, OneMore(q, item, on))
  {}

  lemma ParseOneMore(items: seq<Item>, i: nat, on: bool)
    requires i < |items|
    ensures var on' := On(items[..i], on) && items[i].arg != TERMINATOR;
            && On(items[..i + 1], on) == on'
            && Parse(items[..i + 1], on) == OneMore(Parse(items[..i], on), items[i], on')
  {
    var a, x := items[..i], items[i];
    ParseBoth(a, [x], on);
    assert [x][1..] == [] && items[..i + 1] == a + [x];
  }

  function Inserted(w: Line, s: Switch): Line
    requires w.beginArgs <= |w.argv|
  {
    Line(w.argv[..w.beginArgs] + [Combined(s)] + w.argv[w.beginArgs..], w.beginArgs + 1, w.switches[Key(s) := s.value])
  }

  /** Inserting at the divider and pushing at the end are what writing one more thing takes. */
  lemma WrittenOneMore(program: string, p: Parsed, s: Option<Switch>, arg: string)
    ensures var w := Written(program, p);
            && Written(program, p.(args := p.args + [arg])) == w.(argv := w.argv + [arg])
            && (s.Some? ==> Written(program, p.(switches := p.switches + [s.value])) == Inserted(w, s.value))
  {
    var w := Written(program, p);
    assert w.argv == [program] + Combineds(p.switches) + p.args;
    assert w.argv[w.beginArgs..] == p.args;
    if s.Some? {
      var more := p.switches + [s.value];
      assert more[..|p.switches|] == p.switches;
      assert Combineds(more) == Combineds(p.switches) + [Combined(s.value)];
    }
  }

  // ---------------------------------------------------------------- what is taken for a switch

  /** The items before the first bare "--". */
  function Front(items: seq<Item>): seq<Item> {
    if items == [] || items[0].arg == "--" then [] else [items[0]] + Front(items[1..])
  }

  function SwitchesOf(items: seq<Item>): seq<Switch> {
    if items == [] then []
    else (if items[0].asSwitch.Some? then [items[0].asSwitch.value] else []) + SwitchesOf(items[1..])
  }

  /** The text of those that are no switches. */
  function OthersOf(items: seq<Item>): seq<string> {
    if items == [] then []
    else (if items[0].asSwitch.None? then [items[0].arg] else []) + OthersOf(items[1..])
  }

  function Texts(items: seq<Item>): (r: seq<string>)
    ensures |r| == |items|
  { seq(|items|, i requires 0 <= i < |items| => items[i].arg) }

  lemma {:induction false} FrontIsPrefix(items: seq<Item>)
    ensures Front(items) <= items && (forall i :: 0 <= i < |Front(items)| ==> items[i].arg != "--")
    ensures |Front(items)| < |items| ==> items[|Front(items)|].arg == "--"
  {
    if items != [] && items[0].arg != "--" { FrontIsPrefix(items[1..]); }
  }

  lemma {:induction false} OffTakesAll(items: seq<Item>)
    ensures Parse(items, false) == Parsed([], Texts(items))
  {
    if items != [] {
      OffTakesAll(items[1..]);
      assert Texts(items) == [items[0].arg] + Texts(items[1..]);
    }
  }

  /** Switches before arguments, by where the first bare "--" is. */
  function Sorted(items: seq<Item>): Parsed {
    var front := Front(items);
    FrontIsPrefix(items);
    Parsed(SwitchesOf(front), OthersOf(front) + Texts(items[|front|..]))
  }

  lemma SortedOneMore(item: Item, rest: seq<Item>)
    requires item.arg != "--"
    ensures Sorted([item] + rest) == Prepended(item, true, Sorted(rest))
  {
    var items, front := [item] + rest, Front(rest);
    FrontIsPrefix(rest);
    assert items[1..] == rest && Front(items) == [item] + front;
    assert items[|front| + 1..] == rest[|front|..];
    SortOne(item, front);
    AppendTexts(if item.asSwitch.None? then [item.arg] else [], OthersOf(front), Texts(rest[|front|..]));
  }

  lemma SortOne(item: Item, front: seq<Item>)
    ensures SwitchesOf([item] + front) ==
            (if item.asSwitch.Some? then [item.asSwitch.value] else []) + SwitchesOf(front)
    ensures OthersOf([item] + front) == (if item.asSwitch.None? then [item.arg] else []) + OthersOf(front)
  {
    assert ([item] + front)[1..] == front;
  }

  lemma AppendTexts(a: seq<string>, b: seq<string>, c: seq<string>)
    ensures a + b + c == a + (b + c)
  {}

  lemma ParseFromTerminator(items: seq<Item>)
    requires items == [] || items[0].arg == "--"
    ensures Parse(items, true) == Parsed([], Texts(items))
  {
    if items != [] {
      OffTakesAll(items[1..]);
      assert Texts(items) == [items[0].arg] + Texts(items[1..]);
    }
  }

  lemma SortedFromTerminator(items: seq<Item>)
    requires items == [] || items[0].arg == "--"
    ensures Sorted(items) == Parsed([], Texts(items))
  {
    assert items[0..] == items && Front(items) == [];
  }

  /**
    * The switches are those before the first bare "--", in order. The arguments are the rest of what is
    * before it, and all from it on, itself included.
    */
  lemma {:induction false} ParseExactly(items: seq<Item>)
    ensures Parse(items, true) == Sorted(items)
  {
    if items == [] || items[0].arg == "--" {
      SortedFromTerminator(items);
      ParseFromTerminator(items);
    } else {
      var item, rest := items[0], items[1..];
      ParseExactly(rest);
      SortedOneMore(item, rest);
      assert [item] + rest == items;
    }
  }

  // ---------------------------------------------------------------- parsing what was written

  /** What parsing can yield: a prefixed name without equals sign, a value that does not end in a space. */
  predicate WellFormed(s: Switch) {
    && PrefixLength(s.name) > 0 && '=' !in s.name
    && (s.value != "" ==> !IsSpace(s.value[|s.value| - 1]))
  }

  lemma SplitIsWellFormed(arg: string)
    requires Trimmed(arg) && Split(arg).Some?
    ensures WellFormed(Split(arg).value)
  {
    var i := EqualsPosition(arg);
    assert i >= PrefixLength(arg);
    assert PrefixLength(arg) == 2 ==> "--" <= arg[..i];
    assert "-" <= arg[..i];
  }

  /** It has a value, or else a name that is more than a prefix and does not end in a space. */
  predicate Stable(s: Switch) { s.value != "" || (Key(s) != "" && !IsSpace(s.name[|s.name| - 1])) }

  lemma CombinedParts(s: Switch)
    requires WellFormed(s)
    ensures var c, n := Combined(s), |s.name|;
            && n <= |c| && c[..n] == s.name && EqualsPosition(c) == n && c[0] == '-'
            && (s.value == "" ==> c == s.name)
            && (s.value != "" ==> n < |c| && c[n + 1..] == s.value && c[|c| - 1] == s.value[|s.value| - 1])
  {
    var c, n := Combined(s), |s.name|;
    assert s.value == "" ==> c == s.name;
    assert s.value != "" ==> c[n] == '=';
    assert forall j :: 0 <= j < n ==> c[j] == s.name[j];
  }

  lemma StableSwitchAgain(s: Switch)
    requires WellFormed(s) && Stable(s)
    ensures Trim(Combined(s)) == Combined(s) != TERMINATOR && Split(Combined(s)) == Some(s)
  {
    var c := Combined(s);
    CombinedParts(s);
    TrimAgain(c);
    assert PrefixLength(c) == PrefixLength(s.name);
  }

  lemma UnstableSwitchAgain(s: Switch)
    requires WellFormed(s) && !Stable(s)
    ensures var again := Split(Trim(Combined(s)));
            again.None? || Combined(again.value) != Combined(s)
  {
    var c := Combined(s);
    CombinedParts(s);
    TrimIsTrimmed(c);
    var t := Trim(c);
    if Split(t).Some? {
      assert '=' !in t;
      assert EqualsPosition(t) == |t|;
      assert Split(t).value == Switch(t, "") && Combined(Switch(t, "")) == t;
    }
  }

  /** The items of trimmed arguments, `split` being how an argument is read as a switch. */
  ghost predicate FromArgs(items: seq<Item>, split: string -> Option<Switch>) {
    forall i :: 0 <= i < |items| ==> items[i].asSwitch == split(items[i].arg)
  }

  lemma {:induction false} ParsedFrom(items: seq<Item>, on: bool, k: nat) returns (i: nat)
    requires k < |Parse(items, on).switches|
    ensures i < |items| && items[i].asSwitch == Some(Parse(items, on).switches[k])
  {
    var x, on' := items[0], on && items[0].arg != TERMINATOR;
    if on' && x.asSwitch.Some? {
      if k == 0 { i := 0; return; }
      i := ParsedFrom(items[1..], on', k - 1);
    } else {
      i := ParsedFrom(items[1..], on', k);
    }
    i := i + 1;
  }

  lemma ParsesWellFormed(args: seq<string>, on: bool)
    ensures var p := Parse(Items(args), on);
            forall k :: 0 <= k < |p.switches| ==> WellFormed(p.switches[k])
  {
    var p := Parse(Items(args), on);
    forall k | 0 <= k < |p.switches| ensures WellFormed(p.switches[k]) {
      var i := ParsedFrom(Items(args), on, k);
      TrimIsTrimmed(args[i]);
      SplitIsWellFormed(Trim(args[i]));
    }
  }

  /** The arguments left over are left over again. */
  lemma {:induction false} ArgsAgain(items: seq<Item>, on: bool, split: string -> Option<Switch>, again: seq<Item>)
    requires FromArgs(items, split) && FromArgs(again, split)
    requires var args := Parse(items, on).args;
             |again| == |args| && forall i :: 0 <= i < |args| ==> again[i].arg == args[i]
    ensures Parse(again, on) == Parsed([], Parse(items, on).args)
  {
    if items != [] {
      var x, on' := items[0], on && items[0].arg != TERMINATOR;
      var rest := Parse(items[1..], on').args;
      if on' && x.asSwitch.Some? {
        assert Parse(items, on).args == rest;
        assert on' == on;
        ArgsAgain(items[1..], on', split, again);
      } else {
        assert Parse(items, on).args == [x.arg] + rest;
        assert again[0] == x;
        ArgsAgain(items[1..], on', split, again[1..]);
      }
    }
  }

  /** Arguments come out of parsing trimmed. */
  lemma {:induction false} ArgsAreTrimmed(items: seq<Item>, on: bool)
    requires forall i :: 0 <= i < |items| ==> Trimmed(items[i].arg)
    ensures forall i :: 0 <= i < |Parse(items, on).args| ==> Trimmed(Parse(items, on).args[i])
  {
    if items != [] { ArgsAreTrimmed(items[1..], on && items[0].arg != TERMINATOR); }
  }

  lemma ArgItemsAgain(args: seq<string>, on: bool)
    ensures var rest := Parse(Items(args), on).args;
            Parse(Items(rest), on) == Parsed([], rest)
  {
    var items := Items(args);
    forall i | 0 <= i < |items| ensures Trimmed(items[i].arg) { TrimIsTrimmed(args[i]); }
    ArgsAreTrimmed(items, on);
    var rest := Parse(items, on).args;
    forall i | 0 <= i < |rest| ensures Items(rest)[i].arg == rest[i] { TrimAgain(rest[i]); }
    ArgsAgain(items, on, Split, Items(rest));
  }

  /** And when switches are no longer recognised, everything is. */
  lemma {:induction false} OffYieldsNoSwitch(items: seq<Item>)
    ensures Parse(items, false).switches == []
  {
    if items != [] { OffYieldsNoSwitch(items[1..]); }
  }

  lemma {:induction false} AllSwitches(items: seq<Item>, switches: seq<Switch>)
    requires |items| == |switches|
    requires forall i :: 0 <= i < |items| ==> items[i].asSwitch == Some(switches[i]) && items[i].arg != TERMINATOR
    ensures Parse(items, true) == Parsed(switches, []) && On(items, true)
  {
    if items != [] {
      AllSwitches(items[1..], switches[1..]);
      assert [switches[0]] + switches[1..] == switches;
    }
  }

  lemma StableSwitchesAgain(switches: seq<Switch>)
    requires forall i :: 0 <= i < |switches| ==> WellFormed(switches[i]) && Stable(switches[i])
    ensures Parse(Items(Combineds(switches)), true) == Parsed(switches, []) && On(Items(Combineds(switches)), true)
  {
    var items := Items(Combineds(switches));
    forall i | 0 <= i < |items| ensures items[i].asSwitch == Some(switches[i]) && items[i].arg != TERMINATOR {
      StableSwitchAgain(switches[i]);
    }
    AllSwitches(items, switches);
  }

  /** If there are as many switches as items, each item is one. */
  lemma {:induction false} EachIsSwitch(items: seq<Item>, on: bool)
    ensures |Parse(items, on).switches| <= |items|
    ensures |Parse(items, on).switches| == |items| ==>
              forall i :: 0 <= i < |items| ==> items[i].asSwitch == Some(Parse(items, on).switches[i])
  {
    if items != [] { EachIsSwitch(items[1..], on && items[0].arg != TERMINATOR); }
  }

  lemma ItemsBoth(a: seq<string>, b: seq<string>)
    ensures Items(a + b) == Items(a) + Items(b)
  {}

  /** What parsing the written line sees. */
  lemma Reparsed(args: seq<string>)
    ensures var p := Parse(Items(args), true);
            var q := Parse(Items(Combineds(p.switches)), true);
            var again := Parse(Items(Combineds(p.switches) + p.args), true);
            && again.switches == q.switches
            && (q == Parsed(p.switches, []) && On(Items(Combineds(p.switches)), true) ==> again == p)
  {
    var p := Parse(Items(args), true);
    var a, b := Items(Combineds(p.switches)), Items(p.args);
    ItemsBoth(Combineds(p.switches), p.args);
    ParseBoth(a, b, true);
    ArgItemsAgain(args, true);
    OffYieldsNoSwitch(b);
    var q, r := Parse(a, true), Parse(b, On(a, true));
    assert Parse(Items(Combineds(p.switches) + p.args), true) == Joined(q, r);
    assert r.switches == [];
    assert q.switches + [] == q.switches && [] + p.args == p.args;
  }

  lemma WrittenAgain(program: string, p: Parsed)
    requires Trimmed(program)
    ensures LineOf(Written(program, p).argv) == Written(program, Parse(Items(Combineds(p.switches) + p.args), true))
  {
    assert Written(program, p).argv[1..] == Combineds(p.switches) + p.args;
    TrimAgain(program);
  }

  lemma SameWritten(program: string, p: Parsed, q: Parsed)
    requires Written(program, p) == Written(program, q)
    ensures |p.switches| == |q.switches| && Combineds(p.switches) == Combineds(q.switches)
  {
    var n, v, w := |p.switches|, Written(program, p).argv, Written(program, q).argv;
    assert v[1..n + 1] == Combineds(p.switches) && w[1..n + 1] == Combineds(q.switches);
  }

  /**
    * Initialising from a line's own argv gives the same line exactly when every switch had a value, or
    * else a name that is more than its prefix and does not end in a space.
    */
  lemma ReparseIsIdentityExactly(argv: seq<string>)
    ensures LineOf(LineOf(argv).argv) == LineOf(argv) <==>
            var switches := Parse(Items(if argv == [] then [] else argv[1..]), true).switches;
            forall i :: 0 <= i < |switches| ==> Stable(switches[i])
  {
    var args, program := if argv == [] then [] else argv[1..], if argv == [] then "" else Trim(argv[0]);
    var p := Parse(Items(args), true);
    ParsesWellFormed(args, true);
    var again := Parse(Items(Combineds(p.switches) + p.args), true);
    if argv != [] { TrimIsTrimmed(argv[0]); }
    WrittenAgain(program, p);
    Reparsed(args);
    if forall i :: 0 <= i < |p.switches| ==> Stable(p.switches[i]) {
      StableSwitchesAgain(p.switches);
    } else if Written(program, again) == Written(program, p) {
      SameWritten(program, again, p);
      UnstableGivesAnother(p.switches, again.switches);
    }
  }

  lemma UnstableGivesAnother(switches: seq<Switch>, again: seq<Switch>)
    requires forall i :: 0 <= i < |switches| ==> WellFormed(switches[i])
    requires exists i :: 0 <= i < |switches| && !Stable(switches[i])
    requires again == Parse(Items(Combineds(switches)), true).switches
    ensures |again| == |switches| ==> Combineds(again) != Combineds(switches)
  {
    EachIsSwitch(Items(Combineds(switches)), true);
    var i :| 0 <= i < |switches| && !Stable(switches[i]);
    UnstableSwitchAgain(switches[i]);
    if |again| == |switches| {
      assert Items(Combineds(switches))[i].asSwitch == Some(again[i]);
      assert Combineds(again)[i] != Combineds(switches)[i];
    }
  }

  /** A switch with an empty name and value is written as the terminator and ends the switches. */
  lemma EmptySwitchIsLost() returns (argv: seq<string>)
    ensures LineOf(LineOf(argv).argv) != LineOf(argv)
  {
    argv := ["prog", "--="];
    var item := Item("--=", Some(Switch("--", "")));
    TrimAgain("--=");
    assert EqualsPosition("--=") == 2;
    assert "--=" [..2] == "--" && "--=" [3..] == "";
    assert ItemOf("--=") == item;
    assert argv[1..] == ["--="] && Items(argv[1..]) == [item];
    assert [item][1..] == [];
    assert Parse([item], true).switches == [Switch("--", "")];
    assert !Stable(Switch("--", ""));
    ReparseIsIdentityExactly(argv);
  }
}
