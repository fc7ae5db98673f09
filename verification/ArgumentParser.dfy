/** The command line parser: it takes known options and their values out of the argument array in place. */
module ArgumentParsers {
  import opened Common

  datatype Input = Input(isArg: bool, defaultValue: string)

  type Options = map<string, Input>

  /** An option met on the command line, and the value it got. */
  datatype Found = Found(name: string, value: string)

  /** What is left of the arguments, and the options met, both in order. */
  datatype Parsed = Parsed(left: seq<string>, found: seq<Found>)

  /** An option that takes an argument takes the next one, unless that begins with a dash; an empty one is taken. */
  predicate TakesValue(options: Options, args: seq<string>, i: nat)
    requires i < |args|
  {
    && args[i] in options && options[args[i]].isArg
    && i + 1 < |args| && (args[i + 1] == "" || args[i + 1][0] != '-')
  }

  /** The parser as a function on lists. */
  function Parse(options: Options, args: seq<string>): (r: Parsed)
    ensures |r.left| <= |args|
  {
    if args == [] then Parsed([], [])
    else if args[0] !in options then
      var r := Parse(options, args[1..]);
      Parsed([args[0]] + r.left, r.found)
    else if TakesValue(options, args, 0) then
      var r := Parse(options, args[2..]);
      Parsed(r.left, [Found(args[0], args[1])] + r.found)
    else
      var r := Parse(options, args[1..]);
      Parsed(r.left, [Found(args[0], options[args[0]].defaultValue)] + r.found)
  }

  /** `std::map::insert` of one after the other: the first value of a name stays. */
  function InsertAll(m: map<string, string>, found: seq<Found>): map<string, string>
    decreases found
  {
    if found == [] then m
    else InsertAll(if found[0].name in m then m else m[found[0].name := found[0].value], found[1..])
  }

  lemma {:induction false} InsertAllAppend(m: map<string, string>, a: seq<Found>, b: seq<Found>)
    ensures InsertAll(m, a + b) == InsertAll(InsertAll(m, a), b)
    decreases a
  {
    if a == [] {
      assert a + b == b;
    } else {
      assert (a + b)[1..] == a[1..] + b;
      InsertAllAppend(if a[0].name in m then m else m[a[0].name := a[0].value], a[1..], b);
    }
  }

  predicate IsFirst(found: seq<Found>, i: int, name: string) {
    0 <= i < |found| && found[i].name == name && forall j :: 0 <= j < i ==> found[j].name != name
  }

  /** Looking up an option gives the value of its first occurrence, unless an earlier command line had it already. */
  lemma {:induction false} FirstOccurrenceWins(m: map<string, string>, found: seq<Found>, name: string)
    ensures name in InsertAll(m, found) <==> name in m || exists i :: 0 <= i < |found| && found[i].name == name
    ensures name in m ==> InsertAll(m, found)[name] == m[name]
    ensures forall i :: name !in m && IsFirst(found, i, name) ==> InsertAll(m, found)[name] == found[i].value
    decreases found
  {
    if found != [] {
      var t := if found[0].name in m then m else m[found[0].name := found[0].value];
      FirstOccurrenceWins(t, found[1..], name);
      assert forall i :: 1 <= i < |found| ==> found[i] == found[1..][i - 1];
      if exists i :: 0 <= i < |found| && found[i].name == name && found[0].name != name {
        var i :| 0 <= i < |found| && found[i].name == name && found[0].name != name;
        assert found[1..][i - 1].name == name;
      }
      forall i | name !in m && IsFirst(found, i, name)
        ensures InsertAll(m, found)[name] == found[i].value
      {
        if i > 0 {
          assert found[0].name != name;
          assert found[1..][i - 1] == found[i];
          forall j | 0 <= j < i - 1 ensures found[1..][j].name != name { assert found[1..][j] == found[j + 1]; }
          assert IsFirst(found[1..], i - 1, name);
        }
      }
    }
  }

  // ---- the role of each argument ----

  datatype Role = Left | Option | Value

  /** Which role the parser gives to each argument. */
  function Roles(options: Options, args: seq<string>): (r: seq<Role>)
    ensures |r| == |args|
  {
    if args == [] then []
    else if args[0] !in options then [Left] + Roles(options, args[1..])
    else if TakesValue(options, args, 0) then [Option, Value] + Roles(options, args[2..])
    else [Option] + Roles(options, args[1..])
  }

  /** The arguments with this role, in their order. */
  function Pick(args: seq<string>, roles: seq<Role>, role: Role): seq<string>
    requires |args| == |roles|
  {
    if args == [] then []
    else (if roles[0] == role then [args[0]] else []) + Pick(args[1..], roles[1..], role)
  }

  function Names(found: seq<Found>): seq<string> {
    if found == [] then [] else [found[0].name] + Names(found[1..])
  }

  /** What is left are the arguments that are neither options nor their values, in the original order; the options met are the others' names. */
  lemma {:induction false} EveryArgumentHasOneRole(options: Options, args: seq<string>)
    ensures var r, roles := Parse(options, args), Roles(options, args);
      && r.left == Pick(args, roles, Left)
      && Names(r.found) == Pick(args, roles, Option)
      && |r.left| + |r.found| + |Pick(args, roles, Value)| == |args|
  {
    hide TakesValue;
    if args != [] {
      var roles := Roles(options, args);
      if args[0] in options && TakesValue(options, args, 0) {
        EveryArgumentHasOneRole(options, args[2..]);
        assert roles[1..][1..] == Roles(options, args[2..]) && args[1..][1..] == args[2..];
        assert roles[1..][0] == Value;
        NamesOfCons(Found(args[0], args[1]), Parse(options, args[2..]).found);
        PickTwo(args, roles, Left);
        PickTwo(args, roles, Option);
        PickTwo(args, roles, Value);
      } else {
        EveryArgumentHasOneRole(options, args[1..]);
        assert roles[1..] == Roles(options, args[1..]);
        if args[0] in options {
          NamesOfCons(Found(args[0], options[args[0]].defaultValue), Parse(options, args[1..]).found);
        }
      }
    }
  }

  lemma NamesOfCons(f: Found, rest: seq<Found>)
    ensures Names([f] + rest) == [f.name] + Names(rest)
  {
    assert ([f] + rest)[1..] == rest;
  }

  lemma PickTwo(args: seq<string>, roles: seq<Role>, role: Role)
    requires |args| == |roles| && |args| >= 2
    ensures Pick(args, roles, role) ==
      (if roles[0] == role then [args[0]] else []) + (if roles[1] == role then [args[1]] else []) + Pick(args[2..], roles[2..], role)
  {
    assert args[1..][1..] == args[2..] && roles[1..][1..] == roles[2..];
    assert Pick(args[1..], roles[1..], role) == (if roles[1] == role then [args[1]] else []) + Pick(args[2..], roles[2..], role);
  }

  /**
   * The roles without recursion: a value is what follows an option that has an
   * argument, unless it begins with a dash; an option is any other known name.
   */
  lemma {:induction false} RoleIs(options: Options, args: seq<string>, i: nat)
    requires i < |args|
    ensures var roles := Roles(options, args);
      && (roles[i] == Value <==>
            && i > 0 && roles[i - 1] == Option && args[i - 1] in options && options[args[i - 1]].isArg
            && (args[i] == "" || args[i][0] != '-'))
      && (roles[i] == Option <==> args[i] in options && roles[i] != Value)
  {
    var step := if args[0] in options && TakesValue(options, args, 0) then 2 else 1;
    if i >= step {
      RoleIs(options, args[step..], i - step);
      assert args[step..][i - step] == args[i];
      if i > step { assert args[step..][i - step - 1] == args[i - 1]; }
    }
  }

  /**
   * Argument `i` is the option; its value is the argument behind it, if the option has
   * one and that is there and does not begin with a dash, else its default.
   */
  predicate FoundAt(options: Options, args: seq<string>, f: Found, i: nat) {
    && i < |args| && Roles(options, args)[i] == Option
    && args[i] == f.name && f.name in options
    && f.value == (if options[f.name].isArg && i + 1 < |args| && (args[i + 1] == "" || args[i + 1][0] != '-') then args[i + 1]
                   else options[f.name].defaultValue)
  }

  lemma FoundLater(options: Options, args: seq<string>, f: Found, i: nat, step: nat)
    requires step <= |args| && FoundAt(options, args[step..], f, i)
    requires Roles(options, args)[step..] == Roles(options, args[step..])
    ensures FoundAt(options, args, f, i + step)
  {
    var rest := args[step..];
    assert args[i + step] == rest[i] && (i + 1 < |rest| ==> args[i + step + 1] == rest[i + 1]);
    assert Roles(options, args)[step..][i] == Roles(options, args)[i + step];
  }

  /** Every option that is reported was on the command line, and got the value it should. */
  lemma {:induction false} FoundValues(options: Options, args: seq<string>, k: nat) returns (i: nat)
    requires k < |Parse(options, args).found|
    ensures FoundAt(options, args, Parse(options, args).found[k], i)
  {
    if args[0] in options && k == 0 {
      i := 0;
    } else {
      var step := if args[0] in options && TakesValue(options, args, 0) then 2 else 1;
      var j := if args[0] in options then k - 1 else k;
      assert Parse(options, args).found[k] == Parse(options, args[step..]).found[j];
      i := FoundValues(options, args[step..], j);
      FoundLater(options, args, Parse(options, args).found[k], i, step);
      i := i + step;
    }
  }

  // ---- looking up ----

  /** Argument `i` is the first that names this option. */
  predicate NamesFirst(options: Options, args: seq<string>, i: nat, name: string) {
    && i < |args| && Roles(options, args)[i] == Option && args[i] == name
    && forall j :: 0 <= j < i && Roles(options, args)[j] == Option ==> args[j] != name
  }

  /** The first argument that names an option gives the first of what is found for it. */
  lemma {:induction false} FirstIsFound(options: Options, args: seq<string>, i: nat, name: string) returns (k: nat)
    requires NamesFirst(options, args, i, name)
    ensures IsFirst(Parse(options, args).found, k, name) && FoundAt(options, args, Parse(options, args).found[k], i)
  {
    RoleIs(options, args, i);
    if i == 0 {
      k := 0;
    } else {
      var step := if args[0] in options && TakesValue(options, args, 0) then 2 else 1;
      var rest := args[step..];
      RestNamesFirst(options, args, i, name, step);
      var j := FirstIsFound(options, rest, i - step, name);
      var found := Parse(options, rest).found;
      FoundLater(options, args, found[j], i - step, step);
      k := if args[0] in options then j + 1 else j;
      NotFoundBefore(options, args, name, step);
    }
  }

  lemma RestNamesFirst(options: Options, args: seq<string>, i: nat, name: string, step: nat)
    requires NamesFirst(options, args, i, name) && i > 0
    requires step == if args[0] in options && TakesValue(options, args, 0) then 2 else 1
    ensures step <= i && Roles(options, args)[step..] == Roles(options, args[step..])
    ensures NamesFirst(options, args[step..], i - step, name) && (args[0] in options ==> args[0] != name)
  {
    var roles, rest := Roles(options, args), args[step..];
    assert step == 2 ==> roles[1] == Value;
    assert rest[i - step] == args[i] && roles[step..][i - step] == roles[i];
    forall j | 0 <= j < i - step && Roles(options, rest)[j] == Option ensures rest[j] != name {
      assert roles[step..][j] == roles[j + step] && rest[j] == args[j + step];
    }
  }

  /** What is found starts with the first argument, if that is an option. */
  lemma NotFoundBefore(options: Options, args: seq<string>, name: string, step: nat)
    requires args != [] && step == if args[0] in options && TakesValue(options, args, 0) then 2 else 1
    ensures var found, later := Parse(options, args).found, Parse(options, args[step..]).found;
      if args[0] in options then found[1..] == later && found[0].name == args[0] else found == later
  {
  }

  /** What looking up `name` gives, when these options have been met. */
  ghost predicate LooksUp(met: seq<Found>, name: string, value: Common.Option<string>) {
    && (value == None <==> forall k :: 0 <= k < |met| ==> met[k].name != name)
    && forall k :: IsFirst(met, k, name) ==> value == Some(met[k].value)
  }

  /**
   * From end to end: after a command line, an option has the argument behind its
   * first occurrence if it took that, else its default, and none exactly if no
   * argument named it.
   */
  lemma LookupAfterParse(options: Options, args: seq<string>, name: string, value: Common.Option<string>)
    requires LooksUp(Parse(options, args).found, name, value)
    ensures value == None <==> forall i :: 0 <= i < |args| && args[i] == name ==> Roles(options, args)[i] != Option
    ensures forall i: nat :: NamesFirst(options, args, i, name) ==>
      value.Some? && FoundAt(options, args, Found(name, value.value), i)
  {
    var found := Parse(options, args).found;
    forall i: nat | NamesFirst(options, args, i, name)
      ensures value.Some? && FoundAt(options, args, Found(name, value.value), i)
    {
      var k := FirstIsFound(options, args, i, name);
      assert IsFirst(found, k, name);
    }
    forall i | 0 <= i < |args| && args[i] == name && Roles(options, args)[i] == Option ensures value.Some? {
      var first := FirstNaming(options, args, i, name);
      assert NamesFirst(options, args, first, name);
    }
    if value.Some? {
      var k :| 0 <= k < |found| && found[k].name == name;
      var i := FoundValues(options, args, k);
    }
  }

  lemma {:induction false} FirstNaming(options: Options, args: seq<string>, i: nat, name: string) returns (first: nat)
    requires i < |args| && args[i] == name && Roles(options, args)[i] == Option
    ensures NamesFirst(options, args, first, name)
    decreases i
  {
    if j: nat :| j < i && args[j] == name && Roles(options, args)[j] == Option {
      first := FirstNaming(options, args, j, name);
    } else {
      first := i;
    }
  }

  // ---- how far the parser has come ----

  /** `front` stays, `met` has been found, and `rest` is still to be looked at. */
  predicate Progress(options: Options, args: seq<string>, front: seq<string>, rest: seq<string>, met: seq<Found>) {
    && Parse(options, args).left == front + Parse(options, rest).left
    && Parse(options, args).found == met + Parse(options, rest).found
  }

  lemma ProgressLeft(options: Options, args: seq<string>, front: seq<string>, rest: seq<string>, met: seq<Found>)
    requires Progress(options, args, front, rest, met) && rest != [] && rest[0] !in options
    ensures Progress(options, args, front + [rest[0]], rest[1..], met)
  {
    assert front + ([rest[0]] + Parse(options, rest[1..]).left) == front + [rest[0]] + Parse(options, rest[1..]).left;
  }

  lemma ProgressOption(options: Options, args: seq<string>, front: seq<string>, rest: seq<string>, met: seq<Found>)
    requires Progress(options, args, front, rest, met) && rest != [] && rest[0] in options
    ensures var takes := TakesValue(options, rest, 0);
      Progress(options, args, front, rest[if takes then 2 else 1..],
               met + [Found(rest[0], if takes then rest[1] else options[rest[0]].defaultValue)])
  {
    var takes := TakesValue(options, rest, 0);
    var f := Found(rest[0], if takes then rest[1] else options[rest[0]].defaultValue);
    var later := Parse(options, rest[if takes then 2 else 1..]);
    assert met + ([f] + later.found) == met + [f] + later.found;
  }

  // ---- the parser ----

  class ArgumentParser {
    var optionsFound: map<string, string>
    var optionsIn: Options
    /** All the options met so far, on any command line. */
    ghost var met: seq<Found>

    ghost predicate Valid()
      reads this
    {
      optionsFound == InsertAll(map[], met)
    }

    constructor ()
      ensures Valid() && optionsIn == map[] && met == []
    {
      optionsFound, optionsIn, met := map[], map[], [];
    }

    /** Adding a name a second time changes nothing. */
    method AddOption(name: string, isArg: bool, defaultValue: string)
      modifies this`optionsIn
      ensures name in optionsIn
      ensures optionsIn == if name in old(optionsIn) then old(optionsIn) else old(optionsIn)[name := Input(isArg, defaultValue)]
    {
      if name !in optionsIn { optionsIn := optionsIn[name := Input(isArg, defaultValue)]; }
    }

    /** The value from the first time the option was met, and none if it never was. */
    method Lookup(name: string) returns (value: Common.Option<string>)
      requires Valid()
      ensures LooksUp(met, name, value)
    {
      FirstOccurrenceWins(map[], met, name);
      value := if name in optionsFound then Some(optionsFound[name]) else None;
    }

    /** `memmove` by one place. */
    method ShiftLeft(argv: array<string>, i: nat, argc: nat)
      requires i <= argc < argv.Length
      modifies argv
      ensures argv[..i] == old(argv[..i])
      ensures argv[i..argc] == old(argv[i + 1..argc + 1])
    {
      forall k | i <= k < argc { argv[k] := argv[k + 1]; }
    }

    /** Options are taken out of the array; its first `left` places then hold what the list parser leaves. */
    method ParseCommandLine(argc: nat, argv: array<string>) returns (left: nat)
      requires argc <= argv.Length && Valid()
      modifies this`optionsFound, this`met, argv
      ensures Valid() && left <= argc
      ensures argv[..left] == Parse(optionsIn, old(argv[..argc])).left
      ensures met == old(met) + Parse(optionsIn, old(argv[..argc])).found
    {
      hide Progress, InsertAll, Parse;
      left := argc;
      var i := 0;
      ghost var args := argv[..argc];
      ghost var now: seq<Found> := [];
      ProgressStarts(optionsIn, args);
      assert met + [] == met;
      assert argv[..0] == [] && argv[0..argc] == args;
      while i < left
        invariant i <= left <= argc
        invariant Progress(optionsIn, args, argv[..i], argv[i..left], now)
        invariant optionsFound == InsertAll(map[], met) && met == old(met) + now
        decreases left - i
      {
        ghost var front, rest := argv[..i], argv[i..left];
        if argv[i] in optionsIn {
          ProgressOption(optionsIn, args, front, rest, now);
          var input := optionsIn[argv[i]];
          var option := argv[i];
          var value := input.defaultValue;
          left := left - 1;
          if i < left {
            ShiftLeft(argv, i, left);
            assert argv[i..left] == rest[1..] && argv[i] == rest[1];
            if input.isArg && (argv[i] == "" || argv[i][0] != '-') {
              left := left - 1;
              value := argv[i];
              ShiftLeft(argv, i, left);
              assert argv[i..left] == rest[1..][1..] == rest[2..];
            }
          } else {
            assert argv[i..left] == rest[1..];
          }
          InsertOneMore(map[], met, Found(option, value));
          met, now := met + [Found(option, value)], now + [Found(option, value)];
          if option !in optionsFound { optionsFound := optionsFound[option := value]; }
        } else {
          ProgressLeft(optionsIn, args, front, rest, now);
          assert argv[..i + 1] == front + [rest[0]] && argv[i + 1..left] == rest[1..];
          i := i + 1;
        }
      }
      assert argv[i..left] == [];
      ProgressEnds(optionsIn, args, argv[..i], now);
    }
  }

  lemma ProgressStarts(options: Options, args: seq<string>)
    ensures Progress(options, args, [], args, [])
  {
  }

  lemma ProgressEnds(options: Options, args: seq<string>, front: seq<string>, met: seq<Found>)
    requires Progress(options, args, front, [], met)
    ensures Parse(options, args) == Parsed(front, met)
  {
  }

  lemma InsertOneMore(m: map<string, string>, met: seq<Found>, f: Found)
    ensures var now := InsertAll(m, met);
      InsertAll(m, met + [f]) == if f.name in now then now else now[f.name := f.value]
  {
    InsertAllAppend(m, met, [f]);
  }
}
