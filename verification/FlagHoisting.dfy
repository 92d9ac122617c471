/** Reordering command-line arguments so that flags may stand anywhere
    (hoistFlags in cmd/snailmail/flags.go), against Go's flag parsing, which stops at
    the first argument that is not a flag. */
module FlagHoisting {
  import opened Wrappers

  datatype Kind = Boolean | Valued

  /** The declared flags, by name. */
  type FlagSet = map<string, Kind>

  datatype Setting = Setting(name: string, value: Option<string>)
  datatype Outcome = Outcome(settings: seq<Setting>, positional: seq<string>)
  datatype ParseError = BadSyntax(argument: string) | Undefined(argument: string) | NeedsArgument(argument: string)

  type Parsed = Result<Outcome, ParseError>

  function Prepend(settings: seq<Setting>, rest: Parsed): Parsed {
    match rest
    case Err(e) => Err(e)
    case Ok(Outcome(more, positional)) => Ok(Outcome(settings + more, positional))
  }

  predicate IsFlag(argument: string) { |argument| >= 2 && argument[0] == '-' && argument != "--" }

  function TrimDashes(s: string): string { if s != "" && s[0] == '-' then TrimDashes(s[1..]) else s }

  // ----- flag.FlagSet.Parse -----

  /** The argument without its one or two dashes. */
  function Body(argument: string): string
    requires IsFlag(argument)
  {
    if argument[1] == '-' then argument[2..] else argument[1..]
  }

  /** The position of the first equals sign past the first character, or the length. */
  function Equals(s: string, i: nat): (r: nat)
    requires i <= |s|
    ensures i <= r <= |s| && (r < |s| ==> s[r] == '=') && '=' !in s[i..r]
    decreases |s| - i
  {
    if i == |s| || s[i] == '=' then i else var r := Equals(s, i + 1); assert s[i..r] == [s[i]] + s[i + 1..r]; r
  }

  /** One flag: what it sets and whether it takes the next argument as its value. */
  datatype Flag = Bad | Unknown | Alone(setting: Setting) | TakesNext(name: string)

  function ReadFlag(declared: FlagSet, argument: string): Flag
    requires IsFlag(argument)
  {
    var body := Body(argument);
    if body == "" || body[0] == '-' || body[0] == '=' then Bad
    else
      var e := Equals(body, 1);
      var name := body[..e];
      if name !in declared then Unknown
      else if e < |body| then Alone(Setting(name, Some(body[e + 1..])))
      else if declared[name] == Boolean then Alone(Setting(name, None))
      else TakesNext(name)
  }

  /** Flags until the first argument that is none; a "--" there is dropped. */
  function StopParse(declared: FlagSet, arguments: seq<string>): Parsed {
    if arguments == [] then Ok(Outcome([], []))
    else if arguments[0] == "--" then Ok(Outcome([], arguments[1..]))
    else if !IsFlag(arguments[0]) then Ok(Outcome([], arguments))
    else
      match ReadFlag(declared, arguments[0])
      case Bad => Err(BadSyntax(arguments[0]))
      case Unknown => Err(Undefined(arguments[0]))
      case Alone(setting) => Prepend([setting], StopParse(declared, arguments[1..]))
      case TakesNext(name) =>
        if |arguments| == 1 then Err(NeedsArgument(arguments[0]))
        else Prepend([Setting(name, Some(arguments[1]))], StopParse(declared, arguments[2..]))
  }

  /** The same flags, wherever they stand, until a "--". */
  function AnywhereParse(declared: FlagSet, arguments: seq<string>): Parsed {
    if arguments == [] then Ok(Outcome([], []))
    else if arguments[0] == "--" then Ok(Outcome([], arguments[1..]))
    else if !IsFlag(arguments[0]) then
      match AnywhereParse(declared, arguments[1..])
      case Err(e) => Err(e)
      case Ok(Outcome(settings, positional)) => Ok(Outcome(settings, [arguments[0]] + positional))
    else
      match ReadFlag(declared, arguments[0])
      case Bad => Err(BadSyntax(arguments[0]))
      case Unknown => Err(Undefined(arguments[0]))
      case Alone(setting) => Prepend([setting], AnywhereParse(declared, arguments[1..]))
      case TakesNext(name) =>
        if |arguments| == 1 then Err(NeedsArgument(arguments[0]))
        else Prepend([Setting(name, Some(arguments[1]))], AnywhereParse(declared, arguments[2..]))
  }

  // ----- hoisting -----

  /** hoistFlags decides this without parsing: no equals sign, a known name, not boolean. */
  predicate WantsValue(declared: FlagSet, argument: string) {
    '=' !in argument && TrimDashes(argument) in declared && declared[TrimDashes(argument)] == Valued
  }

  /** The two lists hoistFlags fills, and whether the last flag wants a value that is
      not there. */
  datatype Scan = Scan(flags: seq<string>, positional: seq<string>, dangling: bool)

  /** How many arguments a flag occupies: itself, and its value if it wants one. */
  function Width(declared: FlagSet, arguments: seq<string>): (n: nat)
    requires arguments != []
    ensures 1 <= n <= |arguments|
  {
    if WantsValue(declared, arguments[0]) && |arguments| > 1 then 2 else 1
  }

  function Join(flags: seq<string>, positional: seq<string>, s: Scan): Scan {
    Scan(flags + s.flags, positional + s.positional, s.dangling)
  }

  function ScanArguments(declared: FlagSet, arguments: seq<string>): Scan {
    if arguments == [] then Scan([], [], false)
    else if arguments[0] == "--" then Scan([], arguments[1..], false)
    else if !IsFlag(arguments[0]) then
      Join([], [arguments[0]], ScanArguments(declared, arguments[1..]))
    else if WantsValue(declared, arguments[0]) && |arguments| == 1 then Scan(arguments, [], true)
    else
      var n := Width(declared, arguments);
      Join(arguments[..n], [], ScanArguments(declared, arguments[n..]))
  }

  function Hoist(declared: FlagSet, arguments: seq<string>): seq<string> {
    var s := ScanArguments(declared, arguments);
    if s.positional == [] then s.flags else s.flags + ["--"] + s.positional
  }

  lemma JoinJoin(f: seq<string>, p: seq<string>, g: seq<string>, q: seq<string>, s: Scan)
    ensures Join(f, p, Join(g, q, s)) == Join(f + g, p + q, s)
  {
    assert f + (g + s.flags) == (f + g) + s.flags && p + (q + s.positional) == (p + q) + s.positional;
  }

  lemma ScanTurn(declared: FlagSet, flags: seq<string>, positional: seq<string>, rest: seq<string>)
    requires rest != [] && IsFlag(rest[0])
    ensures var n := Width(declared, rest);
            var after := Join(flags + rest[..n], positional, ScanArguments(declared, rest[n..]));
            var s := Join(flags, positional, ScanArguments(declared, rest));
            s.flags == after.flags && s.positional == after.positional
  {
    var n := Width(declared, rest);
    if WantsValue(declared, rest[0]) && |rest| == 1 {
      assert rest[n..] == [] && rest[..n] == rest;
    } else {
      JoinJoin(flags, positional, rest[..n], [], ScanArguments(declared, rest[n..]));
      assert positional + [] == positional;
    }
  }

  /** What hoistFlags has collected, with the rest still to read, makes up the whole. */
  ghost predicate Collected(declared: FlagSet, all: Scan, flags: seq<string>, positional: seq<string>, rest: seq<string>) {
    var now := Join(flags, positional, ScanArguments(declared, rest));
    all.flags == now.flags && all.positional == now.positional
  }

  lemma CollectedAll(declared: FlagSet, all: Scan, flags: seq<string>, positional: seq<string>, rest: seq<string>)
    requires Collected(declared, all, flags, positional, rest) && (rest == [] || rest[0] == "--")
    ensures all.flags == flags && all.positional == positional + if rest == [] then [] else rest[1..]
  {
  }

  /** One turn of hoistFlags: the collected lists and how many arguments it read. */
  method Turn(declared: FlagSet, rest: seq<string>, flags: seq<string>, positional: seq<string>)
    returns (flags': seq<string>, positional': seq<string>, read: nat)
    requires rest != [] && rest[0] != "--"
    ensures 1 <= read <= |rest|
    ensures forall all | Collected(declared, all, flags, positional, rest) ::
              Collected(declared, all, flags', positional', rest[read..])
  {
    flags', positional', read := flags, positional, 1;
    if |rest[0]| < 2 || rest[0][0] != '-' {
      positional' := positional + [rest[0]];
      return;
    }
    ScanTurn(declared, flags, positional, rest);
    flags' := flags + [rest[0]];
    assert rest[..1] == [rest[0]];
    if WantsValue(declared, rest[0]) && |rest| > 1 {
      flags' := flags' + [rest[1]];
      read := 2;
      assert rest[..2] == [rest[0], rest[1]];
      assert flags' == flags + rest[..2];
    }
  }

  /** hoistFlags */
  method HoistFlags(declared: FlagSet, arguments: seq<string>) returns (hoisted: seq<string>)
    ensures hoisted == Hoist(declared, arguments)
  {
    var flags: seq<string>, positional: seq<string> := [], [];
    ghost var all := ScanArguments(declared, arguments);
    var index := 0;
    while index < |arguments| && arguments[index] != "--"
      invariant index <= |arguments|
      invariant Collected(declared, all, flags, positional, arguments[index..])
    {
      ghost var rest := arguments[index..];
      var read;
      flags, positional, read := Turn(declared, arguments[index..], flags, positional);
      assert rest[read..] == arguments[index + read..];
      index := index + read;
    }
    CollectedAll(declared, all, flags, positional, arguments[index..]);
    if index < |arguments| {
      positional := positional + arguments[index..][1..];
    }
    if positional == [] {
      return flags;
    }
    return flags + ["--"] + positional;
  }

  /** Where parsing succeeds, hoisting's test for a value agrees with it. */
  lemma ReadAgrees(declared: FlagSet, argument: string)
    requires IsFlag(argument) && !ReadFlag(declared, argument).Bad? && !ReadFlag(declared, argument).Unknown?
    ensures WantsValue(declared, argument) <==> ReadFlag(declared, argument).TakesNext?
  {
    var body := Body(argument);
    assert TrimDashes(argument) == body by {
      assert argument[1..] == (if argument[1] == '-' then ['-'] + body else body);
      assert TrimDashes(argument[1..]) == TrimDashes(body);
    }
    var e := Equals(body, 1);
    if e == |body| {
      assert body == [body[0]] + body[1..e];
      assert argument == (if argument[1] == '-' then ['-', '-'] + body else ['-'] + body);
      assert body[..e] == body;
    } else {
      assert body[e] in body;
      assert argument[|argument| - |body| + e] == '=';
    }
  }

  lemma PrependNothing(rest: Parsed)
    ensures Prepend([], rest) == rest
  {
    if rest.Ok? {
      assert [] + rest.value.settings == rest.value.settings;
    }
  }

  lemma PrependTwice(a: seq<Setting>, b: seq<Setting>, rest: Parsed)
    ensures Prepend(a, Prepend(b, rest)) == Prepend(a + b, rest)
  {
    if rest.Ok? {
      assert a + (b + rest.value.settings) == (a + b) + rest.value.settings;
    }
  }

  /** What a flag sets, given the arguments it stands before. */
  function Reads(declared: FlagSet, arguments: seq<string>): Result<Setting, ParseError>
    requires arguments != [] && IsFlag(arguments[0])
  {
    match ReadFlag(declared, arguments[0])
    case Bad => Err(BadSyntax(arguments[0]))
    case Unknown => Err(Undefined(arguments[0]))
    case Alone(setting) => Ok(setting)
    case TakesNext(name) =>
      if |arguments| == 1 then Err(NeedsArgument(arguments[0])) else Ok(Setting(name, Some(arguments[1])))
  }

  /** Both parsers take a flag the same way, and leave what hoisting leaves. */
  lemma FlagTurn(declared: FlagSet, arguments: seq<string>)
    requires arguments != [] && IsFlag(arguments[0])
    ensures var n := Width(declared, arguments);
            match Reads(declared, arguments)
            case Err(e) => StopParse(declared, arguments) == Err(e) && AnywhereParse(declared, arguments) == Err(e)
            case Ok(setting) =>
              && StopParse(declared, arguments) == Prepend([setting], StopParse(declared, arguments[n..]))
              && AnywhereParse(declared, arguments) == Prepend([setting], AnywhereParse(declared, arguments[n..]))
  {
    var flag := ReadFlag(declared, arguments[0]);
    if !flag.Bad? && !flag.Unknown? {
      ReadAgrees(declared, arguments[0]);
    }
  }

  lemma HoistedShift(declared: FlagSet, arguments: seq<string>, tail: seq<string>)
    requires arguments != [] && IsFlag(arguments[0])
    requires !(WantsValue(declared, arguments[0]) && |arguments| == 1)
    ensures var n := Width(declared, arguments);
            var joined := ScanArguments(declared, arguments).flags + tail;
            && |joined| >= n && joined[..n] == arguments[..n] && joined[0] == arguments[0]
            && joined[n..] == ScanArguments(declared, arguments[n..]).flags + tail
  {
    var n := Width(declared, arguments);
    var inner := ScanArguments(declared, arguments[n..]).flags;
    assert ScanArguments(declared, arguments).flags == arguments[..n] + inner;
    Concatenation(arguments[..n], inner, tail);
    assert arguments[..n][0] == arguments[0];
  }

  lemma Concatenation(a: seq<string>, b: seq<string>, c: seq<string>)
    ensures ((a + b) + c)[..|a|] == a && ((a + b) + c)[|a|..] == b + c
    ensures a != [] ==> ((a + b) + c)[0] == a[0]
  {
  }

  lemma SameFlagSameReading(declared: FlagSet, a: seq<string>, b: seq<string>)
    requires a != [] && b != [] && IsFlag(a[0])
    requires !(WantsValue(declared, a[0]) && |a| == 1)
    requires |b| >= Width(declared, a) && b[..Width(declared, a)] == a[..Width(declared, a)]
    ensures a[0] == b[0] && Width(declared, b) == Width(declared, a) && Reads(declared, b) == Reads(declared, a)
  {
    var n := Width(declared, a);
    assert a[..n][0] == a[0] && b[..n][0] == b[0];
    assert n == 2 ==> a[..n][1] == a[1] && b[..n][1] == b[1];
    var flag := ReadFlag(declared, a[0]);
    if !flag.Bad? && !flag.Unknown? {
      ReadAgrees(declared, a[0]);
    }
  }

  /** The hoisted arguments of a flag come first among the hoisted ones, read alike. */
  lemma HoistedTurn(declared: FlagSet, arguments: seq<string>, tail: seq<string>)
    requires arguments != [] && IsFlag(arguments[0])
    requires !(WantsValue(declared, arguments[0]) && |arguments| == 1)
    ensures var n := Width(declared, arguments);
            var joined := ScanArguments(declared, arguments).flags + tail;
            && |joined| >= n && joined[..n] == arguments[..n] && joined[0] == arguments[0]
            && joined[n..] == ScanArguments(declared, arguments[n..]).flags + tail
            && Width(declared, joined) == n
            && Reads(declared, joined) == Reads(declared, arguments)
  {
    HoistedShift(declared, arguments, tail);
    SameFlagSameReading(declared, arguments, ScanArguments(declared, arguments).flags + tail);
  }

  /** The hoisted flags, followed by anything, parse to the flags of the original
      followed by that. */
  lemma {:induction false} HoistedFlagsParse(declared: FlagSet, arguments: seq<string>, tail: seq<string>)
    requires !ScanArguments(declared, arguments).dangling || tail == []
    ensures var s := ScanArguments(declared, arguments);
            match AnywhereParse(declared, arguments)
            case Err(e) => StopParse(declared, s.flags + tail) == Err(e)
            case Ok(outcome) =>
              outcome.positional == s.positional
              && StopParse(declared, s.flags + tail) == Prepend(outcome.settings, StopParse(declared, tail))
    decreases |arguments|
  {
    var s := ScanArguments(declared, arguments);
    if arguments == [] || arguments[0] == "--" {
      assert s.flags + tail == tail;
      PrependNothing(StopParse(declared, tail));
    } else if !IsFlag(arguments[0]) {
      HoistedFlagsParse(declared, arguments[1..], tail);
      assert s.flags == ScanArguments(declared, arguments[1..]).flags;
    } else {
      FlagTurn(declared, arguments);
      if WantsValue(declared, arguments[0]) && |arguments| == 1 {
        assert s.flags + tail == arguments;
        var flag := ReadFlag(declared, arguments[0]);
        if !flag.Bad? && !flag.Unknown? {
          ReadAgrees(declared, arguments[0]);
        }
      } else {
        var n := Width(declared, arguments);
        HoistedTurn(declared, arguments, tail);
        FlagTurn(declared, s.flags + tail);
        HoistedFlagsParse(declared, arguments[n..], tail);
        if Reads(declared, arguments).Ok? && AnywhereParse(declared, arguments[n..]).Ok? {
          var outcome := AnywhereParse(declared, arguments[n..]).value;
          PrependTwice([Reads(declared, arguments).value], outcome.settings, StopParse(declared, tail));
          assert s.positional == ScanArguments(declared, arguments[n..]).positional;
        }
      }
    }
  }

  /** A trailing flag that wants a value takes the first argument after it instead. */
  predicate TakesTail(declared: FlagSet, parsed: Parsed, before: seq<Setting>, name: string, tail: seq<string>)
    requires tail != []
  {
    parsed == Prepend(before + [Setting(name, Some(tail[0]))], StopParse(declared, tail[1..]))
  }

  /** With a positional present, hoisting puts the terminator in that place. */
  lemma {:induction false} DanglingTakesTail(declared: FlagSet, arguments: seq<string>, tail: seq<string>)
    returns (before: seq<Setting>, name: string)
    requires ScanArguments(declared, arguments).dangling && tail != []
    ensures AnywhereParse(declared, arguments).Err?
    ensures var parsed := StopParse(declared, ScanArguments(declared, arguments).flags + tail);
            if AnywhereParse(declared, arguments).error.NeedsArgument? then TakesTail(declared, parsed, before, name, tail)
            else parsed == AnywhereParse(declared, arguments)
    decreases |arguments|
  {
    before, name := [], "";
    var s := ScanArguments(declared, arguments);
    if !IsFlag(arguments[0]) {
      before, name := DanglingTakesTail(declared, arguments[1..], tail);
      assert s.flags == ScanArguments(declared, arguments[1..]).flags;
    } else if WantsValue(declared, arguments[0]) && |arguments| == 1 {
      var joined := arguments + tail;
      FlagTurn(declared, arguments);
      FlagTurn(declared, joined);
      var flag := ReadFlag(declared, arguments[0]);
      if !flag.Bad? && !flag.Unknown? {
        ReadAgrees(declared, arguments[0]);
        assert joined[0] == arguments[0] && joined[1] == tail[0] && joined[2..] == tail[1..];
        name := flag.name;
        assert [] + [Setting(name, Some(tail[0]))] == [Setting(name, Some(tail[0]))];
      }
    } else {
      var n := Width(declared, arguments);
      FlagTurn(declared, arguments);
      HoistedTurn(declared, arguments, tail);
      FlagTurn(declared, s.flags + tail);
      before, name := DanglingTakesTail(declared, arguments[n..], tail);
      if Reads(declared, arguments).Ok? && AnywhereParse(declared, arguments[n..]).error.NeedsArgument? {
        var setting := Reads(declared, arguments).value;
        var taken := Setting(name, Some(tail[0]));
        PrependTwice([setting], before + [taken], StopParse(declared, tail[1..]));
        assert [setting] + (before + [taken]) == ([setting] + before) + [taken];
        before := [setting] + before;
      }
    }
  }

  lemma {:induction false} DanglingPositional(declared: FlagSet, arguments: seq<string>)
    requires ScanArguments(declared, arguments).dangling
    ensures forall p | p in ScanArguments(declared, arguments).positional :: p != "--" && !IsFlag(p)
    decreases |arguments|
  {
    if !IsFlag(arguments[0]) {
      DanglingPositional(declared, arguments[1..]);
    } else if !(WantsValue(declared, arguments[0]) && |arguments| == 1) {
      DanglingPositional(declared, arguments[Width(declared, arguments)..]);
    }
  }

  /** A trailing flag lacks its value while there is a positional. */
  predicate Misled(declared: FlagSet, arguments: seq<string>) {
    ScanArguments(declared, arguments).dangling && ScanArguments(declared, arguments).positional != []
  }

  /** Every flag is well-formed and declared. */
  predicate FlagsKnown(declared: FlagSet, arguments: seq<string>) {
    if arguments == [] || arguments[0] == "--" then true
    else if !IsFlag(arguments[0]) then FlagsKnown(declared, arguments[1..])
    else
      var flag := ReadFlag(declared, arguments[0]);
      !flag.Bad? && !flag.Unknown? && FlagsKnown(declared, arguments[Width(declared, arguments)..])
  }

  /** Then, and only then, a missing value is what is wrong. */
  lemma {:induction false} DanglingNeedsArgument(declared: FlagSet, arguments: seq<string>)
    requires ScanArguments(declared, arguments).dangling
    ensures var parsed := AnywhereParse(declared, arguments);
            parsed.Err? && (parsed.error.NeedsArgument? <==> FlagsKnown(declared, arguments))
    decreases |arguments|
  {
    if !IsFlag(arguments[0]) {
      DanglingNeedsArgument(declared, arguments[1..]);
    } else {
      FlagTurn(declared, arguments);
      var flag := ReadFlag(declared, arguments[0]);
      if !flag.Bad? && !flag.Unknown? {
        ReadAgrees(declared, arguments[0]);
      }
      if !(WantsValue(declared, arguments[0]) && |arguments| == 1) {
        DanglingNeedsArgument(declared, arguments[Width(declared, arguments)..]);
      }
    }
  }

  lemma HoistedShape(declared: FlagSet, arguments: seq<string>)
    ensures var s := ScanArguments(declared, arguments);
            Hoist(declared, arguments) == s.flags + if s.positional == [] then [] else ["--"] + s.positional
    ensures StopParse(declared, ["--"] + ScanArguments(declared, arguments).positional) ==
              Ok(Outcome([], ScanArguments(declared, arguments).positional))
  {
    var s := ScanArguments(declared, arguments);
    assert s.flags + ["--"] + s.positional == s.flags + (["--"] + s.positional);
    assert (["--"] + s.positional)[1..] == s.positional;
    assert s.flags + [] == s.flags;
  }

  /** Hoisting then parsing gives the same flags and the same positionals, in order, as
      accepting flags anywhere, or the same error, if and only if it is not the case that a
      trailing flag lacks its value beside a positional while every flag is well-formed and
      declared. */
  lemma HoistingIsFaithful(declared: FlagSet, arguments: seq<string>)
    ensures StopParse(declared, Hoist(declared, arguments)) == AnywhereParse(declared, arguments) <==>
              !(Misled(declared, arguments) && FlagsKnown(declared, arguments))
  {
    var s := ScanArguments(declared, arguments);
    var tail := if s.positional == [] then [] else ["--"] + s.positional;
    HoistedShape(declared, arguments);
    if !Misled(declared, arguments) {
      HoistedFlagsParse(declared, arguments, tail);
      if AnywhereParse(declared, arguments).Ok? {
        assert AnywhereParse(declared, arguments).value.settings + [] == AnywhereParse(declared, arguments).value.settings;
      }
    } else {
      DanglingNeedsArgument(declared, arguments);
      var before, name := DanglingTakesTail(declared, arguments, tail);
      assert tail[1..] == s.positional;
      DanglingPositional(declared, arguments);
      assert s.positional[0] in s.positional;
    }
  }

  /** The hoisted flags, hoisted again with anything after them, stay as they are. */
  lemma {:induction false} RescanFlags(declared: FlagSet, arguments: seq<string>, tail: seq<string>)
    requires !ScanArguments(declared, arguments).dangling || tail == []
    ensures var s := ScanArguments(declared, arguments);
            var t := ScanArguments(declared, tail);
            ScanArguments(declared, s.flags + tail) == Join(s.flags, [], t).(dangling := s.dangling || t.dangling)
    decreases |arguments|
  {
    var s := ScanArguments(declared, arguments);
    var t := ScanArguments(declared, tail);
    if arguments == [] || arguments[0] == "--" {
      assert s.flags + tail == tail;
    } else if !IsFlag(arguments[0]) {
      RescanFlags(declared, arguments[1..], tail);
      assert s.flags == ScanArguments(declared, arguments[1..]).flags;
    } else if WantsValue(declared, arguments[0]) && |arguments| == 1 {
      assert s.flags + tail == arguments;
      assert s.flags + [] == s.flags;
    } else {
      var n := Width(declared, arguments);
      var inner := ScanArguments(declared, arguments[n..]).flags;
      RescanFlags(declared, arguments[n..], tail);
      HoistedTurn(declared, arguments, tail);
      JoinJoin(arguments[..n], [], inner, [], t);
    }
  }

  /** A trailing flag without its value takes the first argument after it. */
  lemma {:induction false} RescanDangling(declared: FlagSet, arguments: seq<string>, tail: seq<string>)
    requires ScanArguments(declared, arguments).dangling && tail != []
    ensures var s := ScanArguments(declared, arguments);
            ScanArguments(declared, s.flags + tail) == Join(s.flags + [tail[0]], [], ScanArguments(declared, tail[1..]))
    decreases |arguments|
  {
    var s := ScanArguments(declared, arguments);
    var t := ScanArguments(declared, tail[1..]);
    if !IsFlag(arguments[0]) {
      RescanDangling(declared, arguments[1..], tail);
      assert s.flags == ScanArguments(declared, arguments[1..]).flags;
    } else if WantsValue(declared, arguments[0]) && |arguments| == 1 {
      var joined := arguments + tail;
      assert joined[0] == arguments[0] && joined[..2] == arguments + [tail[0]] && joined[2..] == tail[1..];
    } else {
      var n := Width(declared, arguments);
      var inner := ScanArguments(declared, arguments[n..]).flags;
      RescanDangling(declared, arguments[n..], tail);
      HoistedTurn(declared, arguments, tail);
      JoinJoin(arguments[..n], [], inner + [tail[0]], [], t);
      assert arguments[..n] + (inner + [tail[0]]) == s.flags + [tail[0]];
    }
  }

  lemma {:induction false} ScanPositionals(declared: FlagSet, arguments: seq<string>)
    requires forall p | p in arguments :: p != "--" && !IsFlag(p)
    ensures ScanArguments(declared, arguments) == Scan([], arguments, false)
  {
    if arguments != [] {
      assert arguments[0] in arguments;
      assert forall p | p in arguments[1..] :: p in arguments;
      ScanPositionals(declared, arguments[1..]);
      assert [arguments[0]] + arguments[1..] == arguments;
    }
  }

  lemma MisledHoistsAgain(declared: FlagSet, arguments: seq<string>)
    requires Misled(declared, arguments)
    ensures |Hoist(declared, Hoist(declared, arguments))| == |Hoist(declared, arguments)| + 1
  {
    var s := ScanArguments(declared, arguments);
    var tail := ["--"] + s.positional;
    HoistedShape(declared, arguments);
    assert tail[1..] == s.positional;
    RescanDangling(declared, arguments, tail);
    DanglingPositional(declared, arguments);
    ScanPositionals(declared, s.positional);
  }

  lemma {:induction false} OthersHoistOnce(declared: FlagSet, arguments: seq<string>)
    requires !Misled(declared, arguments)
    ensures Hoist(declared, Hoist(declared, arguments)) == Hoist(declared, arguments)
  {
    var s := ScanArguments(declared, arguments);
    var tail := if s.positional == [] then [] else ["--"] + s.positional;
    HoistedShape(declared, arguments);
    RescanFlags(declared, arguments, tail);
    SameScanSameHoist(declared, arguments, s.flags + tail);
  }

  lemma {:induction false} SameScanSameHoist(declared: FlagSet, a: seq<string>, b: seq<string>)
    requires ScanArguments(declared, b).flags == ScanArguments(declared, a).flags
    requires ScanArguments(declared, b).positional == ScanArguments(declared, a).positional
    ensures Hoist(declared, a) == Hoist(declared, b)
  {
  }

  /** Hoisting twice is hoisting once, exactly unless a trailing flag lacks its value
      while there is a positional. */
  lemma HoistingIsIdempotent(declared: FlagSet, arguments: seq<string>)
    ensures Hoist(declared, Hoist(declared, arguments)) == Hoist(declared, arguments) <==> !Misled(declared, arguments)
  {
    if Misled(declared, arguments) {
      MisledHoistsAgain(declared, arguments);
    } else {
      OthersHoistOnce(declared, arguments);
    }
  }
}
