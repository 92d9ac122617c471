/** Debian control text: the field writer of formats/deb/render.go and the two readers,
    parseControl (formats/deb/inspect.go) and parseRepositoryFields
    (formats/deb/repository.go). */
module ControlText {
  import opened Wrappers
  import opened Lines

  /** The two readers. One keeps names in canonical case and reads a lone dot as an
      empty line; the other lowers names and keeps the dot. */
  datatype Dialect = Control | Repository

  /** What a reader has gathered: the fields, the names seen in lower case, and the field
      a continuation line would extend. */
  datatype State = State(fields: map<string, string>, seen: set<string>, current: string)

  const START := State(map[], {}, "")

  // ----- names -----

  function LowerChar(c: char): char { if 'A' <= c <= 'Z' then (c as int + 32) as char else c }

  function UpperChar(c: char): char { if 'a' <= c <= 'z' then (c as int - 32) as char else c }

  /** strings.ToLower on a field name */
  function Lower(s: string): (t: string)
    ensures |t| == |s|
  {
    if s == "" then "" else [LowerChar(s[0])] + Lower(s[1..])
  }

  /** textproto.CanonicalMIMEHeaderKey: upper case at the start and after a dash. */
  function Canonical(s: string, upper: bool := true): (t: string)
    ensures |t| == |s|
  {
    if s == "" then "" else [if upper then UpperChar(s[0]) else LowerChar(s[0])] + Canonical(s[1..], s[0] == '-')
  }

  predicate NameChar(c: char) { 'A' <= c <= 'Z' || 'a' <= c <= 'z' || '0' <= c <= '9' || c == '-' }

  /** fieldNamePattern */
  predicate FieldName(s: string) { s != "" && s[0] != '-' && forall i | 0 <= i < |s| :: NameChar(s[i]) }

  predicate LowerName(s: string) {
    forall i | 0 <= i < |s| :: 'a' <= s[i] <= 'z' || '0' <= s[i] <= '9' || s[i] == '-'
  }

  function Normalize(d: Dialect, raw: string): string {
    match d case Control => Canonical(raw) case Repository => Lower(raw)
  }

  predicate ValidName(d: Dialect, name: string) {
    match d case Control => FieldName(name) case Repository => LowerName(name)
  }

  lemma {:induction false} LowerOfName(s: string)
    requires forall i | 0 <= i < |s| :: NameChar(s[i])
    ensures LowerName(Lower(s))
  {
    if s != "" {
      LowerOfName(s[1..]);
    }
  }

  lemma {:induction false} LowerTwice(s: string)
    ensures Lower(Lower(s)) == Lower(s)
  {
    if s != "" {
      LowerTwice(s[1..]);
      assert Lower(s)[1..] == Lower(s[1..]);
    }
  }

  /** Upper case at the start and after a dash, lower case elsewhere. */
  lemma {:induction false} CanonicalAt(s: string, upper: bool, i: nat)
    requires i < |s|
    ensures Canonical(s, upper)[i] == if (if i == 0 then upper else s[i - 1] == '-') then UpperChar(s[i]) else LowerChar(s[i])
  {
    if i > 0 {
      CanonicalAt(s[1..], s[0] == '-', i - 1);
    }
  }

  lemma {:induction false} CanonicalTwice(s: string, upper: bool)
    ensures Canonical(Canonical(s, upper), upper) == Canonical(s, upper)
  {
    if s != "" {
      CanonicalTwice(s[1..], s[0] == '-');
      assert Canonical(s, upper)[1..] == Canonical(s[1..], s[0] == '-');
    }
  }

  // ----- reading lines -----

  function Index(s: string, c: char): (i: nat)
    ensures i <= |s| && c !in s[..i] && (i < |s| ==> s[i] == c)
  {
    if s == "" || s[0] == c then 0
    else
      var i := 1 + Index(s[1..], c);
      assert s[..i] == [s[0]] + s[1..][..i - 1];
      i
  }

  function Continuation(d: Dialect, text: string): string { if d == Control && text == "." then "" else text }

  /** The bounds parseRepositoryFields puts on a field. */
  predicate OutOfBounds(d: Dialect, separator: nat, count: nat) { d == Repository && (separator > 64 || count >= 256) }

  function StartField(d: Dialect, st: State, line: string): Result<State, ()> {
    var separator := Index(line, ':');
    if separator == 0 || separator == |line| || OutOfBounds(d, separator, |st.fields|) then Err(())
    else
      var name := Normalize(d, line[..separator]);
      if !ValidName(d, name) || Lower(name) in st.seen then Err(())
      else Ok(State(st.fields[name := TrimSpace(line[separator + 1..])], st.seen + {Lower(name)}, name))
  }

  predicate Continues(line: string) { line != "" && (line[0] == ' ' || line[0] == '\t') }

  function ContinueField(d: Dialect, st: State, line: string): Result<State, ()>
    requires Continues(line)
  {
    if st.current == "" || st.current !in st.fields then Err(())
    else Ok(st.(fields := st.fields[st.current := st.fields[st.current] + "\n" + Continuation(d, line[1..])]))
  }

  /** One line: blank, a continuation, or a new field. */
  function Step(d: Dialect, st: State, line: string): Result<State, ()> {
    if line == "" then Ok(st)
    else if Continues(line) then ContinueField(d, st, line)
    else StartField(d, st, line)
  }

  function Steps(d: Dialect, st: State, ls: seq<string>): Result<State, ()>
    decreases |ls|
  {
    if ls == [] then Ok(st)
    else
      var next :- Step(d, st, ls[0]);
      Steps(d, next, ls[1..])
  }

  function StepsFrom(d: Dialect, r: Result<State, ()>, ls: seq<string>): Result<State, ()> {
    if r.Err? then r else Steps(d, r.value, ls)
  }

  lemma {:induction false} StepsAppend(d: Dialect, st: State, a: seq<string>, b: seq<string>)
    ensures Steps(d, st, a + b) == StepsFrom(d, Steps(d, st, a), b)
    decreases |a|
  {
    if a == [] {
      assert a + b == b;
    } else {
      assert (a + b)[1..] == a[1..] + b;
      if Step(d, st, a[0]).Ok? {
        StepsAppend(d, Step(d, st, a[0]).value, a[1..], b);
      }
    }
  }

  lemma {:induction false} StepsCons(d: Dialect, st: State, line: string, rest: seq<string>)
    ensures Steps(d, st, [line] + rest) == StepsFrom(d, Step(d, st, line), rest)
  {
    assert ([line] + rest)[1..] == rest;
  }

  predicate Allowed(c: char) { c >= ' ' || c == '\n' || c == '\r' || c == '\t' }

  predicate AllAllowed(s: string) { forall i | 0 <= i < |s| :: Allowed(s[i]) }

  /** The scanner and the parser each drop one carriage return at the end of a line. */
  function Chomp(line: string): string { DropReturn(DropReturn(line)) }

  function DropReturn(line: string): string {
    if line != "" && line[|line| - 1] == '\r' then line[..|line| - 1] else line
  }

  function Chomped(ls: seq<string>): (r: seq<string>)
    ensures |r| == |ls| && forall i | 0 <= i < |ls| :: r[i] == Chomp(ls[i])
  {
    if ls == [] then [] else [Chomp(ls[0])] + Chomped(ls[1..])
  }

  function ReadAll(d: Dialect, ls: seq<string>): Result<State, ()> { Steps(d, START, Chomped(ls)) }

  /** parseControl and parseRepositoryFields */
  function ParseFields(d: Dialect, content: string): Result<map<string, string>, ()> {
    if !AllAllowed(content) then Err(()) else FieldsOf(ReadAll(d, Split(content)))
  }

  function FieldsOf(r: Result<State, ()>): Result<map<string, string>, ()> {
    match r case Ok(st) => Ok(st.fields) case Err(e) => Err(e)
  }

  method AllowedBytes(content: string) returns (ok: bool)
    ensures ok == AllAllowed(content)
  {
    for i := 0 to |content|
      invariant forall j | 0 <= j < i :: Allowed(content[j])
    {
      if !Allowed(content[i]) {
        return false;
      }
    }
    return true;
  }

  method ReadLines(d: Dialect, ls: seq<string>) returns (r: Result<State, ()>)
    ensures r == ReadAll(d, ls)
  {
    ghost var chomped := Chomped(ls);
    var st := START;
    for i := 0 to |ls|
      invariant Steps(d, START, chomped) == Steps(d, st, chomped[i..])
    {
      assert chomped[i..][0] == Chomp(ls[i]) && chomped[i..][1..] == chomped[i + 1..];
      var next := Step(d, st, Chomp(ls[i]));
      if next.Err? {
        return Err(());
      }
      st := next.value;
    }
    return Ok(st);
  }

  method Parse(d: Dialect, content: string) returns (r: Result<map<string, string>, ()>)
    ensures r == ParseFields(d, content)
  {
    var ok := AllowedBytes(content);
    if !ok {
      return Err(());
    }
    var st := ReadLines(d, Split(content));
    return FieldsOf(st);
  }

  // ----- writing fields -----

  function DotBlank(line: string): string { " " + if line == "" then "." else line }

  function DotBlanks(ls: seq<string>): (r: seq<string>)
    ensures |r| == |ls| && forall i | 0 <= i < |ls| :: r[i] == DotBlank(ls[i])
  {
    if ls == [] then [] else [DotBlank(ls[0])] + DotBlanks(ls[1..])
  }

  /** The lines writeField writes: a blank line of the value becomes a lone dot. */
  function FieldLines(name: string, value: string): (ls: seq<string>)
    ensures |ls| > 0
  {
    [name + ": " + Split(value)[0]] + DotBlanks(Split(value)[1..])
  }

  lemma {:induction false} TextNext(ls: seq<string>, i: nat)
    requires i < |ls|
    ensures Text(ls[..i + 1]) == Text(ls[..i]) + (ls[i] + "\n")
  {
    assert ls[..i + 1] == ls[..i] + [ls[i]];
    TextAppend(ls[..i], [ls[i]]);
    assert [ls[i]][1..] == [] && ls[i] + "\n" + "" == ls[i] + "\n";
  }

  lemma {:induction false} FieldLineAt(name: string, value: string, i: nat)
    requires i < |Split(value)|
    ensures |FieldLines(name, value)| == |Split(value)|
    ensures FieldLines(name, value)[i] == if i == 0 then name + ": " + Split(value)[0] else DotBlank(Split(value)[i])
  {
    if i > 0 {
      assert FieldLines(name, value)[i] == DotBlanks(Split(value)[1..])[i - 1];
    }
  }

  /** writeField */
  method WriteField(output: string, name: string, value: string) returns (written: string)
    ensures written == output + Text(FieldLines(name, value))
  {
    var ls := Split(value);
    ghost var all := FieldLines(name, value);
    written := output + (name + ": " + ls[0] + "\n");
    FieldLineAt(name, value, 0);
    TextNext(all, 0);
    for i := 1 to |ls|
      invariant written == output + Text(all[..i])
    {
      FieldLineAt(name, value, i);
      TextNext(all, i);
      written := written + (DotBlank(ls[i]) + "\n");
    }
    assert all[..|ls|] == all;
  }

  // ----- reading back one field -----

  /** What a reader makes of the continuation lines of a value. */
  function ReadRest(d: Dialect, ls: seq<string>): string {
    if ls == [] then "" else ReadLine(d, ls[0]) + ReadRest(d, ls[1..])
  }

  function ReadValue(d: Dialect, value: string): string {
    TrimSpace(" " + Split(value)[0]) + ReadRest(d, Split(value)[1..])
  }

  function Extended(st: State, more: string): State
    requires st.current in st.fields
  {
    st.(fields := st.fields[st.current := st.fields[st.current] + more])
  }

  lemma {:induction false} ExtendTwice(st: State, a: string, b: string)
    requires st.current in st.fields
    ensures Extended(Extended(st, a), b) == Extended(st, a + b)
  {
    assert st.fields[st.current] + a + b == st.fields[st.current] + (a + b);
    assert Extended(Extended(st, a), b).fields == Extended(st, a + b).fields;
  }

  lemma {:induction false} ExtendNothing(st: State)
    requires st.current in st.fields
    ensures Extended(st, "") == st
  {
    assert st.fields[st.current] + "" == st.fields[st.current];
    assert Extended(st, "").fields == st.fields;
  }

  /** What one written continuation line adds. */
  function ReadLine(d: Dialect, text: string): string { "\n" + Continuation(d, if text == "" then "." else text) }

  lemma {:induction false} ContinuationStep(d: Dialect, st: State, text: string)
    requires st.current != "" && st.current in st.fields
    ensures Step(d, st, DotBlank(text)) == Ok(Extended(st, ReadLine(d, text)))
  {
    var line := DotBlank(text);
    var plain := if text == "" then "." else text;
    assert line[0] == ' ' && line[1..] == plain;
    assert st.fields[st.current] + "\n" + Continuation(d, plain) == st.fields[st.current] + ReadLine(d, text);
  }

  lemma {:induction false} ContinuationSteps(d: Dialect, st: State, ls: seq<string>)
    requires st.current != "" && st.current in st.fields
    ensures Steps(d, st, DotBlanks(ls)) == Ok(Extended(st, ReadRest(d, ls)))
    decreases |ls|
  {
    if ls == [] {
      ExtendNothing(st);
    } else {
      ContinuationStep(d, st, ls[0]);
      ContinuationSteps(d, Extended(st, ReadLine(d, ls[0])), ls[1..]);
      ExtendTwice(st, ReadLine(d, ls[0]), ReadRest(d, ls[1..]));
      assert DotBlanks(ls)[1..] == DotBlanks(ls[1..]);
    }
  }

  /** A reader in this state takes the field. */
  predicate Takes(d: Dialect, st: State, name: string) {
    FieldName(name) && Lower(Normalize(d, name)) !in st.seen && ValidName(d, Normalize(d, name))
    && !OutOfBounds(d, |name|, |st.fields|)
  }

  lemma {:induction false} FirstLine(name: string, text: string)
    requires FieldName(name)
    ensures var line := name + ": " + text;
            line != "" && !Continues(line) && Index(line, ':') == |name| && line[..|name|] == name && line[|name| + 1..] == " " + text
  {
    var line := name + ": " + text;
    assert line[0] == name[0] && NameChar(name[0]);
    IndexOfColon(name, " " + text);
    assert line == name + ":" + (" " + text);
  }

  lemma {:induction false} IndexOfColon(a: string, b: string)
    requires forall i | 0 <= i < |a| :: NameChar(a[i])
    ensures Index(a + ":" + b, ':') == |a|
  {
    if a != "" {
      IndexOfColon(a[1..], b);
      assert (a + ":" + b)[1..] == a[1..] + ":" + b;
    }
  }

  /** The state once the first line of a field is read. */
  function Started(d: Dialect, st: State, name: string, text: string): State {
    var key := Normalize(d, name);
    State(st.fields[key := TrimSpace(" " + text)], st.seen + {Lower(key)}, key)
  }

  lemma {:induction false} FirstStep(d: Dialect, st: State, name: string, text: string)
    requires Takes(d, st, name)
    ensures Step(d, st, name + ": " + text) == Ok(Started(d, st, name, text))
  {
    FirstLine(name, text);
  }

  lemma {:induction false} StartedExtended(d: Dialect, st: State, name: string, text: string, more: string)
    ensures var key := Normalize(d, name);
            Extended(Started(d, st, name, text), more) ==
              State(st.fields[key := TrimSpace(" " + text) + more], st.seen + {Lower(key)}, key)
  {
    var key := Normalize(d, name);
    assert Extended(Started(d, st, name, text), more).fields == st.fields[key := TrimSpace(" " + text) + more];
  }

  /** Reading a written field adds it, with its blank lines read as the dialect does. */
  lemma {:induction false} FieldSteps(d: Dialect, st: State, name: string, value: string)
    requires Takes(d, st, name)
    ensures var key := Normalize(d, name);
            Steps(d, st, FieldLines(name, value)) ==
              Ok(State(st.fields[key := ReadValue(d, value)], st.seen + {Lower(key)}, key))
  {
    var ls := Split(value);
    var first := Started(d, st, name, ls[0]);
    FirstStep(d, st, name, ls[0]);
    StepsCons(d, st, name + ": " + ls[0], DotBlanks(ls[1..]));
    assert |first.current| == |name|;
    ContinuationSteps(d, first, ls[1..]);
    StartedExtended(d, st, name, ls[0], ReadRest(d, ls[1..]));
  }

  // ----- control files read back -----

  /** A value as parseControl makes it: the first line trimmed, no line a lone dot. */
  predicate GoodValue(value: string) {
    && AllAllowed(value) && '\r' !in value && Trimmed(Split(value)[0])
    && forall i | 1 <= i < |Split(value)| :: Split(value)[i] != "."
  }

  lemma {:induction false} RestOfGood(ls: seq<string>)
    requires forall i | 0 <= i < |ls| :: ls[i] != "."
    ensures forall first: string :: first + ReadRest(Control, ls) == Join([first] + ls)
  {
    if ls == [] {
      assert forall first: string :: [first] + ls == [first];
    } else {
      RestOfGood(ls[1..]);
      forall first: string ensures first + ReadRest(Control, ls) == Join([first] + ls) {
        assert ([first] + ls)[1..] == [ls[0]] + ls[1..];
        var rest := ReadRest(Control, ls[1..]);
        assert first + ("\n" + ls[0] + rest) == first + "\n" + (ls[0] + rest);
      }
    }
  }

  lemma {:induction false} GoodValueReadsBack(value: string)
    requires GoodValue(value)
    ensures ReadValue(Control, value) == value
  {
    var ls := Split(value);
    TrimSpaceAfterSpace(ls[0]);
    assert forall i | 0 <= i < |ls[1..]| :: ls[1..][i] == ls[i + 1];
    RestOfGood(ls[1..]);
    assert [ls[0]] + ls[1..] == ls;
    JoinSplit(value);
  }

  /** What parseControl's state satisfies after any lines. */
  predicate GoodField(st: State, k: string)
    requires k in st.fields
  {
    FieldName(k) && Canonical(k) == k && Lower(k) in st.seen && GoodValue(st.fields[k])
  }

  ghost predicate Good(st: State) {
    && (forall k | k in st.fields :: GoodField(st, k))
    && (forall j, k | j in st.fields && k in st.fields && Lower(j) == Lower(k) :: j == k)
    && (st.current == "" || st.current in st.fields)
  }

  predicate CleanLine(line: string) { OneLine(line) && AllAllowed(line) && '\r' !in line }

  lemma {:induction false} GoodSingle(text: string)
    requires CleanLine(text)
    ensures GoodValue(TrimSpace(text))
  {
    var t := TrimSpace(text);
    SplitOneLine(t);
    forall i | 0 <= i < |t| ensures Allowed(t[i]) {
      assert t[i] in text;
    }
  }

  lemma {:induction false} GoodContinued(value: string, text: string)
    requires GoodValue(value) && CleanLine(text) && text != "."
    ensures GoodValue(value + "\n" + text)
  {
    SplitAppend(value, text);
    SplitOneLine(text);
  }

  lemma {:induction false} ContinueKeepsGood(st: State, line: string)
    requires Good(st) && CleanLine(line) && Continues(line) && ContinueField(Control, st, line).Ok?
    ensures Good(ContinueField(Control, st, line).value)
  {
    GoodContinued(st.fields[st.current], Continuation(Control, line[1..]));
  }

  lemma {:induction false} StartShape(st: State, line: string) returns (name: string, value: string)
    requires CleanLine(line) && StartField(Control, st, line).Ok?
    ensures FieldName(name) && Canonical(name) == name && Lower(name) !in st.seen && GoodValue(value)
    ensures StartField(Control, st, line) == Ok(State(st.fields[name := value], st.seen + {Lower(name)}, name))
  {
    var separator := Index(line, ':');
    name := Canonical(line[..separator]);
    value := TrimSpace(line[separator + 1..]);
    GoodSingle(line[separator + 1..]);
    CanonicalTwice(line[..separator], true);
  }

  lemma {:induction false} StartKeepsGood(st: State, line: string)
    requires Good(st) && CleanLine(line) && StartField(Control, st, line).Ok?
    ensures Good(StartField(Control, st, line).value)
  {
    var name, value := StartShape(st, line);
  }

  lemma {:induction false} StepKeepsGood(st: State, line: string)
    requires Good(st) && CleanLine(line) && Step(Control, st, line).Ok?
    ensures Good(Step(Control, st, line).value)
  {
    if Continues(line) {
      ContinueKeepsGood(st, line);
    } else if line != "" {
      StartKeepsGood(st, line);
    }
  }

  lemma {:induction false} StepsKeepGood(st: State, ls: seq<string>)
    requires Good(st) && (forall i | 0 <= i < |ls| :: CleanLine(ls[i])) && Steps(Control, st, ls).Ok?
    ensures Good(Steps(Control, st, ls).value)
    decreases |ls|
  {
    if ls != [] {
      StepKeepsGood(st, ls[0]);
      StepsKeepGood(Step(Control, st, ls[0]).value, ls[1..]);
    }
  }
}
