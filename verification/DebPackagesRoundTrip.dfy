/** Parsing a rendered Packages index gives back its packages. */
module DebPackagesRoundTrip {
  import opened Wrappers
  import opened Lines
  import opened ControlText
  import opened ControlRoundTrip
  import opened DebPackages

  // ----- paragraphs of an index -----

  /** No blank line inside, and no newline at the end. */
  predicate Solid(s: string) {
    && (forall i | 0 <= i < |s| - 1 && s[i] == '\n' :: s[i + 1] != '\n')
    && (s == "" || s[|s| - 1] != '\n')
  }

  predicate FullLines(ls: seq<string>) { ls != [] && forall i | 0 <= i < |ls| :: ls[i] != "" && OneLine(ls[i]) }

  lemma {:induction false} BlankLineAt(s: string, rest: string)
    requires Solid(s)
    ensures BlankLine(s + "\n\n" + rest) == |s|
  {
    var all := s + "\n\n" + rest;
    if s != "" {
      assert all[1..] == s[1..] + "\n\n" + rest;
      assert Solid(s[1..]);
      assert all[0] == s[0] && all[1] == if |s| > 1 then s[1] else '\n';
      BlankLineAt(s[1..], rest);
    }
  }

  lemma {:induction false} ParagraphStep(s: string, rest: string)
    requires Solid(s) && s != "" && '\r' !in s && '\r' !in rest
    ensures Paragraphs(s + "\n\n" + rest) == [s] + Paragraphs(rest)
  {
    var all := s + "\n\n" + rest;
    BlankLineAt(s, rest);
    assert all[..|s|] == s && all[|s| + 2..] == rest;
  }

  lemma {:induction false} JoinSolid(ls: seq<string>)
    requires FullLines(ls)
    ensures Join(ls) != "" && Solid(Join(ls)) && Join(ls)[0] == ls[0][0]
    ensures Text(ls) == Join(ls) + "\n"
  {
    if |ls| == 1 {
      assert Text(ls) == ls[0] + "\n" + Text([]);
    } else {
      JoinSolid(ls[1..]);
      var a, b := ls[0], Join(ls[1..]);
      Glue(a, b, "\n");
    }
  }

  // ----- the fields of a stanza -----

  predicate Plain(value: string) { value != "" && OneLine(value) && Trimmed(value) }

  lemma {:induction false} PlainReadsBack(d: Dialect, value: string)
    requires OneLine(value) && Trimmed(value)
    ensures ReadValue(d, value) == value && Split(value) == [value]
  {
    SplitOneLine(value);
    TrimSpaceAfterSpace(value);
    assert [value][1..] == [] && value + "" == value;
  }

  predicate DistinctNames(order: seq<string>) {
    forall i, j | 0 <= i < j < |order| :: Lower(order[i]) != Lower(order[j])
  }

  /** The bounds of the reader: 256 fields, names of 64 characters. */
  predicate Bounded(order: seq<string>) { |order| <= 256 && forall i | 0 <= i < |order| :: |order[i]| <= 64 }

  /** What the reader takes: names that differ ignoring case, within its bounds. */
  predicate Takeable(order: seq<string>) { DistinctNames(order) && Bounded(order) }

  lemma {:induction false} TakeableFront(order: seq<string>, n: nat)
    requires n <= |order| && Takeable(order)
    ensures Takeable(order[..n])
  {
    assert forall i | 0 <= i < n :: order[..n][i] == order[i];
  }

  predicate NewName(order: seq<string>, n: nat)
    requires n < |order|
  {
    forall i | 0 <= i < n :: Lower(order[i]) != Lower(order[n])
  }

  /** One name more. */
  lemma {:induction false} TakeableNext(order: seq<string>, n: nat)
    requires n < |order| && Takeable(order[..n])
    ensures Takeable(order[..n + 1]) <==> NewName(order, n) && |order[n]| <= 64 && n < 256
  {
    var now, next := order[..n], order[..n + 1];
    assert forall i | 0 <= i < n :: now[i] == order[i];
    assert forall i | 0 <= i <= n :: next[i] == order[i];
    if NewName(order, n) {
      forall i, j | 0 <= i < j < |next| ensures Lower(next[i]) != Lower(next[j]) {
        assert j < n ==> Lower(now[i]) != Lower(now[j]);
      }
    }
    if DistinctNames(next) {
      forall i | 0 <= i < n ensures Lower(order[i]) != Lower(order[n]) {
        assert Lower(next[i]) != Lower(next[n]);
      }
    }
  }

  predicate Writable(order: seq<string>, fields: map<string, string>) {
    && (forall k | k in order :: k in fields)
    && (forall i | 0 <= i < |order| :: FieldName(order[i]) && AllAllowed(fields[order[i]]) && '\r' !in fields[order[i]])
  }

  /** n fields, and no other names seen. */
  predicate Counted(st: State, n: nat) { |st.fields| == n && forall k | k in st.fields :: k in st.seen }

  /** The names seen are those of the first n fields, in lower case. */
  ghost predicate HasSeen(st: State, order: seq<string>, n: nat)
    requires n <= |order|
  {
    (forall s | s in st.seen :: exists i | 0 <= i < n :: s == Lower(order[i])) && (forall i | 0 <= i < n :: Lower(order[i]) in st.seen)
  }

  /** The reader's state after the first n fields: their names in lower case, and the
      plain values as they are. */
  ghost predicate HasRead(st: State, order: seq<string>, fields: map<string, string>, n: nat)
    requires n <= |order| && forall k | k in order :: k in fields
  {
    && Counted(st, n)
    && HasSeen(st, order, n)
    && (forall i | 0 <= i < n && Plain(fields[order[i]]) ::
          Lower(order[i]) in st.fields && st.fields[Lower(order[i])] == fields[order[i]])
  }

  lemma {:induction false} ReaderTakes(st: State, order: seq<string>, fields: map<string, string>, n: nat)
    requires Writable(order, fields) && n < |order| && HasRead(st, order, fields, n) && Takeable(order[..n])
    ensures Takes(Repository, st, order[n]) <==> Takeable(order[..n + 1])
    ensures Takeable(order[..n + 1]) ==> NewName(order, n)
    ensures Lower(Lower(order[n])) == Lower(order[n])
  {
    TakeableNext(order, n);
    LowerTwice(order[n]);
    LowerOfName(order[n]);
  }

  lemma {:induction false} SeenNext(st: State, order: seq<string>, n: nat, value: string, current: string)
    requires n < |order| && Counted(st, n) && HasSeen(st, order, n) && NewName(order, n)
    ensures var next := State(st.fields[Lower(order[n]) := value], st.seen + {Lower(order[n])}, current);
            Counted(next, n + 1) && HasSeen(next, order, n + 1)
  {
    var key := Lower(order[n]);
    assert key !in st.seen && key !in st.fields;
  }

  /** Whatever value it ends up with, a new field leaves the ones before it. */
  lemma {:induction false} ReadNext(st: State, order: seq<string>, fields: map<string, string>, n: nat, value: string, current: string)
    requires forall k | k in order :: k in fields
    requires n < |order| && HasRead(st, order, fields, n) && NewName(order, n)
    requires Plain(fields[order[n]]) ==> value == fields[order[n]]
    ensures HasRead(State(st.fields[Lower(order[n]) := value], st.seen + {Lower(order[n])}, current), order, fields, n + 1)
  {
    assert order[n] in order;
    SeenNext(st, order, n, value, current);
  }

  lemma {:induction false} StanzaSteps(order: seq<string>, fields: map<string, string>, n: nat) returns (st: State)
    requires Writable(order, fields) && n <= |order| && Takeable(order[..n])
    ensures forall k | k in order[..n] :: k in fields
    ensures Steps(Repository, START, WrittenLines(order[..n], fields)) == Ok(st) && HasRead(st, order, fields, n)
    decreases n
  {
    if n == 0 {
      st := START;
      assert order[..0] == [];
    } else {
      TakeableFront(order[..n], n - 1);
      assert order[..n - 1] == order[..n][..n - 1];
      var before := StanzaSteps(order, fields, n - 1);
      WrittenNext(order, fields, n - 1);
      var name := order[n - 1];
      ReaderTakes(before, order, fields, n - 1);
      FieldSteps(Repository, before, name, fields[name]);
      if Plain(fields[name]) {
        PlainReadsBack(Repository, fields[name]);
      }
      st := State(before.fields[Lower(name) := ReadValue(Repository, fields[name])], before.seen + {Lower(name)}, Lower(name));
      ReadNext(before, order, fields, n - 1, ReadValue(Repository, fields[name]), Lower(name));
      StepsAppend(Repository, START, WrittenLines(order[..n - 1], fields), FieldLines(name, fields[name]));
    }
  }

  // ----- the last field, trimmed -----

  /** Every line after the first is blank or begins with a space. */
  predicate Indented(s: string) { forall i | 0 <= i < |s| - 1 && s[i] == '\n' :: s[i + 1] == ' ' }

  lemma {:induction false} IndentedJoin(ls: seq<string>)
    requires ls != [] && OneLines(ls) && forall i | 1 <= i < |ls| :: ls[i] != "" && ls[i][0] == ' '
    ensures Indented(Join(ls)) && (ls[0] != "" ==> Join(ls) != "" && Join(ls)[0] == ls[0][0])
  {
    if |ls| == 1 {
      assert forall i | 0 <= i < |ls[0]| :: ls[0][i] in ls[0];
    } else {
      IndentedJoin(ls[1..]);
      assert ls[1..][0] == ls[1];
    }
  }

  lemma {:induction false} IndentedRest(s: string, e: nat)
    requires Indented(s) && e < |s| && s[e] == '\n'
    ensures Indented(s[e + 1..]) && (e + 1 < |s| ==> s[e + 1..][0] == ' ')
  {
    var rest := s[e + 1..];
    assert forall i | 0 <= i < |rest| :: rest[i] == s[e + 1 + i];
  }

  lemma {:induction false} IndentedSplit(s: string, i: nat)
    requires Indented(s) && 1 <= i < |Split(s)|
    ensures Split(s)[i] == "" || Split(s)[i][0] == ' '
    decreases |s|
  {
    var e := LineEnd(s);
    IndentedRest(s, e);
    if i == 1 {
      FirstPiece(s[e + 1..]);
    } else {
      IndentedSplit(s[e + 1..], i - 1);
    }
  }

  lemma {:induction false} FirstPiece(s: string)
    ensures Split(s)[0] == "" || (s != "" && Split(s)[0][0] == s[0])
  {
  }

  lemma {:induction false} LooseSteps(d: Dialect, st: State, ls: seq<string>) returns (more: string)
    requires st.current != "" && st.current in st.fields
    requires forall i | 0 <= i < |ls| :: ls[i] == "" || ls[i][0] == ' '
    ensures Steps(d, st, ls) == Ok(Extended(st, more))
    decreases |ls|
  {
    if ls == [] {
      more := "";
      ExtendNothing(st);
    } else if ls[0] == "" {
      more := LooseSteps(d, st, ls[1..]);
    } else {
      var first := "\n" + Continuation(d, ls[0][1..]);
      assert st.fields[st.current] + "\n" + Continuation(d, ls[0][1..]) == st.fields[st.current] + first;
      assert Step(d, st, ls[0]) == Ok(Extended(st, first));
      var rest := LooseSteps(d, Extended(st, first), ls[1..]);
      ExtendTwice(st, first, rest);
      more := first + rest;
    }
  }

  /** The first line of what remains of a field still names it. */
  lemma {:induction false} StillNamed(name: string, rest: string, s: string)
    requires FieldName(name) && s <= name + ":" + rest && |name| < |s|
    ensures |name| < LineEnd(s) && Split(s)[0] == s[..LineEnd(s)]
    ensures Index(s[..LineEnd(s)], ':') == |name| && s[..LineEnd(s)][..|name|] == name
    ensures s[0] == name[0] && !Continues(s[..LineEnd(s)])
  {
    var e := LineEnd(s);
    assert s[..|name|] == name && s[|name|] == ':';
    assert forall i | 0 <= i < |name| :: s[i] == name[i] && NameChar(s[i]);
    var line := s[..e];
    assert line == name + ":" + line[|name| + 1..];
    IndexOfColon(name, line[|name| + 1..]);
    assert NameChar(name[0]);
  }

  lemma {:induction false} CutFirstStep(st: State, name: string, line: string)
    requires FieldName(name) && Takes(Repository, st, name)
    requires |name| < |line| && line[..|name|] == name && Index(line, ':') == |name| && !Continues(line)
    ensures Step(Repository, st, line) ==
              Ok(State(st.fields[Lower(name) := TrimSpace(line[|name| + 1..])], st.seen + {Lower(name)}, Lower(name)))
  {
    LowerTwice(name);
  }

  lemma {:induction false} LooseTail(s: string)
    requires Indented(s)
    ensures forall i | 0 <= i < |Split(s)[1..]| :: Split(s)[1..][i] == "" || Split(s)[1..][i][0] == ' '
  {
    var ls := Split(s);
    forall i | 0 <= i < |ls[1..]| ensures ls[1..][i] == "" || ls[1..][i][0] == ' ' {
      IndentedSplit(s, i + 1);
    }
  }

  /** A field cut short anywhere after its name and colon is still read as that field. */
  lemma {:induction false} CutFieldSteps(st: State, name: string, rest: string, s: string) returns (value: string)
    requires FieldName(name) && Takes(Repository, st, name)
    requires s <= name + ":" + rest && |name| < |s| && Indented(s)
    ensures Steps(Repository, st, Split(s)) ==
              Ok(State(st.fields[Lower(name) := value], st.seen + {Lower(name)}, Lower(name)))
  {
    var line, tail := Split(s)[0], Split(s)[1..];
    StillNamed(name, rest, s);
    CutFirstStep(st, name, line);
    var key := Lower(name);
    var first := State(st.fields[key := TrimSpace(line[|name| + 1..])], st.seen + {key}, key);
    LooseTail(s);
    assert |key| == |name|;
    var more := LooseSteps(Repository, first, tail);
    assert Split(s) == [line] + tail;
    value := first.fields[key] + more;
    assert Extended(first, more).fields == st.fields[key := value];
  }

  /** And a repeated name is refused, cut short or not. */
  lemma {:induction false} CutNameRefused(st: State, name: string, rest: string, s: string)
    requires FieldName(name) && !Takes(Repository, st, name)
    requires s <= name + ":" + rest && |name| < |s|
    ensures Steps(Repository, st, Split(s)).Err?
  {
    StillNamed(name, rest, s);
    LowerTwice(name);
    LowerOfName(name);
  }

  // ----- a whole stanza -----

  lemma {:induction false} JoinAppend(a: seq<string>, b: seq<string>)
    requires a != [] && b != []
    ensures Join(a + b) == Join(a) + "\n" + Join(b)
  {
    if |a| == 1 {
      assert (a + b)[1..] == b;
    } else {
      JoinAppend(a[1..], b);
      assert (a + b)[1..] == a[1..] + b;
      Glue(a[0], Join(a[1..]), Join(b));
    }
  }

  lemma {:induction false} FieldIsNamed(name: string, value: string) returns (rest: string)
    requires FieldName(name) && OneLines(FieldLines(name, value))
    ensures Join(FieldLines(name, value)) == name + ":" + rest && Indented(Join(FieldLines(name, value)))
  {
    var ls := FieldLines(name, value);
    var first := Split(value)[0];
    FieldLineAt(name, value, 0);
    forall i | 1 <= i < |ls| ensures ls[i] != "" && ls[i][0] == ' ' {
      FieldLineAt(name, value, i);
    }
    IndentedJoin(ls);
    if |ls| == 1 {
      rest := " " + first;
    } else {
      rest := " " + first + "\n" + Join(ls[1..]);
    }
  }

  lemma {:induction false} TrimRightReaches(s: string, i: nat)
    requires i < |s| && !IsSpace(s[i])
    ensures i < |TrimRight(s)|
  {
    if IsSpace(s[|s| - 1]) {
      TrimRightReaches(s[..|s| - 1], i);
    }
  }

  lemma {:induction false} NamesAreNotSpace(c: char)
    requires NameChar(c) || c == ':'
    ensures !IsSpace(c)
  {
  }

  lemma {:induction false} IndentedPrefix(s: string, t: string)
    requires Indented(t) && s <= t
    ensures Indented(s)
  {
    assert forall i | 0 <= i < |s| :: s[i] == t[i];
  }

  /** What TrimSpace leaves of a stanza: all of it but the end of the last field. */
  lemma {:induction false} TrimStanza(a: string, b: string, name: string, rest: string)
    requires a != "" && !IsSpace(a[0]) && FieldName(name) && b == name + ":" + rest
    ensures TrimSpace(a + "\n" + b) == a + "\n" + TrimRight(b) && |name| < |TrimRight(b)| && TrimRight(b) <= b
  {
    NamesAreNotSpace(':');
    assert b[|name|] == ':' && ':' in b;
    TrimRightReaches(b, |name|);
    var s := a + "\n" + b;
    assert s[0] == a[0] && TrimLeft(s) == s;
    assert s == (a + "\n") + b;
    TrimRightKeeps(a + "\n", b);
  }

  /** The lines parseRepositoryFields sees of a stanza. */
  lemma {:induction false} StanzaLines(ls: seq<string>, b: string)
    requires ls != [] && CleanLines(ls) && AllAllowed(b) && '\r' !in b
    ensures ParseFields(Repository, Join(ls) + "\n" + b) == FieldsOf(Steps(Repository, START, ls + Split(b)))
  {
    assert OneLines(ls);
    JoinClean(ls);
    SplitJoin(ls);
    SplitAppend(Join(ls), b);
    ContentClean(b);
    ChompedClean(ls + Split(b));
  }

  lemma {:induction false} JoinClean(ls: seq<string>)
    requires ls != [] && CleanLines(ls)
    ensures AllAllowed(Join(ls)) && '\r' !in Join(ls)
  {
    assert CleanLine(ls[0]);
    if |ls| > 1 {
      JoinClean(ls[1..]);
    }
  }

  /** The text of a stanza without its blank line: everything before the last field,
      and the last field. */
  function Body(order: seq<string>, fields: map<string, string>): string
    requires order != [] && forall k | k in order :: k in fields
  {
    var ls := WrittenLines(order, fields);
    if ls == [] then "" else Join(ls)
  }

  lemma {:induction false} WritableLines(order: seq<string>, fields: map<string, string>)
    requires Writable(order, fields)
    ensures CleanLines(WrittenLines(order, fields))
    ensures order != [] ==> WrittenLines(order, fields) != [] && WrittenLines(order, fields)[0] != ""
                            && WrittenLines(order, fields)[0][0] == order[0][0]
    ensures forall i | 0 <= i < |WrittenLines(order, fields)| :: WrittenLines(order, fields)[i] != ""
    decreases |order|
  {
    if order != [] {
      var n := |order| - 1;
      var name := order[n];
      assert name in order;
      assert forall k | k in order[..n] :: k in order;
      WritableLines(order[..n], fields);
      FieldLinesClean(name, fields[name]);
      var ls := FieldLines(name, fields[name]);
      assert ls[0][0] == name[0];
      if n > 0 { assert order[..n][0] == order[0]; }
    }
  }
}
