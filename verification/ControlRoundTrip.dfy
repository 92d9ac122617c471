/** What parseControl accepts, writeField writes back so that parseControl reads the
    same fields again (formats/deb/inspect.go, formats/deb/render.go). */
module ControlRoundTrip {
  import opened Wrappers
  import opened Lines
  import opened ControlText

  /** The fields, written in the given order. */
  function WrittenLines(order: seq<string>, fields: map<string, string>): seq<string>
    requires forall k | k in order :: k in fields
  {
    if order == [] then []
    else
      var n := |order| - 1;
      assert order[n] in order;
      WrittenLines(order[..n], fields) + FieldLines(order[n], fields[order[n]])
  }

  method WriteFields(order: seq<string>, fields: map<string, string>) returns (output: string)
    requires forall k | k in order :: k in fields
    ensures output == Text(WrittenLines(order, fields))
  {
    output := "";
    for i := 0 to |order|
      invariant output == Text(WrittenLines(order[..i], fields))
    {
      ghost var before := WrittenLines(order[..i], fields);
      assert order[..i + 1][..i] == order[..i] && order[i] in order;
      output := WriteField(output, order[i], fields[order[i]]);
      TextAppend(before, FieldLines(order[i], fields[order[i]]));
    }
    assert order[..|order|] == order;
  }

  /** Every field once, in any order. */
  ghost predicate Lists(order: seq<string>, fields: map<string, string>) {
    && (forall k :: k in order <==> k in fields)
    && (forall i, j | 0 <= i < j < |order| :: order[i] != order[j])
  }

  /** The names differ even in lower case, and are names and values parseControl made. */
  ghost predicate Readable(fields: map<string, string>) {
    && (forall k | k in fields :: FieldName(k) && Canonical(k) == k && GoodValue(fields[k]))
    && (forall j, k | j in fields && k in fields && Lower(j) == Lower(k) :: j == k)
  }

  /** The reader's state after the first n fields of the order. */
  ghost predicate ReadUpTo(st: State, order: seq<string>, fields: map<string, string>, n: nat)
    requires n <= |order|
  {
    && (forall k :: k in st.fields <==> k in order[..n])
    && (forall k | k in st.fields :: k in fields && st.fields[k] == fields[k])
    && (forall s | s in st.seen :: exists k | k in order[..n] :: s == Lower(k))
  }

  lemma {:induction false} ReadOneMore(st: State, order: seq<string>, fields: map<string, string>, n: nat)
    requires n < |order| && order[n] in fields && ReadUpTo(st, order, fields, n)
    ensures ReadUpTo(State(st.fields[order[n] := fields[order[n]]], st.seen + {Lower(order[n])}, order[n]), order, fields, n + 1)
  {
    assert order[..n + 1] == order[..n] + [order[n]];
    assert order[n] in order[..n + 1];
  }

  lemma {:induction false} NextField(st: State, order: seq<string>, fields: map<string, string>, n: nat)
    requires Lists(order, fields) && Readable(fields) && n < |order| && ReadUpTo(st, order, fields, n)
    ensures Takes(Control, st, order[n])
    ensures order[n] in fields && Normalize(Control, order[n]) == order[n]
    ensures ReadUpTo(State(st.fields[order[n] := fields[order[n]]], st.seen + {Lower(order[n])}, order[n]), order, fields, n + 1)
  {
    ReadOneMore(st, order, fields, n);
  }

  lemma {:induction false} WrittenNext(order: seq<string>, fields: map<string, string>, n: nat)
    requires n < |order| && forall k | k in order :: k in fields
    ensures order[n] in fields && (forall k | k in order[..n + 1] :: k in fields) && (forall k | k in order[..n] :: k in fields)
    ensures WrittenLines(order[..n + 1], fields) == WrittenLines(order[..n], fields) + FieldLines(order[n], fields[order[n]])
  {
    assert order[..n + 1][..n] == order[..n] && order[..n + 1][n] == order[n];
    assert order[n] in order;
    assert forall k | k in order[..n + 1] :: k in order;
  }

  lemma {:induction false} FieldAdds(st: State, name: string, value: string)
    requires Takes(Control, st, name) && Canonical(name) == name && GoodValue(value)
    ensures Steps(Control, st, FieldLines(name, value)) ==
              Ok(State(st.fields[name := value], st.seen + {Lower(name)}, name))
  {
    FieldSteps(Control, st, name, value);
    GoodValueReadsBack(value);
  }

  /** One more field read. */
  lemma {:induction false} WrittenStep(order: seq<string>, fields: map<string, string>, n: nat, before: State) returns (st: State)
    requires Lists(order, fields) && Readable(fields) && n < |order| && ReadUpTo(before, order, fields, n)
    requires forall k | k in order[..n] :: k in fields
    requires Steps(Control, START, WrittenLines(order[..n], fields)) == Ok(before)
    ensures forall k | k in order[..n + 1] :: k in fields
    ensures Steps(Control, START, WrittenLines(order[..n + 1], fields)) == Ok(st) && ReadUpTo(st, order, fields, n + 1)
  {
    WrittenNext(order, fields, n);
    var name := order[n];
    NextField(before, order, fields, n);
    st := State(before.fields[name := fields[name]], before.seen + {Lower(name)}, name);
    FieldAdds(before, name, fields[name]);
    StepsAppend(Control, START, WrittenLines(order[..n], fields), FieldLines(name, fields[name]));
  }

  lemma {:induction false} WrittenSteps(order: seq<string>, fields: map<string, string>, n: nat) returns (st: State)
    requires Lists(order, fields) && Readable(fields) && n <= |order|
    ensures forall k | k in order[..n] :: k in fields
    ensures Steps(Control, START, WrittenLines(order[..n], fields)) == Ok(st)
    ensures ReadUpTo(st, order, fields, n)
    decreases n
  {
    if n == 0 {
      st := START;
      assert order[..0] == [];
    } else {
      var before := WrittenSteps(order, fields, n - 1);
      st := WrittenStep(order, fields, n - 1, before);
    }
  }

  // ----- the written text is clean -----

  predicate CleanLines(ls: seq<string>) { forall i | 0 <= i < |ls| :: CleanLine(ls[i]) }

  lemma {:induction false} PieceIsClean(value: string, i: nat)
    requires AllAllowed(value) && '\r' !in value && i < |Split(value)|
    ensures CleanLine(Split(value)[i])
    decreases |value|
  {
    var e := LineEnd(value);
    if e < |value| {
      if i == 0 {
        assert forall c | c in value[..e] :: c in value;
      } else {
        assert forall c | c in value[e + 1..] :: c in value;
        PieceIsClean(value[e + 1..], i - 1);
      }
    }
  }

  lemma {:induction false} DotBlankIsClean(line: string)
    requires CleanLine(line)
    ensures CleanLine(DotBlank(line))
  {
  }

  lemma {:induction false} FieldLinesClean(name: string, value: string)
    requires FieldName(name) && AllAllowed(value) && '\r' !in value
    ensures CleanLines(FieldLines(name, value))
  {
    var ls := Split(value);
    var all := FieldLines(name, value);
    FieldLineAt(name, value, 0);
    forall i | 0 <= i < |all| ensures CleanLine(all[i]) {
      PieceIsClean(value, i);
      FieldLineAt(name, value, i);
      DotBlankIsClean(ls[i]);
    }
  }

  lemma {:induction false} WrittenClean(order: seq<string>, fields: map<string, string>)
    requires Readable(fields) && forall k | k in order :: k in fields
    ensures CleanLines(WrittenLines(order, fields))
    decreases |order|
  {
    if order != [] {
      var n := |order| - 1;
      assert order[n] in order;
      WrittenClean(order[..n], fields);
      FieldLinesClean(order[n], fields[order[n]]);
    }
  }

  lemma {:induction false} TextAllowed(ls: seq<string>)
    requires CleanLines(ls)
    ensures AllAllowed(Text(ls)) && OneLines(ls)
  {
    if ls != [] {
      TextAllowed(ls[1..]);
      assert CleanLine(ls[0]);
    }
  }

  lemma {:induction false} ChompedClean(ls: seq<string>)
    requires CleanLines(ls)
    ensures Chomped(ls) == ls
  {
    forall i | 0 <= i < |ls| ensures Chomp(ls[i]) == ls[i] {
      assert ls[i] != "" ==> ls[i][|ls[i]| - 1] in ls[i];
    }
  }

  /** Reading written lines is reading the lines. */
  lemma {:induction false} BlankEnd(d: Dialect, ls: seq<string>)
    ensures Steps(d, START, ls + [""]) == Steps(d, START, ls)
  {
    StepsAppend(d, START, ls, [""]);
  }

  lemma {:induction false} SplitOfText(ls: seq<string>)
    requires OneLines(ls)
    ensures Split(Text(ls)) == ls + [""]
  {
    SplitText(ls, "");
    assert Text(ls) + "" == Text(ls);
    SplitOneLine("");
  }

  lemma {:induction false} ReadText(d: Dialect, ls: seq<string>)
    requires CleanLines(ls)
    ensures ParseFields(d, Text(ls)) == FieldsOf(Steps(d, START, ls))
  {
    TextAllowed(ls);
    SplitOfText(ls);
    ChompedClean(ls + [""]);
    BlankEnd(d, ls);
  }

  // ----- the round trip -----

  lemma {:induction false} ContentClean(content: string)
    requires AllAllowed(content) && '\r' !in content
    ensures CleanLines(Split(content))
  {
    forall i | 0 <= i < |Split(content)| ensures CleanLine(Split(content)[i]) {
      PieceIsClean(content, i);
    }
  }

  lemma {:induction false} AcceptedIsReadable(content: string)
    requires '\r' !in content && ParseFields(Control, content).Ok?
    ensures Readable(ParseFields(Control, content).value)
  {
    ContentClean(content);
    ChompedClean(Split(content));
    StepsKeepGood(START, Split(content));
    var st := Steps(Control, START, Split(content)).value;
    forall k | k in st.fields ensures FieldName(k) && Canonical(k) == k && GoodValue(st.fields[k]) {
      assert GoodField(st, k);
    }
  }

  lemma {:induction false} ReadThemAll(st: State, order: seq<string>, fields: map<string, string>)
    requires Lists(order, fields) && ReadUpTo(st, order, fields, |order|)
    ensures st.fields == fields
  {
    assert order[..|order|] == order;
  }

  /** Written fields are read back, in whatever order they were written. */
  lemma {:induction false} WrittenReadsBack(order: seq<string>, fields: map<string, string>)
    requires Lists(order, fields) && Readable(fields)
    ensures ParseFields(Control, Text(WrittenLines(order, fields))) == Ok(fields)
  {
    WrittenClean(order, fields);
    ReadText(Control, WrittenLines(order, fields));
    var st := WrittenSteps(order, fields, |order|);
    assert order[..|order|] == order;
    ReadThemAll(st, order, fields);
  }

  /** For every control file without carriage returns that parseControl accepts, writing
      its fields in any order and parsing again gives the same fields. */
  lemma {:induction false} ControlRoundTrip(content: string, order: seq<string>)
    requires '\r' !in content && ParseFields(Control, content).Ok?
    requires Lists(order, ParseFields(Control, content).value)
    ensures var fields := ParseFields(Control, content).value;
            (forall k | k in order :: k in fields) && ParseFields(Control, Text(WrittenLines(order, fields))) == Ok(fields)
  {
    AcceptedIsReadable(content);
    WrittenReadsBack(order, ParseFields(Control, content).value);
  }
}
