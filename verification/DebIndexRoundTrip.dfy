/** Parsing a rendered Packages index gives back, in order, exactly its packages; and
    the exact condition on its field names. */
module DebIndexRoundTrip {
  import opened Wrappers
  import opened Lines
  import opened Decimal
  import opened Integers
  import opened ControlText
  import opened ControlRoundTrip
  import opened DebPackages
  import opened DebPackagesRoundTrip

  /** A stanza cut into the lines before its last field and what is left of that field. */
  lemma {:induction false} StanzaCut(order: seq<string>, fields: map<string, string>) returns (rest: string, b: string)
    requires Writable(order, fields) && |order| >= 2
    ensures var n := |order| - 1;
            var name := order[n];
            && (forall k | k in order[..n] :: k in fields) && name in fields
            && b == name + ":" + rest && Indented(b) && AllAllowed(b) && '\r' !in b
            && b == Join(FieldLines(name, fields[name]))
            && TrimSpace(Body(order, fields)) != ""
            && ParseFields(Repository, TrimSpace(Body(order, fields))) ==
                 FieldsOf(Steps(Repository, START, WrittenLines(order[..n], fields) + Split(TrimRight(b))))
            && |name| < |TrimRight(b)| && TrimRight(b) <= b
  {
    var n := |order| - 1;
    var name := order[n];
    assert order[..n + 1] == order;
    WrittenNext(order, fields, n);
    var before, last := WrittenLines(order[..n], fields), FieldLines(name, fields[name]);
    assert forall i | 0 <= i < n :: order[..n][i] == order[i];
    WritableLines(order[..n], fields);
    FieldLinesClean(name, fields[name]);
    rest := FieldIsNamed(name, fields[name]);
    b := Join(last);
    JoinClean(last);
    JoinAppend(before, last);
    NamesAreNotSpace(order[0][0]);
    TrimStanza(Join(before), b, name, rest);
    TrimmedClean(b);
    StanzaLines(before, TrimRight(b));
  }

  lemma {:induction false} TrimmedClean(b: string)
    requires AllAllowed(b) && '\r' !in b
    ensures AllAllowed(TrimRight(b)) && '\r' !in TrimRight(b)
  {
    var t := TrimRight(b);
    assert t == b[..|t|];
  }

  /** A plain value loses nothing to trimming. */
  lemma {:induction false} PlainIsNotCut(name: string, value: string)
    requires Plain(value)
    ensures var b := Join(FieldLines(name, value)); TrimRight(b) == b && Split(value) == [value] && FieldLines(name, value) == [b]
  {
    SplitOneLine(value);
    var b := name + ": " + value;
    assert b[|b| - 1] == value[|value| - 1];
  }

  /** Every plain field of a stanza is read back under its lower-case name. */
  lemma {:induction false} StanzaReads(order: seq<string>, fields: map<string, string>) returns (st: State)
    requires Writable(order, fields) && |order| >= 2 && Takeable(order)
    ensures TrimSpace(Body(order, fields)) != ""
    ensures ParseFields(Repository, TrimSpace(Body(order, fields))) == Ok(st.fields)
    ensures HasRead(st, order, fields, |order|)
  {
    var n := |order| - 1;
    var name := order[n];
    var rest, b := StanzaCut(order, fields);
    TakeableFront(order, n);
    assert order[..n + 1] == order;
    var before := StanzaSteps(order, fields, n);
    ReaderTakes(before, order, fields, n);
    StepsAppend(Repository, START, WrittenLines(order[..n], fields), Split(TrimRight(b)));
    var value;
    if Plain(fields[name]) {
      PlainIsNotCut(name, fields[name]);
      PlainReadsBack(Repository, fields[name]);
      FieldSteps(Repository, before, name, fields[name]);
      FieldLinesClean(name, fields[name]) by { assert name in order; }
      SplitOneLine(b);
      value := fields[name];
    } else {
      IndentedPrefix(TrimRight(b), b);
      value := CutFieldSteps(before, name, rest, TrimRight(b));
    }
    st := State(before.fields[Lower(name) := value], before.seen + {Lower(name)}, Lower(name));
    ReadNext(before, order, fields, n, value, Lower(name));
  }

  lemma {:induction false} NameRefused(st: State, name: string, value: string)
    requires FieldName(name) && !Takes(Repository, st, name)
    ensures Steps(Repository, st, FieldLines(name, value)).Err?
  {
    var v := Split(value);
    FirstLine(name, v[0]);
    LowerTwice(name);
    LowerOfName(name);
    assert Step(Repository, st, name + ": " + v[0]).Err?;
  }

  lemma {:induction false} NamesRefused(order: seq<string>, fields: map<string, string>, n: nat)
    requires Writable(order, fields) && n <= |order| && !Takeable(order[..n])
    ensures forall k | k in order[..n] :: k in fields
    ensures Steps(Repository, START, WrittenLines(order[..n], fields)).Err?
    decreases n
  {
    var m := n - 1;
    WrittenNext(order, fields, m);
    var name := order[m];
    StepsAppend(Repository, START, WrittenLines(order[..m], fields), FieldLines(name, fields[name]));
    if Takeable(order[..m]) {
      var st := StanzaSteps(order, fields, m);
      ReaderTakes(st, order, fields, m);
      NameRefused(st, name, fields[name]);
    } else {
      NamesRefused(order, fields, m);
    }
  }

  /** The lines before the last field and what is left of that one are refused. */
  lemma {:induction false} LinesRefused(order: seq<string>, fields: map<string, string>, rest: string, s: string)
    requires Writable(order, fields) && |order| >= 2 && !Takeable(order)
    requires s <= order[|order| - 1] + ":" + rest && |order[|order| - 1]| < |s|
    ensures var n := |order| - 1;
            && (forall k | k in order[..n] :: k in fields)
            && Steps(Repository, START, WrittenLines(order[..n], fields) + Split(s)).Err?
  {
    var n := |order| - 1;
    WrittenNext(order, fields, n);
    StepsAppend(Repository, START, WrittenLines(order[..n], fields), Split(s));
    if Takeable(order[..n]) {
      var before := StanzaSteps(order, fields, n);
      assert order[..n + 1] == order;
      ReaderTakes(before, order, fields, n);
      CutNameRefused(before, order[n], rest, s);
    } else {
      NamesRefused(order, fields, n);
    }
  }

  /** A stanza that names a field twice, in whatever case, or is out of bounds is refused. */
  lemma {:induction false} StanzaRefused(order: seq<string>, fields: map<string, string>)
    requires Writable(order, fields) && |order| >= 2 && !Takeable(order)
    ensures TrimSpace(Body(order, fields)) != "" && ParseFields(Repository, TrimSpace(Body(order, fields))).Err?
  {
    var rest, b := StanzaCut(order, fields);
    LinesRefused(order, fields, rest, TrimRight(b));
  }

  // ----- entries -----

  /** A package the renderer can write in this order: every field once, clean values, and the fields an index entry needs in their plain form. */
  ghost predicate Renderable(safe: string -> bool, e: Indexed, order: seq<string>) {
    var fields := PublishedFields(e);
    && Lists(order, fields) && Writable(order, fields)
    && "Package" in fields && "Version" in fields && "Architecture" in fields
    && Plain(fields["Package"]) && Plain(fields["Version"]) && Plain(fields["Architecture"])
    && Plain(e.poolPath) && e.size < INT64_LIMIT
    && ValidEntry(safe, Published(e))
  }

  /** The entry a package should have. */
  function Published(e: Indexed): Package {
    Package(Get(PublishedFields(e), "Package"), Get(PublishedFields(e), "Version"), Get(PublishedFields(e), "Architecture"),
            e.poolPath, e.size, e.sha256)
  }

  lemma {:induction false} LowerIs(s: string, t: string)
    requires |s| == |t| && forall i | 0 <= i < |s| :: LowerChar(s[i]) == t[i]
    ensures Lower(s) == t
  {
    if s != "" {
      LowerIs(s[1..], t[1..]);
      assert t == [t[0]] + t[1..];
    }
  }

  lemma {:induction false} NumberIsPlain(n: nat)
    ensures Plain(Format(n)) && (n < INT64_LIMIT ==> ParseSize(Format(n)) == Some(n))
  {
    var s := Format(n);
    if n < INT64_LIMIT {
      WordSizes();
      ParseFormatInt(n, 64);
    }
    assert IsDigit(s[0]) && IsDigit(s[|s| - 1]);
    assert forall i | 0 <= i < |s| :: IsDigit(s[i]);
  }

  predicate HasPlain(fields: map<string, string>, name: string, value: string) {
    name in fields && fields[name] == value && Plain(value)
  }

  lemma {:induction false} AtLeastTwo(order: seq<string>, fields: map<string, string>)
    requires Lists(order, fields) && "Package" in fields && "Version" in fields
    ensures |order| >= 2
  {
    assert "Package" in order && "Version" in order;
    var i :| 0 <= i < |order| && order[i] == "Package";
    var j :| 0 <= j < |order| && order[j] == "Version";
    assert "Package" != "Version";
  }

  /** The three fields the renderer sets. */
  lemma {:induction false} PublishedValues(e: Indexed)
    ensures var fields := PublishedFields(e);
            && "Filename" in fields && fields["Filename"] == e.poolPath
            && "Size" in fields && fields["Size"] == Format(e.size)
            && "SHA256" in fields && fields["SHA256"] == e.sha256
  {
    assert |"Filename"| == 8 && |"Size"| == 4 && |"MD5sum"| == 6 && |"SHA1"| == 4 && |"SHA256"| == 6;
    assert "Size"[1] != "SHA1"[1] && "MD5sum"[0] != "SHA256"[0];
  }

  /** The fields of an entry, in their plain form. */
  predicate Describes(fields: map<string, string>, p: Package) {
    && HasPlain(fields, "Package", p.name) && HasPlain(fields, "Version", p.version)
    && HasPlain(fields, "Architecture", p.architecture) && HasPlain(fields, "Filename", p.filename)
    && 0 <= p.size < INT64_LIMIT && HasPlain(fields, "Size", Format(p.size)) && HasPlain(fields, "SHA256", p.sha256)
  }

  lemma {:induction false} RenderableDescribes(safe: string -> bool, e: Indexed, order: seq<string>)
    requires Renderable(safe, e, order)
    ensures Describes(PublishedFields(e), Published(e))
  {
    PublishedValues(e);
    NumberIsPlain(e.size);
  }

  /** What the reader finds under the lower-case names. */
  predicate Found(fields: map<string, string>, p: Package) {
    && Get(fields, "package") == p.name && Get(fields, "version") == p.version
    && Get(fields, "architecture") == p.architecture && Get(fields, "filename") == p.filename
    && p.size >= 0 && Get(fields, "size") == Format(p.size) && Get(fields, "sha256") == p.sha256
  }

  lemma {:induction false} LowerCasePackage()
    ensures Lower("Package") == "package"
  {
    LowerIs("Package", "package");
  }

  lemma {:induction false} LowerCaseVersion()
    ensures Lower("Version") == "version"
  {
    LowerIs("Version", "version");
  }

  lemma {:induction false} LowerCaseArchitecture()
    ensures Lower("Architecture") == "architecture"
  {
    LowerIs("Architecture", "architecture");
  }

  lemma {:induction false} LowerCaseFilename()
    ensures Lower("Filename") == "filename"
  {
    LowerIs("Filename", "filename");
  }

  lemma {:induction false} LowerCaseSize()
    ensures Lower("Size") == "size"
  {
    LowerIs("Size", "size");
  }

  lemma {:induction false} LowerCaseSHA256()
    ensures Lower("SHA256") == "sha256"
  {
    LowerIs("SHA256", "sha256");
  }

  lemma {:induction false} ReadBack(
    st: State, order: seq<string>, fields: map<string, string>, name: string, lower: string, value: string)
    requires Lists(order, fields) && Writable(order, fields) && HasRead(st, order, fields, |order|)
    requires HasPlain(fields, name, value)
    requires Lower(name) == lower
    ensures Get(st.fields, lower) == value
  {
    assert name in order;
    var i :| 0 <= i < |order| && order[i] == name;
  }

  lemma {:induction false} EntryFound(order: seq<string>, fields: map<string, string>, st: State, p: Package)
    requires Lists(order, fields) && Writable(order, fields) && HasRead(st, order, fields, |order|)
    requires Describes(fields, p)
    ensures Found(st.fields, p)
  {
    LowerCasePackage(); LowerCaseVersion(); LowerCaseArchitecture();
    LowerCaseFilename(); LowerCaseSize(); LowerCaseSHA256();
    ReadBack(st, order, fields, "Package", "package", p.name);
    ReadBack(st, order, fields, "Version", "version", p.version);
    ReadBack(st, order, fields, "Architecture", "architecture", p.architecture);
    ReadBack(st, order, fields, "Filename", "filename", p.filename);
    ReadBack(st, order, fields, "Size", "size", Format(p.size));
    ReadBack(st, order, fields, "SHA256", "sha256", p.sha256);
  }

  lemma {:induction false} FoundIsRead(safe: string -> bool, fields: map<string, string>, p: Package)
    requires 0 <= p.size < INT64_LIMIT && Found(fields, p) && ValidEntry(safe, p)
    ensures ReadEntry(safe, fields) == Ok(p)
  {
    NumberIsPlain(p.size);
  }

  lemma {:induction false} RefusedOutcome(safe: string -> bool, r: Result<map<string, string>, ()>)
    requires r.Err?
    ensures EntryOf(safe, r) == Err(())
  {
    assert r.error == ();
  }

  lemma {:induction false} StanzaAccepted(safe: string -> bool, order: seq<string>, fields: map<string, string>, p: Package)
    requires Lists(order, fields) && Writable(order, fields) && |order| >= 2 && Takeable(order)
    requires Describes(fields, p) && ValidEntry(safe, p)
    ensures ReadParagraph(safe, Body(order, fields)) == Ok(Some(p))
  {
    var st := StanzaReads(order, fields);
    EntryFound(order, fields, st, p);
    FoundIsRead(safe, st.fields, p);
  }

  lemma {:induction false} StanzaRejected(safe: string -> bool, order: seq<string>, fields: map<string, string>)
    requires Writable(order, fields) && |order| >= 2 && !Takeable(order)
    ensures ReadParagraph(safe, Body(order, fields)) == Err(())
  {
    StanzaRefused(order, fields);
    RefusedOutcome(safe, ParseFields(Repository, TrimSpace(Body(order, fields))));
  }

  /** A package's paragraph is read as its entry exactly if its field names differ
      ignoring case and are within the reader's bounds; otherwise it is refused. */
  lemma {:induction false} StanzaRoundTrip(safe: string -> bool, e: Indexed, order: seq<string>)
    requires Renderable(safe, e, order)
    ensures order != []
    ensures ReadParagraph(safe, Body(order, PublishedFields(e))) ==
              if Takeable(order) then Ok(Some(Published(e))) else Err(())
  {
    AtLeastTwo(order, PublishedFields(e));
    RenderableDescribes(safe, e, order);
    if Takeable(order) {
      StanzaAccepted(safe, order, PublishedFields(e), Published(e));
    } else {
      StanzaRejected(safe, order, PublishedFields(e));
    }
  }

  // ----- the index -----

  datatype Written = Written(package: Indexed, order: seq<string>)

  ghost predicate AllRenderable(safe: string -> bool, entries: seq<Written>) {
    forall i | 0 <= i < |entries| :: Renderable(safe, entries[i].package, entries[i].order)
  }

  /** The names to write are those of published fields. */
  predicate IsListed(w: Written) { forall k | k in w.order :: k in PublishedFields(w.package) }

  predicate AllListed(entries: seq<Written>) { forall i | 0 <= i < |entries| :: IsListed(entries[i]) }

  predicate NoneIsEmpty(entries: seq<Written>) { forall i | 0 <= i < |entries| :: entries[i].order != [] }

  /** The index: every stanza, one after the other. */
  function IndexText(entries: seq<Written>): string
    requires AllListed(entries)
  {
    if entries == [] then "" else Stanza(entries[0].package, entries[0].order) + IndexText(entries[1..])
  }

  method WriteIndex(entries: seq<Written>) returns (packages: string)
    requires AllListed(entries)
    ensures packages == IndexText(entries)
  {
    packages := "";
    ghost var all := IndexText(entries);
    assert entries[0..] == entries;
    for i := 0 to |entries|
      invariant all == packages + IndexText(entries[i..])
    {
      var stanza := WritePackage("", entries[i].package, entries[i].order);
      ghost var rest := IndexText(entries[i + 1..]);
      assert entries[i..][1..] == entries[i + 1..];
      assert "" + Stanza(entries[i].package, entries[i].order) == Stanza(entries[i].package, entries[i].order);
      assert packages + (stanza + rest) == (packages + stanza) + rest;
      packages := packages + stanza;
    }
    assert packages + "" == packages;
  }

  lemma {:induction false} StanzaShape(safe: string -> bool, e: Indexed, order: seq<string>)
    requires Renderable(safe, e, order)
    ensures order != []
    ensures var body := Body(order, PublishedFields(e));
            Stanza(e, order) == body + "\n\n" && Solid(body) && body != "" && '\r' !in body
  {
    var fields := PublishedFields(e);
    AtLeastTwo(order, fields);
    WritableLines(order, fields);
    var ls := WrittenLines(order, fields);
    JoinSolid(ls);
    JoinClean(ls);
    assert Join(ls) + "\n" + "\n" == Join(ls) + "\n\n";
  }

  function BodyOf(w: Written): string
    requires IsListed(w) && w.order != []
  {
    Body(w.order, PublishedFields(w.package))
  }

  function Bodies(entries: seq<Written>): (bs: seq<string>)
    requires AllListed(entries) && NoneIsEmpty(entries)
    ensures |bs| == |entries| && forall i | 0 <= i < |bs| :: bs[i] == BodyOf(entries[i])
  {
    if entries == [] then [] else [BodyOf(entries[0])] + Bodies(entries[1..])
  }

  /** The paragraphs of an index are its stanzas. */
  lemma {:induction false} IndexParagraphs(safe: string -> bool, entries: seq<Written>)
    requires AllRenderable(safe, entries)
    ensures AllListed(entries) && NoneIsEmpty(entries)
    ensures Paragraphs(IndexText(entries)) == Bodies(entries) && '\r' !in IndexText(entries)
    decreases |entries|
  {
    if entries != [] {
      var e, order := entries[0].package, entries[0].order;
      IndexParagraphs(safe, entries[1..]);
      StanzaShape(safe, e, order);
      var body, rest := Body(order, PublishedFields(e)), IndexText(entries[1..]);
      ParagraphStep(body, rest);
      assert IndexText(entries) == body + "\n\n" + rest;
    }
  }

  /** What reading the paragraphs gives, one by one. */
  function Expected(entries: seq<Written>): (rs: seq<Reading>)
    ensures |rs| == |entries|
  {
    if entries == [] then []
    else [if Takeable(entries[0].order) then Ok(Some(Published(entries[0].package))) else Err(())] + Expected(entries[1..])
  }

  lemma {:induction false} IndexReadings(safe: string -> bool, entries: seq<Written>)
    requires AllRenderable(safe, entries)
    ensures AllListed(entries) && NoneIsEmpty(entries)
    ensures Readings(Reader(safe), Bodies(entries)) == Expected(entries)
    decreases |entries|
  {
    if entries != [] {
      IndexReadings(safe, entries[1..]);
      StanzaRoundTrip(safe, entries[0].package, entries[0].order);
    }
  }

  predicate DistinctIdentities(entries: seq<Written>) {
    forall i, j | 0 <= i < j < |entries| ::
      IdentityOf(Published(entries[i].package)) != IdentityOf(Published(entries[j].package))
  }

  function PublishedAll(entries: seq<Written>): seq<Package> {
    if entries == [] then [] else [Published(entries[0].package)] + PublishedAll(entries[1..])
  }

  predicate AllTakeable(entries: seq<Written>) {
    forall i | 0 <= i < |entries| :: Takeable(entries[i].order)
  }

  lemma {:induction false} GatherExpected(entries: seq<Written>, seen: set<Identity>)
    requires DistinctIdentities(entries)
    requires forall i | 0 <= i < |entries| :: IdentityOf(Published(entries[i].package)) !in seen
    ensures Gather(Expected(entries), seen) ==
              if AllTakeable(entries) then Ok(PublishedAll(entries)) else Err(())
    decreases |entries|
  {
    if entries != [] {
      var p := Published(entries[0].package);
      GatherExpected(entries[1..], seen + {IdentityOf(p)});
      assert Expected(entries)[1..] == Expected(entries[1..]);
    }
  }

  /** Parsing a rendered index gives back, in order, exactly one entry a package, with
      its name, version, architecture, pool path, size and digest, if and only if in
      every package the field names differ ignoring case and are within the reader's bounds. */
  lemma {:induction false} IndexRoundTrip(safe: string -> bool, entries: seq<Written>)
    requires entries != [] && AllRenderable(safe, entries) && DistinctIdentities(entries)
    ensures AllListed(entries)
    ensures ParsePackages(safe, IndexText(entries)) ==
              if AllTakeable(entries) then Ok(PublishedAll(entries)) else Err(())
  {
    IndexParagraphs(safe, entries);
    IndexReadings(safe, entries);
    GatherExpected(entries, {});
  }
}
