/** Parsing a rendered APKINDEX gives back its packages. */
module ApkIndexRoundTrip {
  import opened Wrappers
  import opened Lines
  import opened Decimal
  import opened Integers
  import opened ApkIndex
  import RoundTrip = DebPackagesRoundTrip

  // ----- what the renderer demands of a package -----

  predicate Letter(c: char) { 'A' <= c <= 'Z' || 'a' <= c <= 'z' }

  predicate Component(s: string, extra: string) {
    0 < |s| <= 128 && forall i | 0 <= i < |s| :: Letter(s[i]) || IsDigit(s[i]) || (i > 0 && s[i] in extra)
  }

  /** packageFromBlob's demands on name, version, architecture and checksum; sizes are
      64-bit integers. */
  predicate Renderable(p: Package) {
    && Component(p.name, "._+-")
    && Component(p.version, "._+~-") && IsDigit(p.version[0])
    && p.architecture != ""
    && |p.checksum| >= 10 && p.checksum[..2] == "Q1"
    && Fits(p.size, 64) && Fits(p.installedSize, 64)
  }

  /** What the index says of a package. A newline in an architecture or a checksum has
      become a space; nothing else has changed. */
  function Published(base64: string -> Option<seq<bv8>>, p: Package): Listed {
    Listed(p.name, p.version, Flat(p.architecture), p.size, DecodeQ1(base64, Flat(p.checksum)), false)
  }

  lemma {:induction false} ComponentIsSafe(s: string, extra: string)
    requires Component(s, extra) && (forall c | c in extra :: c in "._+~-")
    ensures SafeComponent(s) && Flat(s) == s
  {
    assert forall c | c in s :: Letter(c) || IsDigit(c) || c in extra;
    assert Letter(s[0]) || IsDigit(s[0]);
    assert "."[0] == '.' && ".."[0] == '.';
  }

  // ----- one block -----

  lemma {:induction false} ColonAt(key: char, value: string)
    requires key != ':'
    ensures var line := [key] + ":" + value; Colon(line) == 1 && line[0] == key && line[2..] == value && 1 < |line|
  {
    var line := [key] + ":" + value;
    assert line[1..] == ":" + value;
    assert Colon(line[1..]) == 0;
  }

  function Line(key: char, value: string): string { [key] + ":" + Flat(value) }

  /** One line a field, for values that are not empty. */
  function LinesOf(fs: seq<Field>): (ls: seq<string>)
    ensures |ls| == |fs| && forall i | 0 <= i < |fs| :: ls[i] == Line(fs[i].key, fs[i].value)
  {
    seq(|fs|, i requires 0 <= i < |fs| => Line(fs[i].key, fs[i].value))
  }

  lemma {:induction false} FilledLines(fs: seq<Field>)
    requires forall i | 0 <= i < |fs| :: fs[i].value != ""
    ensures |FieldLines(fs)| == |fs| && forall i | 0 <= i < |fs| :: FieldLines(fs)[i] == Line(fs[i].key, fs[i].value)
  {
    if fs != [] {
      FilledLines(fs[1..]);
    }
  }

  lemma {:induction false} FilledAreLines(fs: seq<Field>)
    requires forall i | 0 <= i < |fs| :: fs[i].value != ""
    ensures FieldLines(fs) == LinesOf(fs)
  {
    FilledLines(fs);
  }

  /** The lines of the five fields. */
  function FactLines(p: Package): seq<string> { LinesOf(Facts(p)) }

  lemma {:induction false} FactsAreLines(p: Package)
    requires Renderable(p)
    ensures FieldLines(Facts(p)) == FactLines(p)
  {
    var fs := Facts(p);
    FilledAreLines(fs);
  }

  lemma {:induction false} ReadFrom(d: Draft, ls: seq<string>, i: nat)
    requires i < |ls|
    ensures ReadLines(d, ls[i..]) == ReadLines(ReadLine(d, ls[i]), ls[i + 1..])
  {
    assert ls[i..][1..] == ls[i + 1..];
  }

  lemma {:induction false} ReadFive(d: Draft, ls: seq<string>)
    requires |ls| >= 5
    ensures ReadLines(d, ls) ==
              ReadLines(ReadLine(ReadLine(ReadLine(ReadLine(ReadLine(d, ls[0]), ls[1]), ls[2]), ls[3]), ls[4]), ls[5..])
  {
    var d1 := ReadLine(d, ls[0]);
    var d2 := ReadLine(d1, ls[1]);
    var d3 := ReadLine(d2, ls[2]);
    assert ls[0..] == ls;
    ReadFrom(d, ls, 0);
    ReadFrom(d1, ls, 1);
    ReadFrom(d2, ls, 2);
    ReadFrom(d3, ls, 3);
    ReadFrom(ReadLine(d3, ls[3]), ls, 4);
  }

  lemma {:induction false} ReadField(d: Draft, key: char, value: string)
    requires key != ':'
    ensures ReadLine(d, Line(key, value)) ==
              if key == 'P' then d.(name := Flat(value))
              else if key == 'V' then d.(version := Flat(value))
              else if key == 'A' then d.(architecture := Flat(value))
              else if key == 'C' then d.(checksum := Flat(value))
              else if key == 'S' then d.(size := ParseInt(Flat(value), 64).value)
              else d
  {
    ColonAt(key, Flat(value));
  }

  function FactsOf(p: Package): Draft { Draft(p.name, p.version, Flat(p.architecture), Flat(p.checksum), p.size) }

  lemma {:induction false} ReadFacts(p: Package, more: seq<string>)
    requires Renderable(p)
    ensures ReadLines(BLANK, FactLines(p) + more) == ReadLines(FactsOf(p), more)
  {
    ComponentIsSafe(p.name, "._+-");
    ComponentIsSafe(p.version, "._+~-");
    ParseFormatInt(p.size, 64);
    assert Flat(FormatInt(p.size)) == FormatInt(p.size);
    ReadFive(BLANK, FactLines(p) + more);
    assert (FactLines(p) + more)[5..] == more;
    var d1 := Draft("", "", "", Flat(p.checksum), 0);
    var d2 := d1.(name := p.name);
    var d3 := d2.(version := p.version);
    var d4 := d3.(architecture := Flat(p.architecture));
    ReadField(BLANK, 'C', p.checksum);
    ReadField(d1, 'P', p.name);
    ReadField(d2, 'V', p.version);
    ReadField(d3, 'A', p.architecture);
    ReadField(d4, 'S', FormatInt(p.size));
  }

  /** A line the reader has no use for. */
  predicate Inert(line: string) { line == "" || line[0] !in "PVACS" }

  predicate AllInert(ls: seq<string>) { forall i | 0 <= i < |ls| :: Inert(ls[i]) }

  lemma {:induction false} ReadInert(d: Draft, ls: seq<string>)
    requires AllInert(ls)
    ensures ReadLines(d, ls) == d
    decreases |ls|
  {
    if ls != [] {
      assert Inert(ls[0]) && AllInert(ls[1..]);
      assert 'P' in "PVACS" && 'V' in "PVACS" && 'A' in "PVACS" && 'C' in "PVACS" && 'S' in "PVACS";
      ReadInert(d, ls[1..]);
    }
  }

  /** Cutting a text short cuts its lines short. */
  lemma {:induction false} CutLines(ls: seq<string>, t: string)
    requires ls != [] && OneLines(ls) && AllInert(ls) && t <= Join(ls)
    ensures AllInert(Split(t))
    decreases |ls|
  {
    var a := ls[0];
    if |t| <= |a| {
      assert t == a[..|t|];
      assert OneLine(t) by { assert forall c | c in t :: c in a; }
      SplitOneLine(t);
    } else {
      var rest := t[|a| + 1..];
      assert t == a + "\n" + rest && rest <= Join(ls[1..]);
      assert AllInert(ls[1..]) && OneLines(ls[1..]);
      CutLines(ls[1..], rest);
      SplitLine(a, rest);
    }
  }

  /** Lines of fields with other keys: full, and of no interest to the reader. */
  lemma {:induction false} FieldLinesFull(fs: seq<Field>)
    requires forall i | 0 <= i < |fs| :: fs[i].key != '\n'
    ensures forall i | 0 <= i < |FieldLines(fs)| :: FieldLines(fs)[i] != "" && OneLine(FieldLines(fs)[i])
  {
    if fs != [] {
      FieldLinesFull(fs[1..]);
    }
  }

  lemma {:induction false} FieldLinesInert(fs: seq<Field>)
    requires forall i | 0 <= i < |fs| :: fs[i].key !in "PVACS"
    ensures AllInert(FieldLines(fs))
  {
    if fs != [] {
      FieldLinesInert(fs[1..]);
    }
  }

  lemma {:induction false} FreeTextLines(p: Package)
    ensures FieldLines(FreeText(p)) != [] && FieldLines(FreeText(p))[0][..1] == "I"
    ensures RoundTrip.FullLines(FieldLines(FreeText(p))) && AllInert(FieldLines(FreeText(p)))
  {
    FieldLinesFull(FreeText(p));
    FieldLinesInert(FreeText(p));
  }

  lemma {:induction false} FactLinesFull(p: Package)
    requires Renderable(p)
    ensures RoundTrip.FullLines(FactLines(p)) && FactLines(p)[0][0] == 'C'
  {
    FactsAreLines(p);
    FieldLinesFull(Facts(p));
  }

  lemma {:induction false} JoinAppend(a: seq<string>, b: seq<string>)
    requires a != [] && b != []
    ensures Join(a + b) == Text(a) + Join(b)
  {
    if |a| == 1 {
      assert (a + b)[1..] == b && Text(a[1..]) == "";
      assert a[0] + "\n" + "" == a[0] + "\n";
    } else {
      JoinAppend(a[1..], b);
      assert (a + b)[1..] == a[1..] + b;
      Glue(a[0], Text(a[1..]), Join(b));
    }
  }

  /** Trimming a block reaches the free text at most. */
  lemma {:induction false} TrimBlock(head: string, tail: string)
    requires head != "" && !IsSpace(head[0]) && tail != "" && !IsSpace(tail[0])
    ensures TrimSpace(head + tail) == head + TrimRight(tail) && TrimRight(tail) <= tail
  {
    assert (head + tail)[0] == head[0] && TrimLeft(head + tail) == head + tail;
    assert tail[0] in tail;
    TrimRightKeeps(head, tail);
  }

  /** The two forms of a block: in front of another, and at the end of the text. */
  predicate BlockOf(block: string, p: Package) {
    EntryLines(p) != [] && (block == Join(EntryLines(p)) || block == Join(EntryLines(p)) + "\n")
  }

  lemma {:induction false} TrimEither(head: string, tail: string, block: string)
    requires head != "" && !IsSpace(head[0]) && tail != "" && !IsSpace(tail[0])
    requires block == head + tail || block == head + tail + "\n"
    ensures TrimSpace(block) == head + TrimRight(tail)
  {
    TrimBlock(head, tail);
    if block == head + tail + "\n" {
      assert block == head + (tail + "\n");
      TrimBlock(head, tail + "\n");
    }
  }

  lemma {:induction false} Parts(facts: seq<string>, free: seq<string>)
    requires RoundTrip.FullLines(facts) && RoundTrip.FullLines(free) && facts[0][0] == 'C' && free[0][0] == 'I'
    ensures var head, tail := Text(facts), Join(free);
            && Join(facts + free) == head + tail
            && head != "" && !IsSpace(head[0]) && tail != "" && !IsSpace(tail[0])
  {
    JoinAppend(facts, free);
    RoundTrip.JoinSolid(facts);
    RoundTrip.JoinSolid(free);
  }

  lemma {:induction false} BlockParts(p: Package)
    requires Renderable(p)
    ensures FieldLines(FreeText(p)) != [] && EntryLines(p) != []
    ensures var head, tail := Text(FactLines(p)), Join(FieldLines(FreeText(p)));
            && Join(EntryLines(p)) == head + tail
            && head != "" && !IsSpace(head[0]) && tail != "" && !IsSpace(tail[0])
  {
    FactsAreLines(p);
    FactLinesFull(p);
    FreeTextLines(p);
    assert FieldLines(FreeText(p))[0][0] == FieldLines(FreeText(p))[0][..1][0];
    Parts(FactLines(p), FieldLines(FreeText(p)));
  }

  lemma {:induction false} BlockText(block: string, p: Package) returns (cut: string)
    requires Renderable(p) && BlockOf(block, p)
    ensures FieldLines(FreeText(p)) != [] && Text(FactLines(p)) != ""
    ensures TrimSpace(block) == Text(FactLines(p)) + cut && cut <= Join(FieldLines(FreeText(p)))
  {
    BlockParts(p);
    var tail := Join(FieldLines(FreeText(p)));
    cut := TrimRight(tail);
    TrimEither(Text(FactLines(p)), tail, block);
  }

  /** Whatever the free text, a block is read as its package. */
  lemma {:induction false} BlockReads(base64: string -> Option<seq<bv8>>, block: string, p: Package)
    requires Renderable(p) && BlockOf(block, p)
    ensures TrimSpace(block) != "" && ReadBlock(base64, block) == Entry(Published(base64, p))
  {
    var cut := BlockText(block, p);
    var facts, free := FactLines(p), FieldLines(FreeText(p));
    FactLinesFull(p);
    SplitText(facts, cut);
    FreeTextLines(p);
    CutLines(free, cut);
    ReadFacts(p, Split(cut));
    ReadInert(FactsOf(p), Split(cut));
    ComponentIsSafe(p.name, "._+-");
    ComponentIsSafe(p.version, "._+~-");
  }

  // ----- the blocks of an index -----

  predicate AllRenderable(ps: seq<Package>) { forall i | 0 <= i < |ps| :: Renderable(ps[i]) }

  predicate BlocksOf(blocks: seq<string>, ps: seq<Package>) {
    |blocks| == |ps| && forall i | 0 <= i < |ps| :: BlockOf(blocks[i], ps[i])
  }

  lemma {:induction false} NoBlankLine(s: string)
    requires RoundTrip.Solid(s)
    ensures DebPackages.BlankLine(s + "\n") == |s + "\n"|
  {
    if s != "" {
      var all := s + "\n";
      assert all[1..] == s[1..] + "\n" && all[0] == s[0] && all[1] == if |s| > 1 then s[1] else '\n';
      assert RoundTrip.Solid(s[1..]);
      NoBlankLine(s[1..]);
    }
  }

  lemma {:induction false} BlockIsSolid(p: Package)
    requires Renderable(p)
    ensures EntryLines(p) != [] && Text(EntryLines(p)) == Join(EntryLines(p)) + "\n" && RoundTrip.Solid(Join(EntryLines(p)))
  {
    FactsAreLines(p);
    FactLinesFull(p);
    FreeTextLines(p);
    RoundTrip.JoinSolid(EntryLines(p));
  }

  lemma {:induction false} SplitBlock(s: string, rest: string)
    requires RoundTrip.Solid(s)
    ensures Blocks(s + "\n" + "\n" + rest) == [s] + Blocks(rest)
    ensures Blocks(s + "\n") == [s + "\n"]
  {
    var all := s + "\n\n" + rest;
    assert s + "\n" + "\n" + rest == all;
    RoundTrip.BlankLineAt(s, rest);
    assert all[..|s|] == s && all[|s| + 2..] == rest;
    NoBlankLine(s);
  }

  lemma {:induction false} IndexBlocks(ps: seq<Package>)
    requires ps != [] && AllRenderable(ps)
    ensures BlocksOf(Blocks(IndexText(ps)), ps)
  {
    var ts := EntryTexts(ps);
    var body := Join(EntryLines(ps[0]));
    BlockIsSolid(ps[0]);
    if |ps| == 1 {
      SplitBlock(body, "");
    } else {
      assert AllRenderable(ps[1..]);
      assert ts[1..] == EntryTexts(ps[1..]);
      IndexBlocks(ps[1..]);
      SplitBlock(body, IndexText(ps[1..]));
    }
  }

  // ----- the index -----

  function KeyOf(p: Package): string { p.name + "-" + p.version }

  predicate DistinctKeys(ps: seq<Package>) { forall i, j | 0 <= i < j < |ps| :: KeyOf(ps[i]) != KeyOf(ps[j]) }

  function PublishedAll(base64: string -> Option<seq<bv8>>, ps: seq<Package>): (ls: seq<Listed>)
    ensures |ls| == |ps| && forall i | 0 <= i < |ps| :: ls[i] == Published(base64, ps[i])
  {
    seq(|ps|, i requires 0 <= i < |ps| => Published(base64, ps[i]))
  }

  /** The keys of the entries are new, and no two are the same. */
  predicate NewKeys(ls: seq<Listed>, seen: map<string, nat>) {
    (forall i | 0 <= i < |ls| :: Key(ls[i]) !in seen) && (forall i, j | 0 <= i < j < |ls| :: Key(ls[i]) != Key(ls[j]))
  }

  predicate ReadAs(read: string -> Reading, blocks: seq<string>, ls: seq<Listed>) {
    |blocks| == |ls| && forall i | 0 <= i < |ls| :: TrimSpace(blocks[i]) != "" && read(blocks[i]) == Entry(ls[i])
  }

  /** All entries are kept if their keys are new and distinct, and some are dropped
      otherwise. */
  predicate Outcome(r: Result<seq<Listed>, ()>, x: Index, ls: seq<Listed>) {
    && r.Ok?
    && (NewKeys(ls, x.seen) ==> r.value == x.packages + ls)
    && (!NewKeys(ls, x.seen) ==> |r.value| < |x.packages| + |ls|)
  }

  lemma {:induction false} OutcomeOfNone(x: Index)
    ensures Outcome(Ok(x.packages), x, [])
  {
    assert x.packages + [] == x.packages;
  }

  lemma {:induction false} OutcomeStep(r: Result<seq<Listed>, ()>, x: Index, ls: seq<Listed>)
    requires ls != [] && ValidIndex(x) && Outcome(r, Note(x, ls[0]), ls[1..])
    ensures Outcome(r, x, ls)
  {
    var p, rest := ls[0], ls[1..];
    if Key(p) !in x.seen {
      assert x.packages + [p] + rest == x.packages + ls;
    }
  }

  lemma {:induction false} ReadEntries(read: string -> Reading, blocks: seq<string>, ls: seq<Listed>, x: Index)
    requires ReadAs(read, blocks, ls) && ValidIndex(x) && |x.packages| + |ls| <= MAXIMUM_ENTRIES
    ensures Outcome(ReadBlocks(read, blocks, x), x, ls)
    decreases |ls|
  {
    if ls == [] {
      OutcomeOfNone(x);
    } else {
      ReadEntries(read, blocks[1..], ls[1..], Note(x, ls[0]));
      OutcomeStep(ReadBlocks(read, blocks, x), x, ls);
    }
  }

  lemma {:induction false} ReadAll(read: string -> Reading, blocks: seq<string>, ls: seq<Listed>)
    requires ReadAs(read, blocks, ls) && |ls| <= MAXIMUM_ENTRIES
    ensures var r := ReadBlocks(read, blocks, Index([], map[])); r.Ok? && (r == Ok(ls) <==> NewKeys(ls, map[]))
  {
    ReadEntries(read, blocks, ls, Index([], map[]));
    assert [] + ls == ls;
  }

  lemma {:induction false} IndexReadAs(base64: string -> Option<seq<bv8>>, blocks: seq<string>, ps: seq<Package>)
    requires AllRenderable(ps) && BlocksOf(blocks, ps)
    ensures ReadAs(Reader(base64), blocks, PublishedAll(base64, ps))
  {
    forall i | 0 <= i < |ps|
      ensures TrimSpace(blocks[i]) != "" && Reader(base64)(blocks[i]) == Entry(PublishedAll(base64, ps)[i])
    {
      BlockReads(base64, blocks[i], ps[i]);
    }
  }

  /** Parsing a rendered index gives back every package, in order, with its name, version,
      architecture, size and control digest, whatever the free text holds, if and only if
      no two share a name and version written with a dash. It is never refused. */
  lemma {:induction false} IndexRoundTrip(base64: string -> Option<seq<bv8>>, ps: seq<Package>)
    requires AllRenderable(ps) && |ps| <= MAXIMUM_ENTRIES
    ensures ParseIndex(base64, IndexText(ps)).Ok?
    ensures ParseIndex(base64, IndexText(ps)) == Ok(PublishedAll(base64, ps)) <==> DistinctKeys(ps)
  {
    if ps == [] {
      EmptyIndex(base64);
    } else {
      var blocks := Blocks(IndexText(ps));
      IndexBlocks(ps);
      IndexReadAs(base64, blocks, ps);
      ReadAll(Reader(base64), blocks, PublishedAll(base64, ps));
    }
  }

  lemma {:induction false} EmptyIndex(base64: string -> Option<seq<bv8>>)
    ensures ParseIndex(base64, IndexText([])) == Ok([])
  {
    assert IndexText([]) == "";
  }

  /** Neither free text nor position can be seen in an entry. */
  lemma {:induction false} PublishedAt(base64: string -> Option<seq<bv8>>, ps: seq<Package>, i: nat)
    requires AllRenderable(ps) && i < |ps|
    ensures var l := PublishedAll(base64, ps)[i];
            && l.name == ps[i].name && l.version == ps[i].version && l.size == ps[i].size && !l.ambiguous
            && (OneLine(ps[i].architecture) && '\r' !in ps[i].architecture ==> l.architecture == ps[i].architecture)
            && (OneLine(ps[i].checksum) && '\r' !in ps[i].checksum ==> l.control == DecodeQ1(base64, ps[i].checksum))
  {
    assert PublishedAll(base64, ps)[i] == Published(base64, ps[i]);
  }

  // ----- the index of an architecture -----

  const NOARCH := "noarch"

  /** Build's index for one architecture holds its packages and those that run anywhere. */
  function Served(ps: seq<Package>, architecture: string): (served: seq<Package>)
    ensures forall p | p in served :: p in ps && p.architecture in {architecture, NOARCH}
    ensures forall p | p in ps && p.architecture in {architecture, NOARCH} :: p in served
  {
    if ps == [] then []
    else if ps[0].architecture == architecture || ps[0].architecture == NOARCH then [ps[0]] + Served(ps[1..], architecture)
    else Served(ps[1..], architecture)
  }

  function Location(p: Package): (string, string) { (p.architecture, KeyOf(p)) }

  /** What collectEntries leaves: no two packages at one location. */
  predicate DistinctLocations(ps: seq<Package>) {
    forall i, j | 0 <= i < j < |ps| :: Location(ps[i]) != Location(ps[j])
  }

  predicate Shadowed(ps: seq<Package>, architecture: string) {
    exists p, q :: p in ps && q in ps && p.architecture == architecture && q.architecture == NOARCH && KeyOf(p) == KeyOf(q)
  }

  lemma {:induction false} ServedLocations(ps: seq<Package>, architecture: string)
    requires DistinctLocations(ps)
    ensures DistinctLocations(Served(ps, architecture))
  {
    if ps != [] {
      ServedLocations(ps[1..], architecture);
    }
  }

  lemma {:induction false} SameKeyIsShadow(served: seq<Package>, architecture: string)
    requires DistinctLocations(served) && !DistinctKeys(served)
    requires forall p | p in served :: p.architecture == architecture || p.architecture == NOARCH
    ensures Shadowed(served, architecture)
  {
    var i, j :| 0 <= i < j < |served| && KeyOf(served[i]) == KeyOf(served[j]);
    assert served[i] in served && served[j] in served;
    assert Location(served[i]) != Location(served[j]);
    assert served[i].architecture != served[j].architecture;
  }

  lemma {:induction false} ShadowIsSameKey(served: seq<Package>, architecture: string)
    requires Shadowed(served, architecture) && architecture != NOARCH
    ensures !DistinctKeys(served)
  {
    var p, q :| p in served && q in served && p.architecture == architecture && q.architecture == NOARCH && KeyOf(p) == KeyOf(q);
    var i :| 0 <= i < |served| && served[i] == p;
    var j :| 0 <= j < |served| && served[j] == q;
    assert i < j || j < i;
  }

  lemma {:induction false} ServedKeys(ps: seq<Package>, architecture: string)
    requires DistinctLocations(ps) && architecture != NOARCH
    ensures DistinctKeys(Served(ps, architecture)) <==> !Shadowed(ps, architecture)
  {
    var served := Served(ps, architecture);
    ServedLocations(ps, architecture);
    if DistinctKeys(served) {
      if Shadowed(served, architecture) {
        ShadowIsSameKey(served, architecture);
      }
    } else {
      SameKeyIsShadow(served, architecture);
    }
  }

  /** The packages collectEntries leaves are all read back from an architecture's index
      exactly if none of them shares its name and version with one that runs anywhere. */
  lemma {:induction false} ServedRoundTrip(base64: string -> Option<seq<bv8>>, ps: seq<Package>, architecture: string)
    requires AllRenderable(ps) && DistinctLocations(ps) && architecture != NOARCH
    requires |Served(ps, architecture)| <= MAXIMUM_ENTRIES
    ensures var served := Served(ps, architecture);
            ParseIndex(base64, IndexText(served)) == Ok(PublishedAll(base64, served)) <==> !Shadowed(ps, architecture)
  {
    var served := Served(ps, architecture);
    forall i | 0 <= i < |served| ensures Renderable(served[i]) {
      assert served[i] in ps;
    }
    IndexRoundTrip(base64, served);
    ServedKeys(ps, architecture);
  }
}
