/** The APKINDEX text: written by formats/apk/render.go, read back by
    formats/apk/repository.go. */
module ApkIndex {
  import opened Wrappers
  import opened Lines
  import opened Integers
  import DebPackages

  /** A package as the renderer indexes it. */
  datatype Package = Package(name: string, version: string, architecture: string, checksum: string, size: int, installedSize: int,
                             description: string, url: string, license: string, origin: string, maintainer: string,
                             buildTime: int, depends: seq<string>, provided: seq<string>)

  // ----- writing -----

  datatype Field = Field(key: char, value: string)

  /** Newlines and carriage returns become spaces. */
  function Flat(s: string): (t: string)
    ensures |t| == |s| && OneLine(t) && '\r' !in t
    ensures OneLine(s) && '\r' !in s ==> t == s
  {
    if s == "" then "" else [if s[0] == '\n' || s[0] == '\r' then ' ' else s[0]] + Flat(s[1..])
  }

  /** The line of a field; none for an empty value. */
  function FieldLine(f: Field): seq<string> {
    if f.value == "" then [] else [[f.key] + ":" + Flat(f.value)]
  }

  function FieldLines(fs: seq<Field>): seq<string> {
    if fs == [] then [] else FieldLine(fs[0]) + FieldLines(fs[1..])
  }

  /** strings.Join(words, " ") */
  function Words(words: seq<string>): string {
    if words == [] then "" else if |words| == 1 then words[0] else words[0] + " " + Words(words[1..])
  }

  /** The five fields the reader keeps ... */
  function Facts(p: Package): seq<Field> {
    [Field('C', p.checksum), Field('P', p.name), Field('V', p.version), Field('A', p.architecture), Field('S', FormatInt(p.size))]
  }

  /** ... and the others. */
  function FreeText(p: Package): seq<Field> {
    [Field('I', FormatInt(p.installedSize)), Field('T', p.description), Field('U', p.url), Field('L', p.license),
     Field('o', p.origin), Field('m', p.maintainer), Field('t', if p.buildTime > 0 then FormatInt(p.buildTime) else ""),
     Field('D', Words(p.depends)), Field('p', Words(p.provided))]
  }

  function EntryLines(p: Package): seq<string> { FieldLines(Facts(p)) + FieldLines(FreeText(p)) }

  function EntryTexts(ps: seq<Package>): (ts: seq<string>)
    ensures |ts| == |ps| && forall i | 0 <= i < |ps| :: ts[i] == Text(EntryLines(ps[i]))
  {
    seq(|ps|, i requires 0 <= i < |ps| => Text(EntryLines(ps[i])))
  }

  /** The texts, with a newline between two. */
  function Spaced(ts: seq<string>): string {
    if ts == [] then "" else if |ts| == 1 then ts[0] else ts[0] + "\n" + Spaced(ts[1..])
  }

  /** One block a package, with an empty line between two. */
  function IndexText(ps: seq<Package>): string { Spaced(EntryTexts(ps)) }

  method WriteField(document: string, f: Field) returns (written: string)
    ensures written == document + Text(FieldLine(f))
  {
    if f.value == "" {
      return document;
    }
    assert Text([[f.key] + ":" + Flat(f.value)]) == [f.key] + ":" + Flat(f.value) + "\n" + Text([]);
    written := document + ([f.key] + ":" + Flat(f.value) + "\n");
  }

  method WriteEntry(document: string, fs: seq<Field>) returns (written: string)
    ensures written == document + Text(FieldLines(fs))
  {
    written := document;
    ghost var all := document + Text(FieldLines(fs));
    assert fs[0..] == fs;
    for i := 0 to |fs|
      invariant all == written + Text(FieldLines(fs[i..]))
    {
      assert fs[i..][1..] == fs[i + 1..];
      ghost var line, rest := FieldLine(fs[i]), FieldLines(fs[i + 1..]);
      TextAppend(line, rest);
      assert written + (Text(line) + Text(rest)) == (written + Text(line)) + Text(rest);
      written := WriteField(written, fs[i]);
    }
  }


  lemma {:induction false} FieldLinesAppend(fs: seq<Field>, gs: seq<Field>)
    ensures FieldLines(fs + gs) == FieldLines(fs) + FieldLines(gs)
  {
    if fs == [] {
      assert fs + gs == gs;
      assert [] + FieldLines(gs) == FieldLines(gs);
    } else {
      FieldLinesAppend(fs[1..], gs);
      assert (fs + gs)[1..] == fs[1..] + gs;
      Regroup(FieldLine(fs[0]), FieldLines(fs[1..]), FieldLines(gs));
    }
  }

  /** A newline in front of every text but the first. */
  function Led(ts: seq<string>, first: bool): string {
    if ts == [] then "" else (if first then "" else "\n") + ts[0] + Led(ts[1..], false)
  }

  lemma {:induction false} LedIsSpaced(ts: seq<string>)
    ensures Led(ts, true) == Spaced(ts)
    ensures ts != [] ==> Led(ts, false) == "\n" + Spaced(ts)
  {
    if ts != [] {
      var t, rest := ts[0], ts[1..];
      LedIsSpaced(rest);
      if rest == [] {
        assert Led(rest, false) == "";
        assert "" + t + "" == t && "\n" + t + "" == "\n" + t;
      } else {
        var more := Spaced(rest);
        assert "" + t + ("\n" + more) == t + "\n" + more;
        assert "\n" + t + ("\n" + more) == "\n" + (t + "\n" + more);
      }
    }
  }

  lemma {:induction false} LedStep(document: string, ts: seq<string>, i: nat)
    requires i < |ts|
    ensures document + Led(ts[i..], i == 0) == ((if i == 0 then document else document + "\n") + ts[i]) + Led(ts[i + 1..], false)
  {
    assert ts[i..][0] == ts[i] && ts[i..][1..] == ts[i + 1..];
    var rest := Led(ts[i + 1..], false);
    if i == 0 {
      assert document + ("" + ts[i] + rest) == (document + ts[i]) + rest;
    } else {
      assert document + ("\n" + ts[i] + rest) == (document + "\n" + ts[i]) + rest;
    }
  }

  function BlockTexts(entries: seq<seq<Field>>): (ts: seq<string>)
    ensures |ts| == |entries| && forall i | 0 <= i < |ts| :: ts[i] == Text(FieldLines(entries[i]))
  {
    seq(|entries|, i requires 0 <= i < |entries| => Text(FieldLines(entries[i])))
  }

  method RenderBlocks(entries: seq<seq<Field>>) returns (document: string)
    ensures document == Spaced(BlockTexts(entries))
  {
    document := "";
    ghost var ts := BlockTexts(entries);
    ghost var goal := Spaced(ts);
    LedIsSpaced(ts);
    assert ts[0..] == ts && "" + Led(ts, true) == Led(ts, true);
    for i := 0 to |entries|
      invariant goal == document + Led(ts[i..], i == 0)
    {
      LedStep(document, ts, i);
      if i > 0 {
        document := document + "\n";
      }
      document := WriteEntry(document, entries[i]);
    }
    assert document + "" == document;
  }

  function Fields(p: Package): seq<Field> { Facts(p) + FreeText(p) }

  lemma {:induction false} EntryText(p: Package)
    ensures Text(FieldLines(Fields(p))) == Text(EntryLines(p))
  {
    FieldLinesAppend(Facts(p), FreeText(p));
  }

  /** renderIndex */
  method RenderIndex(ps: seq<Package>) returns (document: string)
    ensures document == IndexText(ps)
  {
    var entries := seq(|ps|, i requires 0 <= i < |ps| => Fields(ps[i]));
    assert BlockTexts(entries) == EntryTexts(ps) by {
      forall i | 0 <= i < |ps| ensures BlockTexts(entries)[i] == EntryTexts(ps)[i] {
        EntryText(ps[i]);
      }
    }
    document := RenderBlocks(entries);
  }

  // ----- reading -----

  const MAXIMUM_ENTRIES := 1_000_000

  /** RepositoryPackage; a control digest that could not be decoded is empty. */
  datatype Listed = Listed(name: string, version: string, architecture: string, size: int, control: seq<bv8>, ambiguous: bool)

  datatype Draft = Draft(name: string, version: string, architecture: string, checksum: string, size: int)

  const BLANK := Draft("", "", "", "", 0)

  /** The first colon of s, or its length. */
  function Colon(s: string): (i: nat)
    ensures i <= |s|
  {
    if s == "" || s[0] == ':' then 0 else 1 + Colon(s[1..])
  }

  /** One line: a single letter, a colon and a value, or nothing of interest. */
  function ReadLine(d: Draft, line: string): Draft {
    var i := Colon(line);
    if i == |line| || i != 1 then d
    else
      var key, value := line[0], line[2..];
      if key == 'P' then d.(name := value)
      else if key == 'V' then d.(version := value)
      else if key == 'A' then d.(architecture := value)
      else if key == 'C' then d.(checksum := value)
      else if key == 'S' then d.(size := ParseInt(value, 64).value)
      else d
  }

  function ReadLines(d: Draft, ls: seq<string>): Draft
    decreases |ls|
  {
    if ls == [] then d else ReadLines(ReadLine(d, ls[0]), ls[1..])
  }

  /** strings.Split(s, "\n\n") */
  function Blocks(s: string): (bs: seq<string>)
    ensures bs != []
  {
    var i := DebPackages.BlankLine(s);
    if i == |s| then [s] else [s[..i]] + Blocks(s[i + 2..])
  }

  predicate SafeComponent(s: string) { s != "" && '/' !in s && '\\' !in s && s != "." && s != ".." }

  /** decodeQ1; `base64` stands for the library's decoder. */
  function DecodeQ1(base64: string -> Option<seq<bv8>>, value: string): (d: seq<bv8>)
    ensures |d| == 0 || |d| == 20
  {
    if |value| < 2 || value[..2] != "Q1" then []
    else
      var d := base64(value[2..]);
      if d.Some? && |d.value| == 20 then d.value else []
  }

  datatype Reading = Nothing | Refused | Entry(package: Listed)

  function Finish(base64: string -> Option<seq<bv8>>, d: Draft): Reading {
    if d.name == "" || d.version == "" then Nothing
    else if !SafeComponent(d.name) || !SafeComponent(d.version) then Refused
    else Entry(Listed(d.name, d.version, d.architecture, d.size, DecodeQ1(base64, d.checksum), false))
  }

  function ReadBlock(base64: string -> Option<seq<bv8>>, block: string): Reading {
    var text := TrimSpace(block);
    if text == "" then Nothing else Finish(base64, ReadLines(BLANK, Split(text)))
  }

  function Key(p: Listed): string { p.name + "-" + p.version }

  datatype Index = Index(packages: seq<Listed>, seen: map<string, nat>)

  ghost predicate ValidIndex(x: Index) {
    && (forall k | k in x.seen :: x.seen[k] < |x.packages|)
    && (forall i | 0 <= i < |x.packages| :: Key(x.packages[i]) in x.seen && x.seen[Key(x.packages[i])] == i)
  }

  /** Add an entry, or compare it with the one already there. */
  function Note(x: Index, p: Listed): (y: Index)
    requires ValidIndex(x)
    ensures ValidIndex(y)
    ensures Key(p) in y.seen && forall k :: k in x.seen ==> k in y.seen && y.seen[k] == x.seen[k]
    ensures forall k | k in y.seen :: k in x.seen || k == Key(p)
    ensures |y.packages| == if Key(p) in x.seen then |x.packages| else |x.packages| + 1
  {
    if Key(p) in x.seen then
      var i := x.seen[Key(p)];
      if x.packages[i].control == p.control then x
      else
        var marked := x.packages[i].(ambiguous := true);
        assert Key(marked) == Key(x.packages[i]);
        Index(x.packages[i := marked], x.seen)
    else Index(x.packages + [p], x.seen[Key(p) := |x.packages|])
  }

  function ReadBlocks(read: string -> Reading, blocks: seq<string>, x: Index): Result<seq<Listed>, ()>
    requires ValidIndex(x)
  {
    if blocks == [] then Ok(x.packages)
    else if TrimSpace(blocks[0]) == "" then ReadBlocks(read, blocks[1..], x)
    else if |x.packages| >= MAXIMUM_ENTRIES then Err(())
    else
      match read(blocks[0])
      case Nothing => ReadBlocks(read, blocks[1..], x)
      case Refused => Err(())
      case Entry(p) => ReadBlocks(read, blocks[1..], Note(x, p))
  }

  function Reader(base64: string -> Option<seq<bv8>>): string -> Reading { block => ReadBlock(base64, block) }

  function ParseIndex(base64: string -> Option<seq<bv8>>, content: string): Result<seq<Listed>, ()> {
    ReadBlocks(Reader(base64), Blocks(content), Index([], map[]))
  }

  method ReadDraft(text: string) returns (d: Draft)
    ensures d == ReadLines(BLANK, Split(text))
  {
    d := BLANK;
    var lines := Split(text);
    assert lines[0..] == lines;
    for i := 0 to |lines|
      invariant ReadLines(BLANK, lines) == ReadLines(d, lines[i..])
    {
      assert lines[i..][1..] == lines[i + 1..];
      d := ReadLine(d, lines[i]);
    }
  }

  /** ParseIndexEntries */
  method ParseIndexEntries(base64: string -> Option<seq<bv8>>, content: string) returns (r: Result<seq<Listed>, ()>)
    ensures r == ParseIndex(base64, content)
  {
    var blocks := Blocks(content);
    var x := Index([], map[]);
    ghost var read := Reader(base64);
    assert blocks[0..] == blocks;
    for i := 0 to |blocks|
      invariant ValidIndex(x)
      invariant ReadBlocks(read, blocks, Index([], map[])) == ReadBlocks(read, blocks[i..], x)
    {
      assert blocks[i..][0] == blocks[i] && blocks[i..][1..] == blocks[i + 1..];
      var block := TrimSpace(blocks[i]);
      if block == "" {
        continue;
      }
      if |x.packages| >= MAXIMUM_ENTRIES {
        return Err(());
      }
      var draft := ReadDraft(block);
      var reading := Finish(base64, draft);
      assert reading == read(blocks[i]);
      match reading
      case Nothing =>
      case Refused => return Err(());
      case Entry(p) => x := Note(x, p);
    }
    return Ok(x.packages);
  }
}
