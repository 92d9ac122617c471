/** What the readers of repository metadata let through, whatever text they are given
    (formats/deb/repository.go, formats/apk/repository.go, formats/deb/inspect.go). */
module IndexSoundness {
  import opened Wrappers
  import opened Lines
  import Integers
  import ControlText
  import DebPackages
  import ApkIndex
  import ArArchive

  // ----- Packages -----

  predicate HexDigit(c: char) { '0' <= c <= '9' || 'a' <= c <= 'f' }

  predicate Named(s: string) { 0 < |s| <= 255 }

  /** An entry a mirror can work with. */
  predicate Trustworthy(safe: string -> bool, p: DebPackages.Package) {
    && Named(p.name) && Named(p.version) && Named(p.architecture)
    && |p.filename| <= 4096 && safe(p.filename) && 0 <= p.size < 0x8000_0000_0000_0000
    && |p.sha256| == 64 && forall i | 0 <= i < 64 :: HexDigit(p.sha256[i])
  }

  predicate SameIdentity(p: DebPackages.Package, q: DebPackages.Package) {
    p.name == q.name && p.version == q.version && p.architecture == q.architecture
  }

  lemma {:induction false} SizeIsBounded(s: string)
    ensures var size := DebPackages.ParseSize(s); size.Some? ==> 0 <= size.value < 0x8000_0000_0000_0000
  {
    Integers.WordSizes();
    assert Integers.Fits(Integers.ParseInt(s, 64).value, 64);
  }

  lemma {:induction false} EntryIsTrustworthy(safe: string -> bool, fields: map<string, string>)
    ensures var r := DebPackages.ReadEntry(safe, fields); r.Ok? ==> Trustworthy(safe, r.value)
  {
    SizeIsBounded(DebPackages.Get(fields, "size"));
  }

  lemma {:induction false} ReadIsTrustworthy(safe: string -> bool, paragraph: string)
    ensures var r := DebPackages.ReadParagraph(safe, paragraph); r.Ok? && r.value.Some? ==> Trustworthy(safe, r.value.value)
  {
    var fields := ControlText.ParseFields(ControlText.Repository, TrimSpace(paragraph));
    if fields.Ok? {
      EntryIsTrustworthy(safe, fields.value);
    }
  }

  predicate AllTrustworthy(safe: string -> bool, rs: seq<DebPackages.Reading>) {
    forall i | 0 <= i < |rs| && rs[i].Ok? && rs[i].value.Some? :: Trustworthy(safe, rs[i].value.value)
  }

  /** Trustworthy entries, no two of the same name, version and architecture, and none of these. */
  predicate Sound(safe: string -> bool, ps: seq<DebPackages.Package>, seen: set<DebPackages.Identity>) {
    && (forall i | 0 <= i < |ps| :: Trustworthy(safe, ps[i]) && DebPackages.IdentityOf(ps[i]) !in seen)
    && (forall i, j | 0 <= i < j < |ps| :: !SameIdentity(ps[i], ps[j]))
  }

  lemma {:induction false} GatheredAreSound(safe: string -> bool, rs: seq<DebPackages.Reading>, seen: set<DebPackages.Identity>)
    requires AllTrustworthy(safe, rs)
    ensures var r := DebPackages.Gather(rs, seen); r.Ok? ==> Sound(safe, r.value, seen)
  {
    if rs != [] && rs[0].Ok? {
      if rs[0].value.None? {
        GatheredAreSound(safe, rs[1..], seen);
      } else {
        var p := rs[0].value.value;
        GatheredAreSound(safe, rs[1..], seen + {DebPackages.IdentityOf(p)});
      }
    }
  }

  /** Whatever a Packages index contains, what is read from it is at least one entry, each with a
      name, version and architecture, a safe path, a size and a digest, and no two alike. */
  lemma {:induction false} PackagesAreSound(safe: string -> bool, content: string)
    requires DebPackages.ParsePackages(safe, content).Ok?
    ensures var ps := DebPackages.ParsePackages(safe, content).value; ps != [] && Sound(safe, ps, {})
  {
    var paragraphs := DebPackages.Paragraphs(content);
    var rs := DebPackages.Readings(DebPackages.Reader(safe), paragraphs);
    forall i | 0 <= i < |rs| && rs[i].Ok? && rs[i].value.Some? ensures Trustworthy(safe, rs[i].value.value) {
      ReadIsTrustworthy(safe, paragraphs[i]);
    }
    GatheredAreSound(safe, rs, {});
  }

  /** A lower-case name of at most 64 letters, digits and dashes. */
  predicate PlainName(s: string) {
    0 < |s| <= 64 && forall i | 0 <= i < |s| :: 'a' <= s[i] <= 'z' || '0' <= s[i] <= '9' || s[i] == '-'
  }

  predicate PlainNames(fields: map<string, string>) { |fields| <= 256 && forall name | name in fields :: PlainName(name) }

  lemma {:induction false} LineKeepsPlain(st: ControlText.State, line: string)
    requires PlainNames(st.fields)
    ensures var r := ControlText.Step(ControlText.Repository, st, line); r.Ok? ==> PlainNames(r.value.fields)
  {
  }

  lemma {:induction false} LinesKeepPlain(st: ControlText.State, lines: seq<string>)
    requires PlainNames(st.fields)
    ensures var r := ControlText.Steps(ControlText.Repository, st, lines); r.Ok? ==> PlainNames(r.value.fields)
    decreases |lines|
  {
    if lines != [] {
      LineKeepsPlain(st, lines[0]);
      var next := ControlText.Step(ControlText.Repository, st, lines[0]);
      if next.Ok? {
        LinesKeepPlain(next.value, lines[1..]);
      }
    }
  }

  /** Whatever a paragraph contains, what is read from it are at most 256 fields with plain names. */
  lemma {:induction false} FieldsAreSound(content: string)
    requires ControlText.ParseFields(ControlText.Repository, content).Ok?
    ensures PlainNames(ControlText.ParseFields(ControlText.Repository, content).value)
    ensures forall i | 0 <= i < |content| :: content[i] >= ' ' || content[i] in "\n\r\t"
  {
    LinesKeepPlain(ControlText.START, ControlText.Chomped(Split(content)));
  }

  // ----- APKINDEX -----

  predicate SafeName(s: string) { s != "" && s != "." && s != ".." && '/' !in s && '\\' !in s }

  predicate Listable(p: ApkIndex.Listed) { SafeName(p.name) && SafeName(p.version) && (|p.control| == 20 || |p.control| == 0) }

  predicate AllListable(ps: seq<ApkIndex.Listed>) { forall i | 0 <= i < |ps| :: Listable(ps[i]) }

  lemma {:induction false} NoteIsListable(x: ApkIndex.Index, p: ApkIndex.Listed)
    requires ApkIndex.ValidIndex(x) && AllListable(x.packages) && Listable(p)
    ensures AllListable(ApkIndex.Note(x, p).packages)
  {
  }

  predicate DistinctKeys(ps: seq<ApkIndex.Listed>) { forall i, j | 0 <= i < j < |ps| :: ApkIndex.Key(ps[i]) != ApkIndex.Key(ps[j]) }

  lemma {:induction false} BlocksAreListable(base64: string -> Option<seq<bv8>>, blocks: seq<string>, x: ApkIndex.Index)
    requires ApkIndex.ValidIndex(x) && AllListable(x.packages) && |x.packages| <= 1_000_000
    ensures var r := ApkIndex.ReadBlocks(ApkIndex.Reader(base64), blocks, x);
            r.Ok? ==> AllListable(r.value) && DistinctKeys(r.value) && |r.value| <= 1_000_000
    decreases |blocks|
  {
    if blocks != [] && |x.packages| < 1_000_000 {
      match ApkIndex.Reader(base64)(blocks[0])
      case Entry(p) =>
        assert Listable(p);
        NoteIsListable(x, p);
        BlocksAreListable(base64, blocks[1..], ApkIndex.Note(x, p));
      case _ =>
    }
    if blocks != [] {
      BlocksAreListable(base64, blocks[1..], x);
    }
  }

  /** Whatever an APKINDEX contains, what is read from it has names and versions that are safe in
      paths, a whole control digest or none, no name and version twice, and an end. */
  lemma {:induction false} IndexIsSound(base64: string -> Option<seq<bv8>>, content: string)
    requires ApkIndex.ParseIndex(base64, content).Ok?
    ensures var ps := ApkIndex.ParseIndex(base64, content).value; AllListable(ps) && DistinctKeys(ps) && |ps| <= 1_000_000
  {
    BlocksAreListable(base64, ApkIndex.Blocks(content), ApkIndex.Index([], map[]));
  }

  // ----- ar headers -----

  predicate Blank(s: string) { forall i | 0 <= i < |s| :: IsSpace(s[i]) }

  lemma {:induction false} TrimmedLeft(s: string) returns (left: string)
    ensures s == left + TrimLeft(s) && Blank(left)
  {
    if s == "" || !IsSpace(s[0]) {
      left := "";
      assert TrimLeft(s) == s;
    } else {
      var rest := TrimmedLeft(s[1..]);
      var kept := TrimLeft(s[1..]);
      left := [s[0]] + rest;
      assert TrimLeft(s) == kept;
      assert ([s[0]] + rest) + kept == [s[0]] + (rest + kept);
    }
  }

  lemma {:induction false} TrimmedRight(s: string) returns (right: string)
    ensures s == TrimRight(s) + right && Blank(right)
  {
    if s == "" || !IsSpace(s[|s| - 1]) {
      right := "";
      assert TrimRight(s) == s;
    } else {
      var n := |s| - 1;
      var rest := TrimmedRight(s[..n]);
      var kept := TrimRight(s[..n]);
      right := rest + [s[n]];
      assert TrimRight(s) == kept;
      assert kept + (rest + [s[n]]) == (kept + rest) + [s[n]];
    }
  }

  /** A column holds this text and white space around it. */
  ghost predicate ColumnHolds(column: string, text: string) {
    exists left, right :: Blank(left) && Blank(right) && column == left + text + right
  }

  lemma {:induction false} TrimmedColumn(column: string)
    ensures ColumnHolds(column, TrimSpace(column))
  {
    var left := TrimmedLeft(column);
    var right := TrimmedRight(TrimLeft(column));
    assert column == left + TrimSpace(column) + right;
  }

  /** A header that is taken has its trailer, a usable name in the first sixteen columns, with or
      without a slash, and its size in the ten before the trailer. */
  lemma {:induction false} HeaderIsSound(header: string)
    requires |header| == 60 && ArArchive.ReadHeader(header).Some?
    ensures var h := ArArchive.ReadHeader(header).value;
            && header[58..60] == "`\n" && h.name != "" && ' ' !in h.name && '/' !in h.name && '\\' !in h.name
            && (ColumnHolds(header[..16], h.name) || ColumnHolds(header[..16], h.name + "/"))
            && exists size :: ColumnHolds(header[48..58], size) && Integers.ParseInt(size, 64) == Integers.Parsed(h.size, None) && h.size >= 0
  {
    var h := ArArchive.ReadHeader(header).value;
    TrimmedColumn(header[..16]);
    TrimmedColumn(header[48..58]);
    var name := TrimSpace(header[..16]);
    assert name == h.name || name == h.name + "/";
    assert ColumnHolds(header[48..58], TrimSpace(header[48..58]));
  }
}
