/** The Packages index: written by formats/deb/render.go, read back by
    formats/deb/repository.go. */
module DebPackages {
  import opened Wrappers
  import opened Lines
  import opened Decimal
  import opened Integers
  import opened HexDigest
  import opened ControlText
  import opened ControlRoundTrip

  const INT64_LIMIT := 0x8000_0000_0000_0000

  /** A package as the renderer indexes it: the fields of its control file, its pool path,
      and what was computed over its bytes. */
  datatype Indexed = Indexed(control: map<string, string>, poolPath: string, size: nat, md5: string, sha1: string, sha256: string)

  /** RepositoryPackage */
  datatype Package = Package(name: string, version: string, architecture: string, filename: string, size: int, sha256: string)

  // ----- writing -----

  const REPLACED := {"Status", "Filename", "Size", "MD5sum", "SHA1", "SHA256"}

  /** The fields writePackage writes: the control file's, with the six that describe the
      published file replaced. */
  function PublishedFields(e: Indexed): map<string, string> {
    (map k | k in e.control && k !in REPLACED :: e.control[k])
    ["Filename" := e.poolPath]["Size" := Format(e.size)]["MD5sum" := e.md5]["SHA1" := e.sha1]["SHA256" := e.sha256]
  }

  /** writePackage, with the sorted names as its argument: the fields, then a blank line. */
  method WritePackage(output: string, e: Indexed, order: seq<string>) returns (written: string)
    requires forall k | k in order :: k in PublishedFields(e)
    ensures written == output + Stanza(e, order)
  {
    var fields := WriteFields(order, PublishedFields(e));
    written := output + fields + "\n";
    assert output + fields + "\n" == output + (fields + "\n");
  }

  function Stanza(e: Indexed, order: seq<string>): string
    requires forall k | k in order :: k in PublishedFields(e)
  {
    Text(WrittenLines(order, PublishedFields(e))) + "\n"
  }

  // ----- paragraphs -----

  /** bytes.Index(s, "\n\n"), with the length of s for "absent" */
  function BlankLine(s: string): (i: nat)
    ensures i <= |s| && (i < |s| ==> i + 1 < |s| && s[i] == '\n' && s[i + 1] == '\n')
  {
    if |s| < 2 then |s| else if s[0] == '\n' && s[1] == '\n' then 0 else 1 + BlankLine(s[1..])
  }

  /** bytes.Index(s, "\r\n\r\n"), likewise */
  function BlankCrlf(s: string): (i: nat)
    ensures i <= |s| && (i < |s| ==> i + 3 < |s| && s[i] == '\r')
  {
    if |s| < 4 then |s| else if s[..4] == "\r\n\r\n" then 0 else 1 + BlankCrlf(s[1..])
  }

  /** splitRepositoryParagraph, applied until the data is used up */
  function Paragraphs(data: string): seq<string> {
    if data == "" then []
    else
      var lf, crlf := BlankLine(data), BlankCrlf(data);
      if lf < |data| && (crlf == |data| || lf < crlf) then [data[..lf]] + Paragraphs(data[lf + 2..])
      else if crlf < |data| then [data[..crlf]] + Paragraphs(data[crlf + 4..])
      else [data]
  }

  // ----- reading -----

  function Get(fields: map<string, string>, name: string): string { if name in fields then fields[name] else "" }

  /** The Size field: a number of 64 bits, and not negative. */
  function ParseSize(s: string): Option<int> {
    var p := ParseInt(s, 64);
    if p.error.None? && p.value >= 0 then Some(p.value) else None
  }

  predicate Identifies(s: string) { s != "" && |s| <= 255 }

  /** validatePackagesEntry; `safe` stands for safeRepositoryPath. */
  predicate ValidEntry(safe: string -> bool, p: Package) {
    && Identifies(p.name) && Identifies(p.version) && Identifies(p.architecture)
    && |p.filename| <= 4096 && ValidDigest(p.sha256) && safe(p.filename)
  }

  function ReadEntry(safe: string -> bool, fields: map<string, string>): Result<Package, ()> {
    var size := ParseSize(Get(fields, "size"));
    if size.None? then Err(())
    else
      var p := Package(Get(fields, "package"), Get(fields, "version"), Get(fields, "architecture"),
                       Get(fields, "filename"), size.value, Get(fields, "sha256"));
      if ValidEntry(safe, p) then Ok(p) else Err(())
  }

  datatype Identity = Identity(name: string, version: string, architecture: string)

  function IdentityOf(p: Package): Identity { Identity(p.name, p.version, p.architecture) }

  function EntryOf(safe: string -> bool, fields: Result<map<string, string>, ()>): Reading {
    match fields
    case Err(e) => Err(e)
    case Ok(fields) => match ReadEntry(safe, fields) case Err(e) => Err(e) case Ok(p) => Ok(Some(p))
  }

  /** One paragraph: nothing if it is blank, else its entry. */
  function ReadParagraph(safe: string -> bool, paragraph: string): Reading {
    var text := TrimSpace(paragraph);
    if text == "" then Ok(None) else EntryOf(safe, ParseFields(Repository, text))
  }

  type Reading = Result<Option<Package>, ()>

  function Readings(read: string -> Reading, paragraphs: seq<string>): (rs: seq<Reading>)
    ensures |rs| == |paragraphs| && forall i | 0 <= i < |rs| :: rs[i] == read(paragraphs[i])
  {
    if paragraphs == [] then [] else [read(paragraphs[0])] + Readings(read, paragraphs[1..])
  }

  /** The entries in order, unless one is bad or repeats an identity. */
  function Gather(rs: seq<Reading>, seen: set<Identity>): Result<seq<Package>, ()> {
    if rs == [] then Ok([])
    else if rs[0].Err? then Err(())
    else if rs[0].value.None? then Gather(rs[1..], seen)
    else
      var p := rs[0].value.value;
      if IdentityOf(p) in seen then Err(()) else Prefixed([p], Gather(rs[1..], seen + {IdentityOf(p)}))
  }

  function Reader(safe: string -> bool): string -> Reading { paragraph => ReadParagraph(safe, paragraph) }

  function NonEmpty(r: Result<seq<Package>, ()>): Result<seq<Package>, ()> {
    if r.Ok? && r.value == [] then Err(()) else r
  }

  /** ParseRepositoryPackages */
  function ParsePackages(safe: string -> bool, content: string): Result<seq<Package>, ()> {
    NonEmpty(Gather(Readings(Reader(safe), Paragraphs(content)), {}))
  }

  /** One turn of the reader: skip a blank paragraph, stop at a bad or a repeated one,
      or add an entry. */
  lemma {:induction false} GatherTurn(rs: seq<Reading>, i: nat, result: seq<Package>, seen: set<Identity>)
    requires i < |rs|
    ensures var now := Prefixed(result, Gather(rs[i..], seen));
            if rs[i].Err? || (rs[i].value.Some? && IdentityOf(rs[i].value.value) in seen) then now == Err(())
            else if rs[i].value.None? then now == Prefixed(result, Gather(rs[i + 1..], seen))
            else
              var p := rs[i].value.value;
              now == Prefixed(result + [p], Gather(rs[i + 1..], seen + {IdentityOf(p)}))
  {
    assert rs[i..][0] == rs[i] && rs[i..][1..] == rs[i + 1..];
    if rs[i].Ok? && rs[i].value.Some? {
      var p := rs[i].value.value;
      PrefixedTwice(result, p, Gather(rs[i + 1..], seen + {IdentityOf(p)}));
    }
  }

  method ReadEntries(read: string -> Reading, paragraphs: seq<string>) returns (r: Result<seq<Package>, ()>)
    ensures r == Gather(Readings(read, paragraphs), {})
  {
    var result: seq<Package>, seen: set<Identity> := [], {};
    ghost var rs := Readings(read, paragraphs);
    ghost var whole := Gather(rs, {});
    assert rs[0..] == rs;
    assert whole == Prefixed([], whole) by { if whole.Ok? { assert [] + whole.value == whole.value; } }
    for i := 0 to |paragraphs|
      invariant whole == Prefixed(result, Gather(rs[i..], seen))
    {
      GatherTurn(rs, i, result, seen);
      var entry := read(paragraphs[i]);
      if entry.Err? {
        return Err(());
      }
      if entry.value.Some? {
        var p := entry.value.value;
        if IdentityOf(p) in seen {
          return Err(());
        }
        seen := seen + {IdentityOf(p)};
        result := result + [p];
      }
    }
    assert result + [] == result;
    return Ok(result);
  }

  method ParseRepositoryPackages(safe: string -> bool, content: string) returns (r: Result<seq<Package>, ()>)
    ensures r == ParsePackages(safe, content)
  {
    r := ReadEntries(Reader(safe), Paragraphs(content));
    r := NonEmpty(r);
  }

  function Prefixed(a: seq<Package>, r: Result<seq<Package>, ()>): Result<seq<Package>, ()> {
    match r case Err(e) => Err(e) case Ok(b) => Ok(a + b)
  }

  lemma {:induction false} PrefixedTwice(a: seq<Package>, p: Package, r: Result<seq<Package>, ()>)
    ensures Prefixed(a, Prefixed([p], r)) == Prefixed(a + [p], r)
  {
    if r.Ok? {
      assert a + ([p] + r.value) == (a + [p]) + r.value;
    }
  }
}
