/** Which provenance files a Helm repository signs: worked out from the lock before the
    tree is built (formats/signing.go, engine/locked_artifacts.go), and again from the
    built tree (formats/helm/render.go, engine/signing_recipe.go). */
module HelmSigning {
  import opened Wrappers
  import opened Orders

  datatype Blob = Blob(filename: string, sha256: string, name: string, version: string)

  /** A file of the built tree; a generated one has no blob. */
  datatype File = File(path: string, blob: string)

  datatype Output = Output(id: string, path: string)

  function ChartPath(sha256: string, filename: string): string { "charts/" + sha256 + "/" + filename }

  function PathOf(b: Blob): string { ChartPath(b.sha256, b.filename) }

  // ----- from the lock -----

  predicate Distinct<T(==)>(s: seq<T>) { forall i, j | 0 <= i < j < |s| :: s[i] != s[j] }

  /** The same values, whatever their order and number. */
  ghost predicate SameValues(s: seq<string>, blobs: seq<Blob>) {
    (forall p | p in s :: exists i | 0 <= i < |blobs| :: p == PathOf(blobs[i])) && (forall i | 0 <= i < |blobs| :: PathOf(blobs[i]) in s)
  }

  /** The loop of PublishedPaths, before the paths are sorted. */
  method LockedPaths(locked: seq<Blob>) returns (paths: seq<string>)
    ensures Distinct(paths) && SameValues(paths, locked)
  {
    paths := [];
    var seen: set<string> := {};
    for k := 0 to |locked|
      invariant Distinct(paths) && SameValues(paths, locked[..k])
      invariant forall p :: p in seen <==> p in paths
    {
      var published := PathOf(locked[k]);
      assert locked[..k + 1] == locked[..k] + [locked[k]];
      ValuesNext(paths, locked, k);
      if published !in seen {
        seen := seen + {published};
        paths := paths + [published];
      }
    }
    assert locked[..|locked|] == locked;
  }

  lemma {:induction false} ValuesNext(paths: seq<string>, blobs: seq<Blob>, k: nat)
    requires k < |blobs| && SameValues(paths, blobs[..k])
    ensures SameValues(if PathOf(blobs[k]) in paths then paths else paths + [PathOf(blobs[k])], blobs[..k + 1])
  {
    var before, after := blobs[..k], blobs[..k + 1];
    assert after == before + [blobs[k]];
    var next := if PathOf(blobs[k]) in paths then paths else paths + [PathOf(blobs[k])];
    forall p | p in next ensures exists i | 0 <= i < |after| :: p == PathOf(after[i]) {
      if p in paths {
        var i :| 0 <= i < |before| && p == PathOf(before[i]);
        assert after[i] == before[i];
      } else {
        assert after[k] == blobs[k];
      }
    }
    forall i | 0 <= i < |after| ensures PathOf(after[i]) in next {
      assert i < k ==> after[i] == before[i];
    }
  }

  // ----- from the built tree -----

  /** validateBlob; `usable` stands for its checks of the name, the version, the size and
      the digest's form. */
  predicate ValidBlob(usable: Blob -> bool, b: Blob) {
    usable(b) && b.sha256 != "" && b.filename == b.name + "-" + b.version + ".tgz"
  }

  predicate Bound(a: Blob, b: Blob) { a.name == b.name && a.version == b.version ==> a.sha256 == b.sha256 }

  /** Every chart is valid, and no identity is bound to different bytes. */
  predicate Buildable(usable: Blob -> bool, blobs: seq<Blob>) {
    && (forall i | 0 <= i < |blobs| :: ValidBlob(usable, blobs[i]))
    && (forall i, j | 0 <= i < j < |blobs| :: Bound(blobs[i], blobs[j]))
  }

  function PathsOf(files: seq<File>): (paths: seq<string>)
    ensures |paths| == |files| && forall i | 0 <= i < |files| :: paths[i] == files[i].path
  {
    seq(|files|, i requires 0 <= i < |files| => files[i].path)
  }

  type Digests = map<(string, string), string>

  function Identity(b: Blob): (string, string) { (b.name, b.version) }

  /** The digests of the blobs so far, by identity. */
  ghost predicate Binds(digests: Digests, blobs: seq<Blob>) {
    && (forall i | 0 <= i < |blobs| :: Identity(blobs[i]) in digests && digests[Identity(blobs[i])] == blobs[i].sha256)
    && (forall id | id in digests :: exists i | 0 <= i < |blobs| :: Identity(blobs[i]) == id)
  }

  /** An identity bound to other bytes spoils the build. */
  lemma {:induction false} Conflict(usable: Blob -> bool, digests: Digests, blobs: seq<Blob>, k: nat)
    requires k < |blobs| && Binds(digests, blobs[..k]) && Identity(blobs[k]) in digests
    requires digests[Identity(blobs[k])] != blobs[k].sha256
    ensures !Buildable(usable, blobs)
  {
    var i :| 0 <= i < k && Identity(blobs[..k][i]) == Identity(blobs[k]);
    assert blobs[..k][i] == blobs[i];
    assert !Bound(blobs[i], blobs[k]);
  }

  predicate Agrees(digests: Digests, b: Blob) { Identity(b) in digests ==> digests[Identity(b)] == b.sha256 }

  lemma {:induction false} BuildableNext(usable: Blob -> bool, digests: Digests, before: seq<Blob>, b: Blob)
    requires Buildable(usable, before) && Binds(digests, before) && ValidBlob(usable, b) && Agrees(digests, b)
    ensures Buildable(usable, before + [b])
  {
    var after := before + [b];
    forall i, j | 0 <= i < j < |after| ensures Bound(after[i], after[j]) {
      if j == |before| {
        assert after[i] == before[i] && Identity(before[i]) in digests;
      } else {
        assert Bound(before[i], before[j]);
      }
    }
  }

  lemma {:induction false} BindsNext(digests: Digests, before: seq<Blob>, b: Blob)
    requires Binds(digests, before) && Agrees(digests, b)
    ensures Binds(digests[Identity(b) := b.sha256], before + [b])
  {
    var after := before + [b];
    assert after[|before|] == b;
    assert forall i | 0 <= i < |before| :: after[i] == before[i];
    var next := digests[Identity(b) := b.sha256];
    forall id | id in next ensures exists i | 0 <= i < |after| :: Identity(after[i]) == id {
      if id != Identity(b) {
        var i :| 0 <= i < |before| && Identity(before[i]) == id;
        assert after[i] == before[i];
      }
    }
  }

  /** A repeated identity with the same bytes lies at the path that is already there. */
  lemma {:induction false} RepeatHasItsPath(usable: Blob -> bool, digests: Digests, blobs: seq<Blob>, k: nat, paths: seq<string>)
    requires k < |blobs| && Buildable(usable, blobs[..k]) && Binds(digests, blobs[..k]) && ValidBlob(usable, blobs[k])
    requires Identity(blobs[k]) in digests && digests[Identity(blobs[k])] == blobs[k].sha256
    requires SameValues(paths, blobs[..k])
    ensures PathOf(blobs[k]) in paths
  {
    var i :| 0 <= i < k && Identity(blobs[..k][i]) == Identity(blobs[k]);
    assert PathOf(blobs[..k][i]) == PathOf(blobs[k]);
  }

  lemma {:induction false} Unbuildable(usable: Blob -> bool, blobs: seq<Blob>, k: nat)
    requires k < |blobs| && !ValidBlob(usable, blobs[k])
    ensures !Buildable(usable, blobs)
  {
  }

  /** The files written so far, with the paths they lie at. */
  ghost predicate Written(files: seq<File>, seen: set<string>, paths: seq<string>) {
    && PathsOf(files) == paths && Distinct(paths)
    && (forall i | 0 <= i < |files| :: files[i].blob != "")
    && (forall p :: p in seen <==> p in paths)
  }

  lemma {:induction false} WrittenNext(files: seq<File>, seen: set<string>, paths: seq<string>, f: File)
    requires Written(files, seen, paths) && f.path !in seen && f.blob != ""
    ensures Written(files + [f], seen + {f.path}, paths + [f.path])
  {
    assert PathsOf(files + [f]) == paths + [f.path];
  }

  /** What Build knows of the blobs so far. */
  ghost predicate Progress(usable: Blob -> bool, digests: Digests, blobs: seq<Blob>, paths: seq<string>) {
    Buildable(usable, blobs) && Binds(digests, blobs) && SameValues(paths, blobs)
  }

  lemma {:induction false} ProgressNext(usable: Blob -> bool, digests: Digests, blobs: seq<Blob>, k: nat, paths: seq<string>)
    requires k < |blobs| && Progress(usable, digests, blobs[..k], paths)
    requires ValidBlob(usable, blobs[k]) && Agrees(digests, blobs[k])
    ensures Identity(blobs[k]) in digests ==> PathOf(blobs[k]) in paths && digests[Identity(blobs[k]) := blobs[k].sha256] == digests
    ensures Progress(usable, digests[Identity(blobs[k]) := blobs[k].sha256], blobs[..k + 1],
                     if PathOf(blobs[k]) in paths then paths else paths + [PathOf(blobs[k])])
  {
    assert blobs[..k + 1] == blobs[..k] + [blobs[k]];
    BuildableNext(usable, digests, blobs[..k], blobs[k]);
    BindsNext(digests, blobs[..k], blobs[k]);
    ValuesNext(paths, blobs, k);
    if Identity(blobs[k]) in digests {
      RepeatHasItsPath(usable, digests, blobs, k, paths);
    }
  }

  lemma {:induction false} ProgressConflict(usable: Blob -> bool, digests: Digests, blobs: seq<Blob>, k: nat, paths: seq<string>)
    requires k < |blobs| && Progress(usable, digests, blobs[..k], paths) && !Agrees(digests, blobs[k])
    ensures !Buildable(usable, blobs)
  {
    Conflict(usable, digests, blobs, k);
  }

  /** The loop of Build: one file a path. */
  method ChartFiles(usable: Blob -> bool, blobs: seq<Blob>) returns (r: Result<seq<File>, ()>, ghost paths: seq<string>)
    ensures r.Ok? <==> Buildable(usable, blobs)
    ensures r.Ok? ==> SameValues(paths, blobs) && exists seen :: Written(r.value, seen, paths)
  {
    var digests: Digests := map[];
    var files: seq<File> := [];
    var seen: set<string> := {};
    paths := [];
    for k := 0 to |blobs|
      invariant Progress(usable, digests, blobs[..k], paths) && Written(files, seen, paths)
    {
      var b := blobs[k];
      if !ValidBlob(usable, b) {
        Unbuildable(usable, blobs, k);
        return Err(()), paths;
      }
      if !Agrees(digests, b) {
        ProgressConflict(usable, digests, blobs, k, paths);
        return Err(()), paths;
      }
      ProgressNext(usable, digests, blobs, k, paths);
      if Identity(b) in digests {
        continue;
      }
      digests := digests[Identity(b) := b.sha256];
      var path := PathOf(b);
      if path !in seen {
        WrittenNext(files, seen, paths, File(path, b.sha256));
        files := files + [File(path, b.sha256)];
        seen := seen + {path};
        paths := paths + [path];
      }
    }
    assert blobs[..|blobs|] == blobs;
    return Ok(files), paths;
  }

  const INDEX := File("index.yaml", "")

  /** Build: the charts, then the index. */
  method Build(usable: Blob -> bool, blobs: seq<Blob>) returns (r: Result<seq<File>, ()>)
    ensures r.Ok? <==> Buildable(usable, blobs)
    ensures r.Ok? ==> Distinct(PublishedIn(r.value)) && SameValues(PublishedIn(r.value), blobs)
  {
    ghost var paths;
    r, paths := ChartFiles(usable, blobs);
    if r.Ok? {
      PublishedCharts(r.value);
      r := Ok(r.value + [INDEX]);
    }
  }

  /** publishedArtifactPaths, before the paths are sorted: the files that carry a blob. */
  function PublishedIn(files: seq<File>): seq<string> {
    if files == [] then []
    else
      var n := |files| - 1;
      if files[n].blob != "" then PublishedIn(files[..n]) + [files[n].path] else PublishedIn(files[..n])
  }

  lemma {:induction false} PublishedCharts(charts: seq<File>)
    requires forall i | 0 <= i < |charts| :: charts[i].blob != ""
    ensures PublishedIn(charts) == PathsOf(charts) && PublishedIn(charts + [INDEX]) == PathsOf(charts)
  {
    PublishedBlobs(charts);
    assert (charts + [INDEX])[..|charts|] == charts;
  }

  lemma {:induction false} PublishedBlobs(charts: seq<File>)
    requires forall i | 0 <= i < |charts| :: charts[i].blob != ""
    ensures PublishedIn(charts) == PathsOf(charts)
  {
    if charts != [] {
      var n := |charts| - 1;
      PublishedBlobs(charts[..n]);
      assert PathsOf(charts) == PathsOf(charts[..n]) + [charts[n].path];
    }
  }

  method PublishedPaths(files: seq<File>) returns (paths: seq<string>)
    ensures paths == PublishedIn(files)
  {
    paths := [];
    assert files[..0] == [];
    for i := 0 to |files|
      invariant paths == PublishedIn(files[..i])
    {
      assert files[..i + 1][..i] == files[..i];
      if files[i].blob != "" {
        paths := paths + [files[i].path];
      }
    }
    assert files[..|files|] == files;
  }

  // ----- sorting -----

  predicate Ascending(s: seq<string>) { forall i, j | 0 <= i < j < |s| :: CompareText(s[i], s[j]) <= 0 }

  /** sort.Strings */
  ghost predicate Sorts(sorted: seq<string> -> seq<string>) {
    forall s :: multiset(sorted(s)) == multiset(s) && Ascending(sorted(s))
  }

  lemma {:induction false} EvenIsEqual(a: string, b: string)
    requires CompareText(a, b) == 0
    ensures a == b
  {
    if a != "" && b != "" {
      assert LexBy(CompareChar, a, b) == Then(CompareChar(a[0], b[0]), LexBy(CompareChar, a[1..], b[1..]));
      EvenIsEqual(a[1..], b[1..]);
      assert a == [a[0]] + a[1..] && b == [b[0]] + b[1..];
    }
  }

  lemma {:induction false} SameFirst(a: seq<string>, b: seq<string>)
    requires a != [] && b != [] && Ascending(a) && Ascending(b) && multiset(a) == multiset(b)
    ensures a[0] == b[0]
  {
    assert a[0] in multiset(b) && b[0] in multiset(a);
    var i :| 0 <= i < |b| && b[i] == a[0];
    var j :| 0 <= j < |a| && a[j] == b[0];
    TextPreorder(a[0], b[0], a[0]);
    if i > 0 && j > 0 {
      assert CompareText(b[0], b[i]) <= 0 && CompareText(a[0], a[j]) <= 0;
      EvenIsEqual(a[0], b[0]);
    }
  }

  /** Sorting leaves no choice. */
  lemma {:induction false} SortedIsUnique(a: seq<string>, b: seq<string>)
    requires Ascending(a) && Ascending(b) && multiset(a) == multiset(b)
    ensures a == b
    decreases |a|
  {
    assert |a| == |multiset(a)| == |multiset(b)| == |b|;
    if a != [] {
      SameFirst(a, b);
      assert a == [a[0]] + a[1..] && b == [b[0]] + b[1..];
      assert multiset(a[1..]) == multiset(a) - multiset{a[0]};
      assert multiset(b[1..]) == multiset(b) - multiset{b[0]};
      SortedIsUnique(a[1..], b[1..]);
    }
  }

  lemma {:induction false} CountOnce(s: seq<string>, x: string)
    requires Distinct(s)
    ensures multiset(s)[x] == if x in s then 1 else 0
    decreases |s|
  {
    if s != [] {
      var rest := s[1..];
      assert s == [s[0]] + rest;
      assert s[0] !in rest;
      CountOnce(rest, x);
    }
  }

  lemma {:induction false} SameMultiset(a: seq<string>, b: seq<string>, blobs: seq<Blob>)
    requires Distinct(a) && Distinct(b) && SameValues(a, blobs) && SameValues(b, blobs)
    ensures multiset(a) == multiset(b)
  {
    forall x ensures multiset(a)[x] == multiset(b)[x] {
      CountOnce(a, x);
      CountOnce(b, x);
    }
  }

  // ----- the shape -----

  /** SigningShape: one provenance file a chart, beside the archive it covers. */
  function Shape(published: seq<string>): seq<Output> {
    seq(|published|, i requires 0 <= i < |published| =>
      Output("helm-provenance-" + published[i], published[i] + ".prov"))
  }

  /** The shape a plan is checked against, from the lock alone, is the shape the built tree
      is signed in, and it names exactly one provenance file for each chart path. */
  lemma {:induction false} ShapesAgree(
    sorted: seq<string> -> seq<string>, blobs: seq<Blob>, locked: seq<string>, built: seq<string>)
    requires Sorts(sorted)
    requires Distinct(locked) && SameValues(locked, blobs)
    requires Distinct(built) && SameValues(built, blobs)
    ensures Shape(sorted(locked)) == Shape(sorted(built))
  {
    SameMultiset(locked, built, blobs);
    SortedIsUnique(sorted(locked), sorted(built));
  }

  /** Where a chart is published: under its digest, by its name and version. */
  function Published(b: Blob): string { "charts/" + b.sha256 + "/" + b.name + "-" + b.version + ".tgz" }

  /** The signature of a chart lies beside it. */
  function ProvenanceOf(b: Blob): Output { Output("helm-provenance-" + Published(b), Published(b) + ".prov") }

  /** Each chart has its provenance file, and there is no other and none twice. */
  ghost predicate SignsEach(outputs: seq<Output>, blobs: seq<Blob>) {
    && (forall i | 0 <= i < |blobs| :: ProvenanceOf(blobs[i]) in outputs)
    && (forall i | 0 <= i < |outputs| :: IsProvenance(outputs[i], blobs))
    && Distinct(outputs)
  }

  ghost predicate IsProvenance(output: Output, blobs: seq<Blob>) {
    exists k | 0 <= k < |blobs| :: output == ProvenanceOf(blobs[k])
  }

  lemma {:induction false} ValidIsPublished(usable: Blob -> bool, b: Blob)
    requires ValidBlob(usable, b)
    ensures PathOf(b) == Published(b)
  {
    assert "charts/" + b.sha256 + "/" + (b.name + "-" + b.version + ".tgz") == Published(b);
  }

  lemma {:induction false} SortedKeeps(sorted: seq<string> -> seq<string>, paths: seq<string>)
    requires Sorts(sorted) && Distinct(paths)
    ensures Distinct(sorted(paths)) && forall p :: p in sorted(paths) <==> p in paths
  {
    var s := sorted(paths);
    assert multiset(s) == multiset(paths);
    forall p ensures p in s <==> p in paths {
      assert p in s <==> p in multiset(s);
      assert p in paths <==> p in multiset(paths);
    }
    forall i, j | 0 <= i < j < |s| ensures s[i] != s[j] {
      if s[i] == s[j] {
        CountOnce(paths, s[i]);
        TwiceCounts(s, i, j);
      }
    }
  }

  lemma {:induction false} TwiceCounts(s: seq<string>, i: nat, j: nat)
    requires i < j < |s| && s[i] == s[j]
    ensures multiset(s)[s[i]] >= 2
  {
    assert s == s[..j] + s[j..];
    assert s[i] in s[..j] && s[i] in s[j..];
    assert multiset(s) == multiset(s[..j]) + multiset(s[j..]);
  }

  lemma {:induction false} ChartIsSigned(usable: Blob -> bool, b: Blob, s: seq<string>)
    requires ValidBlob(usable, b) && PathOf(b) in s
    ensures ProvenanceOf(b) in Shape(s)
  {
    ValidIsPublished(usable, b);
    var k :| 0 <= k < |s| && s[k] == PathOf(b);
    assert Shape(s)[k] == ProvenanceOf(b);
  }

  lemma {:induction false} OnlyChartsAreSigned(usable: Blob -> bool, blobs: seq<Blob>, s: seq<string>, i: nat)
    requires Buildable(usable, blobs) && i < |s| && exists k | 0 <= k < |blobs| :: s[i] == PathOf(blobs[k])
    ensures IsProvenance(Shape(s)[i], blobs)
  {
    var k :| 0 <= k < |blobs| && s[i] == PathOf(blobs[k]);
    ValidIsPublished(usable, blobs[k]);
    assert Shape(s)[i] == ProvenanceOf(blobs[k]);
  }

  lemma {:induction false} NoneIsSignedTwice(s: seq<string>)
    requires Distinct(s)
    ensures Distinct(Shape(s))
  {
    forall i, j | 0 <= i < j < |s| ensures Shape(s)[i] != Shape(s)[j] {
      var p, q := s[i] + ".prov", s[j] + ".prov";
      assert p[..|p| - 5] == s[i] && q[..|q| - 5] == s[j];
    }
  }

  lemma {:induction false} AllAreSigned(usable: Blob -> bool, blobs: seq<Blob>, s: seq<string>)
    requires Buildable(usable, blobs) && SameValues(s, blobs)
    ensures (forall i | 0 <= i < |blobs| :: ProvenanceOf(blobs[i]) in Shape(s)) && forall i | 0 <= i < |s| :: IsProvenance(Shape(s)[i], blobs)
  {
    forall i | 0 <= i < |blobs| ensures ProvenanceOf(blobs[i]) in Shape(s) {
      ChartIsSigned(usable, blobs[i], s);
    }
    forall i | 0 <= i < |s| ensures IsProvenance(Shape(s)[i], blobs) {
      assert s[i] in s;
      OnlyChartsAreSigned(usable, blobs, s, i);
    }
  }

  lemma {:induction false} ShapeSignsEach(sorted: seq<string> -> seq<string>, usable: Blob -> bool, blobs: seq<Blob>, paths: seq<string>)
    requires Sorts(sorted) && Buildable(usable, blobs) && Distinct(paths) && SameValues(paths, blobs)
    ensures SignsEach(Shape(sorted(paths)), blobs)
  {
    SortedKeeps(sorted, paths);
    assert SameValues(sorted(paths), blobs);
    AllAreSigned(usable, blobs, sorted(paths));
    NoneIsSignedTwice(sorted(paths));
  }

  /** Both ways of working out the shape, on the same lock. */
  method CheckShape(usable: Blob -> bool, sorted: seq<string> -> seq<string>, blobs: seq<Blob>)
    returns (planned: seq<Output>, signed: Result<seq<Output>, ()>)
    requires Sorts(sorted)
    ensures signed.Ok? <==> Buildable(usable, blobs)
    ensures signed.Ok? ==> signed.value == planned && SignsEach(planned, blobs)
  {
    var locked := LockedPaths(blobs);
    planned := Shape(sorted(locked));
    var files := Build(usable, blobs);
    if files.Err? {
      return planned, Err(());
    }
    var built := PublishedPaths(files.value);
    ShapesAgree(sorted, blobs, locked, built);
    ShapeSignsEach(sorted, usable, blobs, locked);
    signed := Ok(Shape(sorted(built)));
  }
}
