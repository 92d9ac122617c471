/** The newest version of each package in each repository (SiteIndex and
    isNewerVersion in engine/site.go). */
module SiteIndex {
  import opened Wrappers
  import opened Orders
  import DebVersion
  import PypiVersion
  import RawVersion
  import ApkVersion
  import ApkParse

  datatype PackageVersion = PackageVersion(package: string, version: string)

  /** A repository's visible versions in lock order, and its format's comparator. */
  datatype Repository = Repository(name: string, visible: seq<PackageVersion>, compare: (string, string) -> Result<int, ()>)

  /** The comparator accepts both versions and its sign flips with them. */
  predicate Pair(r: Repository, x: string, y: string) {
    r.compare(x, y).Ok? && r.compare(y, x).Ok? && r.compare(x, y).value == -r.compare(y, x).value
  }

  predicate Chain(r: Repository, x: string, y: string, z: string)
    requires Pair(r, x, y) && Pair(r, y, z) && Pair(r, x, z)
  {
    Consistent(r.compare(x, y).value, r.compare(y, z).value, r.compare(x, z).value)
  }

  /** The comparator orders the repository's versions: it never refuses one of them, and
      is a total preorder on them. */
  ghost predicate Ordered(r: Repository) {
    && (forall x, y | Visible(r, x) && Visible(r, y) :: Pair(r, x, y))
    && (forall x, y, z | Visible(r, x) && Visible(r, y) && Visible(r, z) :: Chain(r, x, y, z))
  }

  /** x is not newer than y. */
  predicate AtMost(r: Repository, x: string, y: string) { r.compare(x, y).Ok? && r.compare(x, y).value <= 0 }

  predicate Visible(r: Repository, version: string) { exists i | 0 <= i < |r.visible| :: r.visible[i].version == version }

  predicate Carries(visible: seq<PackageVersion>, package: string) {
    exists i | 0 <= i < |visible| :: visible[i].package == package
  }

  type Latest = map<string, map<string, string>>

  /** The entry for a package and repository, or the empty string. */
  function Lookup(latest: Latest, package: string, repository: string): string {
    if package in latest && repository in latest[package] then latest[package][repository] else ""
  }

  /** The entry of one package after the first n visible versions is one of them, and
      none of them is newer. */
  ghost predicate NewestOf(r: Repository, n: nat, package: string, version: string)
    requires n <= |r.visible|
  {
    && (exists i | 0 <= i < n :: r.visible[i] == PackageVersion(package, version))
    && (forall i | 0 <= i < n && r.visible[i].package == package ::
          AtMost(r, r.visible[i].version, version))
  }

  /** isNewerVersion */
  function IsNewer(r: Repository, current: string, candidate: string): Result<bool, ()> {
    if current == "" then Ok(true)
    else match r.compare(candidate, current)
         case Err(e) => Err(e)
         case Ok(order) => Ok(order > 0)
  }

  lemma NewestStep(r: Repository, n: nat, package: string, current: string)
    requires Ordered(r) && n < |r.visible| && r.visible[n].package == package
    requires current == "" ==> !Carries(r.visible[..n], package)
    requires current != "" ==> NewestOf(r, n, package, current)
    ensures var newer := IsNewer(r, current, r.visible[n].version);
            newer.Ok? && NewestOf(r, n + 1, package, if newer.value then r.visible[n].version else current)
  {
    var candidate := r.visible[n].version;
    assert Visible(r, candidate);
    assert Pair(r, candidate, candidate);
    if current == "" {
      assert forall i | 0 <= i < n :: r.visible[..n][i].package != package;
      assert r.visible[n] == PackageVersion(package, candidate);
    } else {
      var j :| 0 <= j < n && r.visible[j] == PackageVersion(package, current);
      assert Visible(r, current);
      assert Pair(r, candidate, current);
      if r.compare(candidate, current).value > 0 {
        forall i | 0 <= i < n && r.visible[i].package == package ensures AtMost(r, r.visible[i].version, candidate) {
          assert Visible(r, r.visible[i].version);
        }
        assert r.visible[n] == PackageVersion(package, candidate);
      }
    }
  }

  /** After n visible versions: exactly the packages seen have an entry for this
      repository, each the newest, and no other repository's entry changed. */
  ghost predicate Folded(before: Latest, latest: Latest, r: Repository, n: nat)
    requires n <= |r.visible|
  {
    && (forall package, repository | repository != r.name :: Lookup(latest, package, repository) == Lookup(before, package, repository))
    && (forall package | !Carries(r.visible[..n], package) :: Lookup(latest, package, r.name) == "")
    && (forall package | Carries(r.visible[..n], package) ::
          Lookup(latest, package, r.name) != "" && NewestOf(r, n, package, Lookup(latest, package, r.name)))
  }

  /** The nested map with one entry set. */
  function Noted(latest: Latest, package: string, repository: string, version: string): Latest {
    var entries := if package in latest then latest[package] else map[];
    latest[package := entries[repository := version]]
  }

  lemma {:induction false} NotedLookup(latest: Latest, package: string, repository: string, version: string)
    ensures forall p, q :: Lookup(Noted(latest, package, repository, version), p, q) ==
                             if p == package && q == repository then version else Lookup(latest, p, q)
  {
  }

  /** The comparator refuses this version. */
  ghost predicate Refuses(r: Repository, version: string) { forall y :: r.compare(version, y).Err? && r.compare(y, version).Err? }

  /** No package with another version has one that is refused. */
  ghost predicate NoneRefused(r: Repository, n: nat)
    requires n <= |r.visible|
  {
    forall i, j | 0 <= i < j < n && r.visible[i].package == r.visible[j].package ::
      !Refuses(r, r.visible[i].version) && !Refuses(r, r.visible[j].version)
  }

  /** The entries are versions of their packages, whether they can be ordered or not. */
  ghost predicate Taken(latest: Latest, r: Repository, n: nat)
    requires n <= |r.visible|
  {
    && (forall i | 0 <= i < n :: TakenFor(latest, r, n, r.visible[i].package))
    && (forall package | Lookup(latest, package, r.name) != "" :: TakenFor(latest, r, n, package))
  }

  ghost predicate TakenFor(latest: Latest, r: Repository, n: nat, package: string)
    requires n <= |r.visible|
  {
    exists k | 0 <= k < n :: r.visible[k] == PackageVersion(package, Lookup(latest, package, r.name))
  }

  /** One version more, and what its comparison says of refused ones. */
  lemma {:induction false} TurnRefuses(latest: Latest, r: Repository, n: nat)
    requires n < |r.visible| && Taken(latest, r, n) && NoneRefused(r, n)
    requires forall i | 0 <= i < |r.visible| :: r.visible[i].version != ""
    requires IsNewer(r, Lookup(latest, r.visible[n].package, r.name), r.visible[n].version).Ok?
    ensures NoneRefused(r, n + 1)
  {
    var package, candidate := r.visible[n].package, r.visible[n].version;
    var current := Lookup(latest, package, r.name);
    forall i | 0 <= i < n && r.visible[i].package == package
      ensures !Refuses(r, r.visible[i].version) && !Refuses(r, candidate)
    {
      assert TakenFor(latest, r, n, r.visible[i].package);
      var k :| 0 <= k < n && r.visible[k] == PackageVersion(package, current);
      assert r.compare(candidate, current).Ok?;
      if i < k {
        assert !Refuses(r, r.visible[i].version);
      } else if k < i {
        assert !Refuses(r, r.visible[i].version);
      }
    }
  }

  lemma {:induction false} TakenNext(previous: Latest, latest: Latest, r: Repository, n: nat, package: string)
    requires n < |r.visible| && TakenFor(previous, r, n, package)
    requires Lookup(latest, package, r.name) == Lookup(previous, package, r.name)
    ensures TakenFor(latest, r, n + 1, package)
  {
    var k: nat :| k < n && r.visible[k] == PackageVersion(package, Lookup(previous, package, r.name));
    assert k < n + 1;
  }

  lemma {:induction false} TurnTakes(previous: Latest, latest: Latest, r: Repository, n: nat)
    requires n < |r.visible| && Taken(previous, r, n)
    requires var package := r.visible[n].package;
             latest == Noted(previous, package, r.name, r.visible[n].version)
             || (latest == previous && Lookup(previous, package, r.name) != "")
    ensures Taken(latest, r, n + 1)
  {
    var package := r.visible[n].package;
    NotedLookup(previous, package, r.name, r.visible[n].version);
    assert TakenFor(latest, r, n + 1, package) by {
      if latest == Noted(previous, package, r.name, r.visible[n].version) {
        assert r.visible[n] == PackageVersion(package, Lookup(latest, package, r.name));
      } else {
        TakenNext(previous, latest, r, n, package);
      }
    }
    forall p | p != package && TakenFor(previous, r, n, p) ensures TakenFor(latest, r, n + 1, p) {
      TakenNext(previous, latest, r, n, p);
    }
  }

  /** The inner loop of SiteIndex. A refused comparison ends it. */
  method FoldRepository(before: Latest, r: Repository) returns (result: Result<Latest, ()>)
    requires forall i | 0 <= i < |r.visible| :: r.visible[i].version != ""
    requires forall package :: Lookup(before, package, r.name) == ""
    ensures Ordered(r) ==> result.Ok? && Folded(before, result.value, r, |r.visible|)
    ensures result.Ok? ==> NoneRefused(r, |r.visible|) && Taken(result.value, r, |r.visible|)
    ensures result.Err? ==> SomeRefused(r)
  {
    var latest := before;
    for n := 0 to |r.visible|
      invariant Ordered(r) ==> Folded(before, latest, r, n)
      invariant NoneRefused(r, n) && Taken(latest, r, n)
    {
      result := FoldTurn(before, latest, r, n);
      if result.Err? {
        return;
      }
      latest := result.value;
    }
    return Ok(latest);
  }

  ghost predicate SomeRefused(r: Repository) { exists x, y :: Visible(r, x) && Visible(r, y) && r.compare(x, y).Err? }

  /** One turn of it. */
  method FoldTurn(ghost before: Latest, latest: Latest, r: Repository, n: nat) returns (result: Result<Latest, ()>)
    requires n < |r.visible| && forall i | 0 <= i < |r.visible| :: r.visible[i].version != ""
    requires NoneRefused(r, n) && Taken(latest, r, n) && (Ordered(r) ==> Folded(before, latest, r, n))
    ensures Ordered(r) ==> result.Ok? && Folded(before, result.value, r, n + 1)
    ensures result.Ok? ==> NoneRefused(r, n + 1) && Taken(result.value, r, n + 1)
    ensures result.Err? ==> SomeRefused(r)
  {
    var PackageVersion(package, version) := r.visible[n];
    var current := Lookup(latest, package, r.name);
    var newer := IsNewer(r, current, version);
    if Ordered(r) {
      NewestStep(r, n, package, current);
    }
    if newer.Err? {
      RefusedTurn(latest, r, n);
      return Err(newer.error);
    }
    TurnRefuses(latest, r, n);
    var next := if newer.value then Noted(latest, package, r.name, version) else latest;
    NotedLookup(latest, package, r.name, version);
    TurnTakes(latest, next, r, n);
    if Ordered(r) {
      FoldStep(before, latest, next, r, n, if newer.value then version else current);
    }
    return Ok(next);
  }

  lemma {:induction false} RefusedTurn(latest: Latest, r: Repository, n: nat)
    requires n < |r.visible| && Taken(latest, r, n)
    requires IsNewer(r, Lookup(latest, r.visible[n].package, r.name), r.visible[n].version).Err?
    ensures SomeRefused(r)
  {
    var package, version := r.visible[n].package, r.visible[n].version;
    assert TakenFor(latest, r, n, package);
    assert Visible(r, version) && Visible(r, Lookup(latest, package, r.name));
  }

  lemma CarriesNext(r: Repository, n: nat, package: string)
    requires n < |r.visible|
    ensures Carries(r.visible[..n + 1], package) <==> Carries(r.visible[..n], package) || package == r.visible[n].package
  {
    var longer, shorter := r.visible[..n + 1], r.visible[..n];
    assert longer[n] == r.visible[n] && longer[..n] == shorter;
    if Carries(shorter, package) {
      var i :| 0 <= i < n && shorter[i].package == package;
      assert longer[i].package == package;
    }
    if Carries(longer, package) {
      var i :| 0 <= i < n + 1 && longer[i].package == package;
      assert i < n ==> shorter[i].package == package;
    }
  }

  lemma NewestGrows(r: Repository, n: nat, package: string, version: string)
    requires n < |r.visible| && NewestOf(r, n, package, version) && r.visible[n].package != package
    ensures NewestOf(r, n + 1, package, version)
  {
    var i :| 0 <= i < n && r.visible[i] == PackageVersion(package, version);
    assert 0 <= i < n + 1;
  }

  lemma FoldStep(before: Latest, previous: Latest, latest: Latest, r: Repository, n: nat, version: string)
    requires n < |r.visible| && version != ""
    requires Folded(before, previous, r, n)
    requires NewestOf(r, n + 1, r.visible[n].package, version)
    requires Lookup(latest, r.visible[n].package, r.name) == version
    requires forall package, repository | package != r.visible[n].package || repository != r.name ::
               Lookup(latest, package, repository) == Lookup(previous, package, repository)
    ensures Folded(before, latest, r, n + 1)
  {
    forall package | !Carries(r.visible[..n + 1], package) ensures Lookup(latest, package, r.name) == "" {
      CarriesNext(r, n, package);
    }
    forall package | Carries(r.visible[..n + 1], package)
      ensures Lookup(latest, package, r.name) != "" && NewestOf(r, n + 1, package, Lookup(latest, package, r.name))
    {
      CarriesNext(r, n, package);
      if package != r.visible[n].package {
        NewestGrows(r, n, package, Lookup(latest, package, r.name));
      }
    }
  }

  lemma InBoth(xs: seq<PackageVersion>, ys: seq<PackageVersion>, i: nat) returns (j: nat)
    requires multiset(xs) == multiset(ys) && i < |xs|
    ensures j < |ys| && ys[j] == xs[i]
  {
    assert xs[i] in multiset(xs);
    assert xs[i] in ys;
    j :| 0 <= j < |ys| && ys[j] == xs[i];
  }

  /** Whatever order the lock lists the versions in, the entry is as new: the newest of
      one listing and the newest of another are level. */
  lemma NewestIsOrderFree(r: Repository, s: Repository, package: string, v: string, w: string)
    requires Ordered(r) && r.compare == s.compare
    requires multiset(r.visible) == multiset(s.visible)
    requires NewestOf(r, |r.visible|, package, v) && NewestOf(s, |s.visible|, package, w)
    ensures r.compare(v, w) == Ok(0)
  {
    var i :| 0 <= i < |r.visible| && r.visible[i] == PackageVersion(package, v);
    var j :| 0 <= j < |s.visible| && s.visible[j] == PackageVersion(package, w);
    var i' := InBoth(r.visible, s.visible, i);
    var j' := InBoth(s.visible, r.visible, j);
    assert Visible(r, v) && Visible(r, w);
    assert Pair(r, v, w);
    assert AtMost(r, r.visible[j'].version, v) && AtMost(s, s.visible[i'].version, w);
  }

  /** So the site shows a greatest version of every Debian package, */
  lemma DebIsOrdered(r: Repository)
    requires forall version | Visible(r, version) :: DebVersion.ValidVersion(version)
    requires forall x, y | Visible(r, x) && Visible(r, y) :: r.compare(x, y) == Ok(DebVersion.VersionOrder(x, y))
    ensures Ordered(r)
  {
    forall x, y | Visible(r, x) && Visible(r, y) ensures Pair(r, x, y) {
      DebVersion.VersionPreorder(x, y, y);
    }
    forall x, y, z | Visible(r, x) && Visible(r, y) && Visible(r, z) ensures Chain(r, x, y, z) {
      DebVersion.VersionPreorder(x, y, z);
    }
  }

  /** of every Python package, */
  lemma PypiIsOrdered(r: Repository, parse: string -> Option<PypiVersion.Version>)
    requires forall i | 0 <= i < |r.visible| :: parse(r.visible[i].version).Some?
    requires forall x, y | parse(x).Some? && parse(y).Some? ::
               r.compare(x, y) == Ok(PypiVersion.VersionOrder(parse(x).value, parse(y).value))
    ensures Ordered(r)
  {
    forall x, y | Visible(r, x) && Visible(r, y) ensures Pair(r, x, y) {
      PypiVersion.VersionPreorder(parse(x).value, parse(y).value, parse(y).value);
    }
    forall x, y, z | Visible(r, x) && Visible(r, y) && Visible(r, z) ensures Chain(r, x, y, z) {
      PypiVersion.VersionPreorder(parse(x).value, parse(y).value, parse(z).value);
    }
  }

  /** of every raw artifact, whatever its versions look like, */
  lemma RawIsOrdered<V(!new)>(r: Repository, parse: string -> Option<V>, semver: (V, V) -> int)
    requires TotalPreorder(semver, (v: V) => true)
    requires forall x, y :: r.compare(x, y) == Ok(RawVersion.VersionOrder(parse, semver, x, y))
    ensures Ordered(r)
  {
    forall x, y, z ensures Pair(r, x, y) && Pair(r, y, z) && Pair(r, x, z) && Chain(r, x, y, z) {
      RawVersion.VersionPreorder(parse, semver, x, y, z);
      RawVersion.VersionPreorder(parse, semver, x, z, y);
      RawVersion.VersionPreorder(parse, semver, y, z, x);
    }
  }

  /** and of every Alpine package whose version components are orderly. */
  lemma ApkIsOrdered(r: Repository)
    requires forall version | Visible(r, version) ::
               ApkParse.ParseVersion(version).Some? && ApkVersion.Orderable(ApkParse.ParseVersion(version).value)
    requires forall x, y | Visible(r, x) && Visible(r, y) ::
               r.compare(x, y) == Ok(ApkVersion.VersionOrder(ApkParse.ParseVersion(x).value, ApkParse.ParseVersion(y).value))
    ensures Ordered(r)
  {
    forall x, y | Visible(r, x) && Visible(r, y) ensures Pair(r, x, y) {
      var v, w := ApkParse.ParseVersion(x).value, ApkParse.ParseVersion(y).value;
      ApkVersion.VersionPreorder(v, w, w);
    }
    forall x, y, z | Visible(r, x) && Visible(r, y) && Visible(r, z) ensures Chain(r, x, y, z) {
      ApkVersion.VersionPreorder(ApkParse.ParseVersion(x).value, ApkParse.ParseVersion(y).value, ApkParse.ParseVersion(z).value);
    }
  }
}
