/** Any number of apply runs and rollbacks racing for one repository. A host commits
    or restores only while it serves the revision the caller names (Host.Commit and
    Host.Restore in host/host.go), so an interleaving is a sequence of attempts, each
    with whatever the caller observed earlier. A host may name revisions as it likes:
    by content, so that a name comes back with its content, or always anew. */
module HostRaces {
  import opened Records

  /** `displaced` is what the revision of each native name replaced when it was
      committed; `used` holds every native name the host gave out. */
  datatype Host = Host(live: Revision, displaced: map<string, Revision>, used: set<string>)

  datatype Attempt =
    | Commit(expected: Revision, revision: Revision)
    | Restore(expected: Revision, native: string)

  /** What a caller expects it once observed on the same host, so comparing the fields that
      host reports is comparing revisions. */
  predicate Succeeds(h: Host, a: Attempt) {
    && h.live == a.expected
    && (a.Restore? ==> a.expected.native in h.displaced)
  }

  function Next(h: Host, a: Attempt): Host {
    if !Succeeds(h, a) then h
    else
      match a
      case Commit(_, revision) =>
        Host(revision, h.displaced[revision.native := h.live], h.used + {revision.native})
      case Restore(_, native) =>
        Host(h.displaced[a.expected.native].(native := native), h.displaced, h.used + {native})
  }

  /** The host before attempt k. */
  function At(h: Host, attempts: seq<Attempt>, k: nat): Host
    requires k <= |attempts|
  {
    if k == 0 then h else Next(At(h, attempts, k - 1), attempts[k - 1])
  }

  predicate Commits(h: Host, attempts: seq<Attempt>, k: nat) {
    k < |attempts| && attempts[k].Commit? && Succeeds(At(h, attempts, k), attempts[k])
  }

  predicate Restores(h: Host, attempts: seq<Attempt>, k: nat) {
    k < |attempts| && attempts[k].Restore? && Succeeds(At(h, attempts, k), attempts[k])
  }

  // ----- on every host -----

  /** This attempt took effect and made the revision live, which it was not. */
  predicate Revives(h: Host, attempts: seq<Attempt>, r: nat, revision: Revision) {
    && (Commits(h, attempts, r) || Restores(h, attempts, r))
    && At(h, attempts, r).live != revision && At(h, attempts, r + 1).live == revision
  }

  /** A revision that is not live becomes live only by an attempt that takes effect. */
  lemma {:induction false} ComesBack(h: Host, attempts: seq<Attempt>, j: nat, k: nat, revision: Revision) returns (r: nat)
    requires j <= k <= |attempts| && At(h, attempts, j).live != revision && At(h, attempts, k).live == revision
    ensures j <= r < k && Revives(h, attempts, r, revision)
    decreases k
  {
    if At(h, attempts, k - 1).live == revision {
      r := ComesBack(h, attempts, j, k - 1, revision);
    } else {
      r := k - 1;
    }
  }

  /** Two runs that planned against the same revision both commit only if the first one
      changed nothing, or in between a commit or a restore made that very revision live
      again. */
  lemma {:induction false} SameObservationCommitsOnce(h: Host, attempts: seq<Attempt>, i: nat, j: nat)
    requires i < j && Commits(h, attempts, i) && Commits(h, attempts, j) && attempts[i].expected == attempts[j].expected
    ensures attempts[i].revision == attempts[i].expected
            || exists r: nat | i < r < j :: Revives(h, attempts, r, attempts[i].expected)
  {
    if attempts[i].revision != attempts[i].expected {
      var r := ComesBack(h, attempts, i + 1, j, attempts[i].expected);
    }
  }

  /** No publication is lost unseen: whenever the live revision changes, the caller
      that changed it had named it. */
  lemma {:induction false} EveryChangeWasNamed(h: Host, attempts: seq<Attempt>, j: nat, k: nat)
    requires j <= k <= |attempts| && At(h, attempts, k).live != At(h, attempts, j).live
    ensures exists r: nat | j <= r < k ::
              attempts[r].expected == At(h, attempts, j).live && Succeeds(At(h, attempts, r), attempts[r])
    decreases k - j
  {
    if Succeeds(At(h, attempts, j), attempts[j]) {
      assert attempts[j].expected == At(h, attempts, j).live;
    } else {
      assert At(h, attempts, j + 1) == At(h, attempts, j);
      EveryChangeWasNamed(h, attempts, j + 1, k);
      var r: nat :| j + 1 <= r < k && attempts[r].expected == At(h, attempts, j + 1).live
                    && Succeeds(At(h, attempts, r), attempts[r]);
    }
  }

  /** No commit after the i-th reused its revision's name. */
  predicate LastOfItsName(h: Host, attempts: seq<Attempt>, i: nat, j: nat)
    requires i < |attempts| && attempts[i].Commit?
  {
    forall k | i < k < j && Commits(h, attempts, k) :: attempts[k].revision.native != attempts[i].revision.native
  }

  lemma {:induction false} StillDisplaced(h: Host, attempts: seq<Attempt>, i: nat, j: nat)
    requires i < j <= |attempts| && Commits(h, attempts, i) && LastOfItsName(h, attempts, i, j)
    ensures var native := attempts[i].revision.native;
            native in At(h, attempts, j).displaced && At(h, attempts, j).displaced[native] == attempts[i].expected
    decreases j
  {
    if i + 1 < j {
      StillDisplaced(h, attempts, i, j - 1);
      assert Commits(h, attempts, j - 1) ==> attempts[j - 1].revision.native != attempts[i].revision.native;
    }
  }

  /** However the race goes on, a restore that names a committed revision takes effect if and
      only if that revision is live, and puts back exactly what its commit replaced. */
  lemma {:induction false} RestoreUndoesItsCommit(h: Host, attempts: seq<Attempt>, i: nat, j: nat)
    requires i < j < |attempts| && Commits(h, attempts, i) && LastOfItsName(h, attempts, i, j)
    requires attempts[j].Restore? && attempts[j].expected == attempts[i].revision
    ensures Restores(h, attempts, j) <==> At(h, attempts, j).live == attempts[i].revision
    ensures Restores(h, attempts, j) ==>
              At(h, attempts, j + 1).live == attempts[i].expected.(native := attempts[j].native)
    ensures !Restores(h, attempts, j) ==> At(h, attempts, j + 1) == At(h, attempts, j)
  {
    StillDisplaced(h, attempts, i, j);
  }

  // ----- a host that names revisions by their tree -----

  /** The local host reports a tree and nothing else. */
  function ByTree(tree: string): Revision { NO_REVISION.(native := tree, tree := tree) }

  /** On it a stale run does commit: from a to b, back to a by publishing a again, and to b by
      the run that still remembers the first a. No restore is involved. */
  lemma {:induction false} StaleRunCommitsByTree(a: string, b: string)
    requires a != b
    ensures var attempts := [Commit(ByTree(a), ByTree(b)), Commit(ByTree(b), ByTree(a)), Commit(ByTree(a), ByTree(b))];
            var h := Host(ByTree(a), map[], {a});
            && Commits(h, attempts, 0) && Commits(h, attempts, 2) && attempts[0].expected == attempts[2].expected
            && (forall r: nat :: !Restores(h, attempts, r)) && Revives(h, attempts, 1, ByTree(a))
  {
    var attempts := [Commit(ByTree(a), ByTree(b)), Commit(ByTree(b), ByTree(a)), Commit(ByTree(a), ByTree(b))];
    var h := Host(ByTree(a), map[], {a});
    assert At(h, attempts, 1).live == ByTree(b);
    assert At(h, attempts, 2).live == ByTree(a);
  }

  // ----- a host that names every commit anew -----

  /** A committed revision is new to the host. A restored one is the displaced revision
      itself (a branch moved back), or the same content under a new name. */
  predicate HostNames(h: Host, a: Attempt) {
    match a
    case Commit(_, revision) => revision.native !in h.used
    case Restore(_, native) => Succeeds(h, a) ==> native == h.displaced[a.expected.native].native || native !in h.used
  }

  predicate NamedAt(h: Host, attempts: seq<Attempt>, k: nat)
    requires k < |attempts|
  {
    HostNames(At(h, attempts, k), attempts[k])
  }

  ghost predicate NamedAnew(h: Host, attempts: seq<Attempt>) {
    h.live.native in h.used && forall k: nat | k < |attempts| :: NamedAt(h, attempts, k)
  }

  lemma {:induction false} UsedGrows(h: Host, attempts: seq<Attempt>, j: nat, k: nat)
    requires h.live.native in h.used && j <= k <= |attempts|
    ensures At(h, attempts, j).used <= At(h, attempts, k).used && At(h, attempts, k).live.native in At(h, attempts, k).used
    decreases k
  {
    if j < k {
      UsedGrows(h, attempts, j, k - 1);
    } else if 0 < k {
      UsedGrows(h, attempts, 0, k - 1);
    }
  }

  /** There only a restore can bring a revision back that was live before. */
  lemma {:induction false} ComesBackByRestore(h: Host, attempts: seq<Attempt>, i: nat, r: nat, revision: Revision)
    requires NamedAnew(h, attempts) && i <= r < |attempts| && At(h, attempts, i).live == revision
    requires Revives(h, attempts, r, revision)
    ensures Restores(h, attempts, r) && attempts[r].native == revision.native
  {
    UsedGrows(h, attempts, i, i);
    UsedGrows(h, attempts, i, r);
    assert NamedAt(h, attempts, r);
  }

  /** So two commits of one observation have a restore between them that brought it back. */
  lemma {:induction false} RestoreBetweenCommits(h: Host, attempts: seq<Attempt>, i: nat, j: nat)
    requires NamedAnew(h, attempts) && i < j && Commits(h, attempts, i) && Commits(h, attempts, j)
    requires attempts[i].expected == attempts[j].expected
    ensures exists r: nat | i < r < j :: Restores(h, attempts, r) && attempts[r].native == attempts[i].expected.native
  {
    UsedGrows(h, attempts, i, i);
    assert NamedAt(h, attempts, i);
    SameObservationCommitsOnce(h, attempts, i, j);
    var r: nat :| i < r < j && Revives(h, attempts, r, attempts[i].expected);
    ComesBackByRestore(h, attempts, i, r, attempts[i].expected);
  }

  /** And where restores get new names too, at most one of them commits. */
  lemma {:induction false} NeverBothCommit(h: Host, attempts: seq<Attempt>, i: nat, j: nat)
    requires NamedAnew(h, attempts) && i < j < |attempts| && attempts[i].Commit? && attempts[j].Commit?
    requires attempts[i].expected == attempts[j].expected
    requires forall r: nat | Restores(h, attempts, r) :: attempts[r].native !in At(h, attempts, r).used
    ensures !(Commits(h, attempts, i) && Commits(h, attempts, j))
  {
    if Commits(h, attempts, i) && Commits(h, attempts, j) {
      RestoreBetweenCommits(h, attempts, i, j);
      var r: nat :| i < r < j && Restores(h, attempts, r) && attempts[r].native == attempts[i].expected.native;
      UsedGrows(h, attempts, i, i);
      UsedGrows(h, attempts, i, r);
    }
  }
}
