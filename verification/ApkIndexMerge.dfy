/** What becomes of repeated entries of an APKINDEX (formats/apk/repository.go). */
module ApkIndexMerge {
  import opened Wrappers
  import opened Lines
  import opened ApkIndex
  import opened ApkIndexRoundTrip

  /** No earlier entry has this one's key. */
  predicate IsFirst(ls: seq<Listed>, j: nat)
    requires j < |ls|
  {
    forall i | 0 <= i < j :: Key(ls[i]) != Key(ls[j])
  }

  /** One of the first k entries repeats the key of the j-th with another control digest. */
  predicate Contradicted(ls: seq<Listed>, j: nat, k: nat)
    requires j < |ls| && k <= |ls|
  {
    exists m | j < m < k :: Key(ls[m]) == Key(ls[j]) && ls[m].control != ls[j].control
  }

  /** The keys are those of the first k entries. */
  ghost predicate Covers(x: Index, ls: seq<Listed>, k: nat)
    requires k <= |ls|
  {
    && ValidIndex(x)
    && (forall j | 0 <= j < k :: Key(ls[j]) in x.seen)
    && (forall key | key in x.seen :: exists j | 0 <= j < k :: Key(ls[j]) == key)
  }

  /** The j-th entry is kept, and marked as it should be. */
  predicate KeptAs(x: Index, ls: seq<Listed>, j: nat, k: nat)
    requires j < k <= |ls|
  {
    && Key(ls[j]) in x.seen && x.seen[Key(ls[j])] < |x.packages|
    && x.packages[x.seen[Key(ls[j])]] == ls[j].(ambiguous := Contradicted(ls, j, k))
  }

  /** The i-th entry comes before the j-th. */
  predicate Precedes(x: Index, ls: seq<Listed>, i: nat, j: nat)
    requires i < |ls| && j < |ls|
  {
    Key(ls[i]) in x.seen && Key(ls[j]) in x.seen && x.seen[Key(ls[i])] < x.seen[Key(ls[j])]
  }

  /** The table of the first k entries: the first of each key, in order, marked as ambiguous if a
      later one has another control digest, and nothing else. */
  ghost predicate Merges(x: Index, ls: seq<Listed>, k: nat)
    requires k <= |ls|
  {
    && Covers(x, ls, k)
    && (forall j: nat | j < k && IsFirst(ls, j) :: KeptAs(x, ls, j, k))
    && (forall i: nat, j: nat | i < j < k && IsFirst(ls, i) && IsFirst(ls, j) :: Precedes(x, ls, i, j))
  }

  predicate Unmarked(ls: seq<Listed>) { forall i | 0 <= i < |ls| :: !ls[i].ambiguous }

  lemma {:induction false} ContradictedNext(ls: seq<Listed>, j: nat, k: nat)
    requires j < k < |ls|
    ensures Contradicted(ls, j, k + 1) <==> Contradicted(ls, j, k) || (Key(ls[k]) == Key(ls[j]) && ls[k].control != ls[j].control)
  {
  }

  lemma {:induction false} FirstOf(ls: seq<Listed>, k: nat) returns (j: nat)
    requires k < |ls|
    ensures j <= k && Key(ls[j]) == Key(ls[k]) && IsFirst(ls, j)
  {
    if IsFirst(ls, k) {
      j := k;
    } else {
      var i: nat :| i < k && Key(ls[i]) == Key(ls[k]);
      j := FirstOf(ls, i);
    }
  }

  /** A new key: its entry is added at the end. */
  lemma {:induction false} MergeNew(x: Index, ls: seq<Listed>, k: nat)
    requires k < |ls| && Merges(x, ls, k) && Unmarked(ls) && Key(ls[k]) !in x.seen
    ensures Merges(Note(x, ls[k]), ls, k + 1)
  {
    var y := Note(x, ls[k]);
    assert IsFirst(ls, k);
    assert Covers(y, ls, k + 1) by {
      assert forall j | 0 <= j < k :: Key(ls[j]) in x.seen;
    }
    forall j: nat | j < k + 1 && IsFirst(ls, j) ensures KeptAs(y, ls, j, k + 1) {
      if j < k {
        assert KeptAs(x, ls, j, k);
        ContradictedNext(ls, j, k);
      }
    }
    forall i: nat, j: nat | i < j < k + 1 && IsFirst(ls, i) && IsFirst(ls, j) ensures Precedes(y, ls, i, j) {
      assert KeptAs(x, ls, i, k);
      if j < k {
        assert Precedes(x, ls, i, j);
      }
    }
  }

  /** A known key: at most its mark changes. */
  lemma {:induction false} MergeKnown(x: Index, ls: seq<Listed>, k: nat)
    requires k < |ls| && Merges(x, ls, k) && Unmarked(ls) && Key(ls[k]) in x.seen
    ensures Merges(Note(x, ls[k]), ls, k + 1)
  {
    var y := Note(x, ls[k]);
    var f := FirstOf(ls, k);
    var known: nat :| known < k && Key(ls[known]) == Key(ls[k]);
    assert f < k;
    assert KeptAs(x, ls, f, k);
    assert y.seen == x.seen;
    assert Covers(y, ls, k + 1) by {
      assert forall j | 0 <= j < k :: Key(ls[j]) in x.seen;
    }
    forall j: nat | j < k + 1 && IsFirst(ls, j) ensures KeptAs(y, ls, j, k + 1) {
      assert j < k;
      assert KeptAs(x, ls, j, k);
      ContradictedNext(ls, j, k);
    }
    forall i: nat, j: nat | i < j < k + 1 && IsFirst(ls, i) && IsFirst(ls, j) ensures Precedes(y, ls, i, j) {
      assert Precedes(x, ls, i, j);
    }
  }

  /** The table after the first k entries. */
  function Noted(ls: seq<Listed>, k: nat): (x: Index)
    requires k <= |ls|
    ensures ValidIndex(x) && |x.packages| <= k
  {
    if k == 0 then Index([], map[]) else Note(Noted(ls, k - 1), ls[k - 1])
  }

  lemma {:induction false} MergeNext(x: Index, ls: seq<Listed>, k: nat)
    requires k < |ls| && Merges(x, ls, k) && Unmarked(ls)
    ensures Merges(Note(x, ls[k]), ls, k + 1)
  {
    if Key(ls[k]) in x.seen {
      MergeKnown(x, ls, k);
    } else {
      MergeNew(x, ls, k);
    }
  }

  lemma {:induction false} MergesNone(ls: seq<Listed>)
    ensures Merges(Index([], map[]), ls, 0)
  {
  }

  lemma {:induction false} NotedMerges(ls: seq<Listed>) returns (x: Index)
    requires Unmarked(ls)
    ensures x == Noted(ls, |ls|) && Merges(x, ls, |ls|)
  {
    x := Index([], map[]);
    MergesNone(ls);
    for k := 0 to |ls|
      invariant x == Noted(ls, k) && Merges(x, ls, k)
    {
      MergeNext(x, ls, k);
      x := Note(x, ls[k]);
    }
  }

  lemma {:induction false} ReadOne(read: string -> Reading, blocks: seq<string>, x: Index, p: Listed)
    requires ValidIndex(x) && |x.packages| < MAXIMUM_ENTRIES && blocks != [] && TrimSpace(blocks[0]) != "" && read(blocks[0]) == Entry(p)
    ensures ReadBlocks(read, blocks, x) == ReadBlocks(read, blocks[1..], Note(x, p))
  {
  }

  lemma {:induction false} ReadNoted(read: string -> Reading, blocks: seq<string>, ls: seq<Listed>, k: nat)
    requires k <= |ls| == |blocks| && |ls| <= MAXIMUM_ENTRIES && ReadAs(read, blocks, ls)
    ensures ReadBlocks(read, blocks[k..], Noted(ls, k)) == Ok(Noted(ls, |ls|).packages)
    decreases |ls| - k
  {
    if k < |ls| {
      var left := blocks[k..];
      assert left[0] == blocks[k] && left[1..] == blocks[k + 1..];
      ReadOne(read, left, Noted(ls, k), ls[k]);
      ReadNoted(read, blocks, ls, k + 1);
    }
  }

  /** However often a rendered index repeats a name and version, each is listed once, where and as it
      comes first, and is marked as ambiguous exactly if another with it has a different control
      digest. */
  lemma {:induction false} RepeatedAreMerged(base64: string -> Option<seq<bv8>>, ps: seq<Package>) returns (x: Index)
    requires AllRenderable(ps) && ps != [] && |ps| <= MAXIMUM_ENTRIES
    ensures ParseIndex(base64, IndexText(ps)) == Ok(x.packages)
    ensures Merges(x, PublishedAll(base64, ps), |ps|)
  {
    var blocks, ls := Blocks(IndexText(ps)), PublishedAll(base64, ps);
    IndexBlocks(ps);
    IndexReadAs(base64, blocks, ps);
    x := NotedMerges(ls);
    ReadNoted(Reader(base64), blocks, ls, 0);
    assert blocks[0..] == blocks;
  }
}
