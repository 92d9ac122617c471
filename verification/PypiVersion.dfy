/** PEP 440 version order on parsed versions (formats/pypi/version.go). */
module PypiVersion {
  import opened Orders
  import opened Decimal

  /** pep440Version. `prePhase` is 0 for alpha, 1 for beta, 2 for a release candidate. */
  datatype Version = Version(
    epoch: string, release: seq<string>, hasPre: bool, prePhase: int, preNumber: string,
    hasPost: bool, postNumber: string, hasDev: bool, devNumber: string, local: seq<string>)

  predicate AllDigits(parts: seq<string>) { forall i | 0 <= i < |parts| :: Digits(parts[i]) }

  /** What parsePEP440's pattern guarantees: decimal numbers and non-empty segments. */
  predicate Parsed(v: Version) {
    && Digits(v.epoch) && AllDigits(v.release)
    && 0 <= v.prePhase <= 2 && Digits(v.preNumber) && Digits(v.postNumber) && Digits(v.devNumber)
    && forall i | 0 <= i < |v.local| :: v.local[i] != ""
  }

  function Values(parts: seq<string>): (vs: seq<int>)
    ensures |vs| == |parts| && forall i | 0 <= i < |parts| :: vs[i] == Value(parts[i])
  {
    seq(|parts|, i requires 0 <= i < |parts| => Value(parts[i]))
  }

  // ----- the order of PEP 440, "Summary of permitted suffixes and relative ordering" -----

  /** Within one release: developmental releases, alphas, betas, release candidates, then
      the final release with its post-releases; within each of those, by number, then
      post-release (none first), then developmental release (none last). */
  function SuffixKey(v: Version): seq<int> {
    var stage := if v.hasPre then 1 + v.prePhase else if v.hasDev && !v.hasPost then 0 else 4;
    [stage,
     if v.hasPre then Value(v.preNumber) else 0,
     if v.hasPost then Value(v.postNumber) else -1,
     if v.hasDev then 0 else 1,
     if v.hasDev then Value(v.devNumber) else 0]
  }

  /** Numeric local segments rank above textual ones. */
  function CompareSegment(a: string, b: string): int {
    if NumericSegment(a) then (if NumericSegment(b) then CompareInt(Value(a), Value(b)) else 1)
    else if NumericSegment(b) then -1 else CompareText(a, b)
  }

  /** Epoch, release with missing parts read as zero, suffixes, then the local version,
      segment by segment, a shorter one first. */
  function VersionOrder(l: Version, r: Version): int {
    Then(CompareInt(Value(l.epoch), Value(r.epoch)),
         Then(PadBy(CompareInt, 0, Values(l.release), Values(r.release)),
              Then(LexBy(CompareInt, SuffixKey(l), SuffixKey(r)), LexBy(CompareSegment, l.local, r.local))))
  }

  // ----- the comparator -----

  /** numericSegment */
  predicate NumericSegment(s: string) { s != "" && Digits(s) }

  /** A missing part reads as zero. */
  lemma {:induction false} ValuesAt(parts: seq<string>, n: nat)
    ensures At(Values(parts), n, 0) == Value(At(parts, n, "0"))
  {
    assert "0"[..0] == "";
  }

  /** compareRelease */
  method CompareRelease(left: seq<string>, right: seq<string>) returns (order: int)
    requires AllDigits(left) && AllDigits(right)
    ensures order == PadBy(CompareInt, 0, Values(left), Values(right))
  {
    ghost var l, r := Values(left), Values(right);
    PadFromStart(CompareInt, 0, l, r);
    var length := if |right| > |left| then |right| else |left|;
    for index := 0 to length
      invariant PadBy(CompareInt, 0, l, r) == PadFrom(CompareInt, 0, l, r, index)
    {
      ValuesAt(left, index);
      ValuesAt(right, index);
      order := ComparePart(At(left, index, "0"), At(right, index, "0"));
      if order != 0 {
        return;
      }
    }
    order := 0;
  }

  method ComparePart(left: string, right: string) returns (order: int)
    requires Digits(left) && Digits(right)
    ensures order == CompareInt(Value(left), Value(right))
  {
    CompareNumericIsNatural(left, right);
    order := CompareNumeric(left, right);
  }

  function PreRank(v: Version): int {
    if v.hasPre then 0 else if v.hasDev && !v.hasPost then -1 else 1
  }

  /** comparePre */
  function ComparePre(l: Version, r: Version): int {
    if PreRank(l) < PreRank(r) then -1
    else if PreRank(l) > PreRank(r) then 1
    else if PreRank(l) != 0 then 0
    else if l.prePhase < r.prePhase then -1
    else if l.prePhase > r.prePhase then 1
    else CompareNumeric(l.preNumber, r.preNumber)
  }

  /** compareOptionalNumber */
  function CompareOptionalNumber(
    leftPresent: bool, left: string, rightPresent: bool, right: string, absentRank: int, presentRank: int): int
  {
    var l := if leftPresent then presentRank else absentRank;
    var r := if rightPresent then presentRank else absentRank;
    if l < r then -1 else if l > r then 1 else if !leftPresent then 0 else CompareNumeric(left, right)
  }

  /** One segment of compareLocal: numbers above text. */
  method CompareSegments(left: string, right: string) returns (order: int)
    ensures order == CompareSegment(left, right)
  {
    var leftNumeric, rightNumeric := NumericSegment(left), NumericSegment(right);
    if leftNumeric && !rightNumeric {
      return 1;
    } else if !leftNumeric && rightNumeric {
      return -1;
    } else if leftNumeric {
      CompareNumericIsNatural(left, right);
      return CompareNumeric(left, right);
    }
    return CompareText(left, right);
  }

  /** compareLocal */
  method CompareLocal(left: seq<string>, right: seq<string>) returns (order: int)
    ensures order == LexBy(CompareSegment, left, right)
  {
    if left == [] && right == [] {
      return 0;
    }
    if left == [] {
      return -1;
    }
    if right == [] {
      return 1;
    }
    LexFromStart(CompareSegment, left, right);
    var length := if |right| < |left| then |right| else |left|;
    for index := 0 to length
      invariant LexBy(CompareSegment, left, right) == LexFrom(CompareSegment, left, right, index)
    {
      order := CompareSegments(left[index], right[index]);
      if order != 0 {
        return;
      }
    }
    if |left| < |right| {
      return -1;
    }
    if |left| > |right| {
      return 1;
    }
    return 0;
  }

  lemma LexFive(a: seq<int>, b: seq<int>)
    requires |a| == 5 && |b| == 5
    ensures LexBy(CompareInt, a, b) ==
              Then(Sign(a[0] - b[0]), Then(Sign(a[1] - b[1]), Then(Sign(a[2] - b[2]),
                   Then(Sign(a[3] - b[3]), Sign(a[4] - b[4])))))
  {
    assert a[1..][1..] == a[2..] && a[2..][1..] == a[3..] && a[3..][1..] == a[4..] && a[4..][1..] == [];
    assert b[1..][1..] == b[2..] && b[2..][1..] == b[3..] && b[3..][1..] == b[4..] && b[4..][1..] == [];
    assert LexBy(CompareInt, a[1..], b[1..]) == Then(Sign(a[1] - b[1]), LexBy(CompareInt, a[2..], b[2..]));
    assert LexBy(CompareInt, a[2..], b[2..]) == Then(Sign(a[2] - b[2]), LexBy(CompareInt, a[3..], b[3..]));
    assert LexBy(CompareInt, a[3..], b[3..]) == Then(Sign(a[3] - b[3]), LexBy(CompareInt, a[4..], b[4..]));
    assert LexBy(CompareInt, a[4..], b[4..]) == Then(Sign(a[4] - b[4]), LexBy(CompareInt, [], []));
  }

  /** The three suffix comparisons together order the suffixes as PEP 440 lists them. */
  lemma SuffixesInOrder(l: Version, r: Version)
    requires Parsed(l) && Parsed(r)
    ensures LexBy(CompareInt, SuffixKey(l), SuffixKey(r)) ==
              Then(ComparePre(l, r),
                   Then(CompareOptionalNumber(l.hasPost, l.postNumber, r.hasPost, r.postNumber, -1, 1),
                        CompareOptionalNumber(l.hasDev, l.devNumber, r.hasDev, r.devNumber, 1, -1)))
  {
    CompareNumericIsNatural(l.preNumber, r.preNumber);
    CompareNumericIsNatural(l.postNumber, r.postNumber);
    CompareNumericIsNatural(l.devNumber, r.devNumber);
    LexFive(SuffixKey(l), SuffixKey(r));
  }

  /** CompareVersions, once both sides are parsed. */
  method CompareVersions(l: Version, r: Version) returns (order: int)
    requires Parsed(l) && Parsed(r)
    ensures order == VersionOrder(l, r)
  {
    SuffixesInOrder(l, r);
    CompareNumericIsNatural(l.epoch, r.epoch);
    order := CompareNumeric(l.epoch, r.epoch);
    if order != 0 {
      return;
    }
    order := CompareRelease(l.release, r.release);
    if order != 0 {
      return;
    }
    order := ComparePre(l, r);
    if order != 0 {
      return;
    }
    order := CompareOptionalNumber(l.hasPost, l.postNumber, r.hasPost, r.postNumber, -1, 1);
    if order != 0 {
      return;
    }
    order := CompareOptionalNumber(l.hasDev, l.devNumber, r.hasDev, r.devNumber, 1, -1);
    if order != 0 {
      return;
    }
    order := CompareLocal(l.local, r.local);
  }

  lemma SegmentPreorder()
    ensures TotalPreorder(CompareSegment, (s: string) => true)
  {
    forall a, b, c
      ensures CompareSegment(a, b) == -CompareSegment(b, a)
      ensures Consistent(CompareSegment(a, b), CompareSegment(b, c), CompareSegment(a, c))
    {
      TextPreorder(a, b, c);
    }
  }

  lemma LocalPreorder(a: seq<string>, b: seq<string>, c: seq<string>)
    ensures LexBy(CompareSegment, a, b) == -LexBy(CompareSegment, b, a)
    ensures Consistent(LexBy(CompareSegment, a, b), LexBy(CompareSegment, b, c), LexBy(CompareSegment, a, c))
  {
    SegmentPreorder();
    var any := (s: string) => true;
    LexAnti(CompareSegment, any, a, b);
    LexTransitive(CompareSegment, any, a, b, c);
  }

  lemma SuffixPreorder(a: seq<int>, b: seq<int>, c: seq<int>)
    ensures LexBy(CompareInt, a, b) == -LexBy(CompareInt, b, a)
    ensures Consistent(LexBy(CompareInt, a, b), LexBy(CompareInt, b, c), LexBy(CompareInt, a, c))
  {
    var any := (x: int) => true;
    LexAnti(CompareInt, any, a, b);
    LexTransitive(CompareInt, any, a, b, c);
  }

  /** The order of parsed versions is total and transitive. */
  lemma VersionPreorder(a: Version, b: Version, c: Version)
    ensures VersionOrder(a, b) == -VersionOrder(b, a)
    ensures Consistent(VersionOrder(a, b), VersionOrder(b, c), VersionOrder(a, c))
  {
    PaddedIntsPreorder(Values(a.release), Values(b.release), Values(c.release));
    SuffixPreorder(SuffixKey(a), SuffixKey(b), SuffixKey(c));
    LocalPreorder(a.local, b.local, c.local);
  }
}
