/** Alpine version order on parsed versions (formats/apk/version.go). */
module ApkVersion {
  import opened Wrappers
  import opened Orders
  import opened Decimal

  const INT64_LIMIT := 0x8000_0000_0000_0000

  datatype Suffix = Suffix(rank: int, number: int)

  datatype Version = Version(numbers: seq<string>, letter: string, suffixes: seq<Suffix>, revision: int, hasRevision: bool)

  /** A dotted component as parseVersion leaves it. */
  predicate Component(s: string) { s != "" && Digits(s) }

  /** strconv.ParseInt(s, 10, 64) of a component */
  function ParseInt(s: string): Option<int> {
    if Digits(s) && Value(s) < INT64_LIMIT then Some(Value(s)) else None
  }

  /** strings.TrimRight(s, "0") */
  function TrimRightZeros(s: string): (t: string)
    ensures t <= s && (t == "" || t[|t| - 1] != '0')
  {
    if s != "" && s[|s| - 1] == '0' then TrimRightZeros(s[..|s| - 1]) else s
  }

  predicate LeadingZero(s: string) { s != "" && s[0] == '0' }

  /** compareNumber: with a leading zero as a fraction, otherwise as an integer, or as
      text where one does not fit. */
  function CompareNumber(left: string, right: string): int {
    if (LeadingZero(left) || LeadingZero(right)) && (|left| > 1 || |right| > 1) then
      CompareText(TrimRightZeros(left), TrimRightZeros(right))
    else
      var l, r := ParseInt(left), ParseInt(right);
      if l.None? || r.None? then CompareText(left, right)
      else CompareInt(l.value, r.value)
  }

  // ----- which components it orders -----

  predicate Fits(s: string) { Value(s) < INT64_LIMIT }

  predicate AllNines(s: string) { forall i | 0 <= i < |s| :: s[i] == '9' }

  /** A component that fits in 64 bits, or reads as a fraction, or begins with eighteen
      nines, so that as text too it is above everything that fits. */
  predicate Orderly(s: string) {
    LeadingZero(s) || Fits(s) || (|s| >= 19 && AllNines(s[..18]))
  }

  /** The order on such components: fractions as text without trailing zeros, then
      integers by value, then those too long. */
  function NumberOrder(left: string, right: string): int {
    if LeadingZero(left) then
      if LeadingZero(right) then CompareText(TrimRightZeros(left), TrimRightZeros(right)) else -1
    else if LeadingZero(right) then 1
    else if Fits(left) then (if Fits(right) then CompareInt(Value(left), Value(right)) else -1)
    else if Fits(right) then 1
    else CompareText(left, right)
  }

  lemma Powers()
    ensures Pow10(18) == 1_000_000_000_000_000_000 && Pow10(19) == 10_000_000_000_000_000_000
  {
    assert Pow10(4) == 10_000;
    assert Pow10(8) == 10000 * Pow10(4) by { assert Pow10(6) == 100 * Pow10(4); }
    assert Pow10(12) == 10000 * Pow10(8) by { assert Pow10(10) == 100 * Pow10(8); }
    assert Pow10(16) == 10000 * Pow10(12) by { assert Pow10(14) == 100 * Pow10(12); }
    assert Pow10(18) == 100 * Pow10(16);
  }

  lemma {:induction false} NinesValue(s: string)
    requires AllNines(s)
    ensures Digits(s) && Value(s) == Pow10(|s|) - 1
  {
    if s != "" {
      NinesValue(s[..|s| - 1]);
    }
  }

  /** Nothing is above nines but what begins with them. */
  lemma {:induction false} BelowNines(n: string, h: string, m: nat)
    requires Digits(n) && m <= |h| && AllNines(h[..m])
    requires (|n| <= m && |n| < |h|) || (m <= |n| && !AllNines(n[..m]))
    ensures CompareText(n, h) == -1
  {
    if n != "" && m > 0 && n[0] == '9' {
      assert h[..m][0] == '9';
      assert h[1..][..m - 1] == h[..m][1..];
      if m <= |n| {
        assert n[1..][..m - 1] == n[..m][1..];
        assert !AllNines(n[..m]) ==> !AllNines(n[1..][..m - 1]) by {
          if AllNines(n[1..][..m - 1]) {
            assert forall i | 0 <= i < m :: n[..m][i] == if i == 0 then n[0] else n[1..][..m - 1][i - 1];
          }
        }
      }
      BelowNines(n[1..], h[1..], m - 1);
    } else if n != "" && m > 0 {
      assert IsDigit(n[0]) && h[..m][0] == '9';
    }
  }

  /** A component that fits and has no leading zero is short. */
  lemma FitsLength(s: string)
    requires Component(s) && !LeadingZero(s)
    ensures Fits(s) ==> |s| <= 19 && (|s| == 19 ==> !AllNines(s[..18]))
    ensures !Fits(s) ==> |s| >= 19
  {
    Powers();
    ValueAtLeast(s);
    ValueBound(s);
    if |s| >= 20 { Pow10Monotone(19, |s| - 1); }
    if |s| <= 18 { Pow10Monotone(|s|, 18); }
    if |s| == 19 && AllNines(s[..18]) { NinesValue(s[..18]); }
  }

  lemma {:induction false} TrimKeepsHead(s: string)
    requires Component(s)
    ensures TrimRightZeros(s) == "" ==> LeadingZero(s)
    ensures TrimRightZeros(s) != "" ==> TrimRightZeros(s)[0] == s[0]
  {
    if s[|s| - 1] == '0' && |s| > 1 {
      TrimKeepsHead(s[..|s| - 1]);
    }
  }

  lemma {:induction false} OneDigit(s: string)
    requires Component(s) && |s| == 1
    ensures Value(s) == DigitValue(s[0]) && Fits(s)
  {
    assert s[..0] == "";
    assert Value(s) == 10 * Value("") + DigitValue(s[0]);
  }

  lemma {:induction false} FractionsFirst(l: string, r: string)
    requires Component(l) && Component(r) && LeadingZero(l) && !LeadingZero(r)
    ensures CompareNumber(l, r) == -1 && CompareNumber(r, l) == 1
  {
    TrimKeepsHead(l);
    TrimKeepsHead(r);
    if |l| == 1 && |r| == 1 {
      OneDigit(l);
      OneDigit(r);
      assert IsDigit(r[0]) && r[0] != '0';
      assert Value(l) == 0 && 0 < Value(r) <= 9;
    }
  }

  lemma LongLast(l: string, r: string)
    requires Component(l) && Component(r) && !LeadingZero(l) && !LeadingZero(r)
    requires Fits(l) && !Fits(r) && Orderly(r)
    ensures CompareNumber(l, r) == -1 && CompareNumber(r, l) == 1
  {
    FitsLength(l);
    BelowNines(l, r, 18);
    TextPreorder(l, r, l);
  }

  /** On orderly components the comparator is the order above. */
  lemma CompareNumberMeaning(l: string, r: string)
    requires Component(l) && Component(r) && Orderly(l) && Orderly(r)
    ensures CompareNumber(l, r) == NumberOrder(l, r)
  {
    if LeadingZero(l) && !LeadingZero(r) {
      FractionsFirst(l, r);
    } else if LeadingZero(r) && !LeadingZero(l) {
      FractionsFirst(r, l);
    } else if LeadingZero(l) && LeadingZero(r) {
      if |l| == 1 && |r| == 1 {
        assert l == "0" && r == "0";
        TextSign(TrimRightZeros(l), TrimRightZeros(r));
      }
    } else if Fits(l) && !Fits(r) {
      LongLast(l, r);
    } else if Fits(r) && !Fits(l) {
      LongLast(r, l);
    }
  }

  lemma NumberOrderPreorder(a: string, b: string, c: string)
    ensures NumberOrder(a, b) == -NumberOrder(b, a)
    ensures Consistent(NumberOrder(a, b), NumberOrder(b, c), NumberOrder(a, c))
  {
    TextPreorder(a, b, c);
    TextPreorder(TrimRightZeros(a), TrimRightZeros(b), TrimRightZeros(c));
  }

  predicate Usable(s: string) { Component(s) && Orderly(s) }

  lemma NumberPreorder()
    ensures TotalPreorder(CompareNumber, Usable)
  {
    forall a, b | Usable(a) && Usable(b) ensures CompareNumber(a, b) == -CompareNumber(b, a) {
      CompareNumberMeaning(a, b);
      CompareNumberMeaning(b, a);
      NumberOrderPreorder(a, b, b);
    }
    forall a, b, c | Usable(a) && Usable(b) && Usable(c)
      ensures Consistent(CompareNumber(a, b), CompareNumber(b, c), CompareNumber(a, c))
    {
      CompareNumberMeaning(a, b);
      CompareNumberMeaning(b, c);
      CompareNumberMeaning(a, c);
      NumberOrderPreorder(a, b, c);
    }
  }

  // ----- and which it cannot -----

  /** Eighteen nines, and ten to the eighteenth. */
  const NINES: string := seq(18, i => '9')
  const ZEROS: string := seq(18, i => '0')
  const TEN_TO_18: string := ['1'] + ZEROS

  lemma {:induction false} AboveZeros(s: string, z: string)
    requires Digits(s) && |z| <= |s| && forall i | 0 <= i < |z| :: z[i] == '0'
    ensures CompareText(s, z) >= 0
  {
    if z != "" {
      AboveZeros(s[1..], z[1..]);
    }
  }

  lemma {:induction false} ZerosValue(s: string)
    requires forall i | 0 <= i < |s| :: s[i] == '0'
    ensures Digits(s) && Value(s) == 0
  {
    if s != "" {
      ZerosValue(s[..|s| - 1]);
    }
  }

  lemma Witnesses()
    ensures Component(NINES) && !LeadingZero(NINES) && Value(NINES) == 999_999_999_999_999_999 && AllNines(NINES)
    ensures Component(TEN_TO_18) && !LeadingZero(TEN_TO_18) && Value(TEN_TO_18) == 1_000_000_000_000_000_000
  {
    Powers();
    NinesValue(NINES);
    ZerosValue(ZEROS);
    assert TEN_TO_18[1..] == ZEROS;
    ValueHead(TEN_TO_18);
  }

  lemma AboveTenTo18(x: string)
    requires Component(x) && !LeadingZero(x) && !Fits(x)
    ensures CompareText(x, TEN_TO_18) == 1
  {
    Witnesses();
    FitsLength(x);
    assert TEN_TO_18[1..] == ZEROS;
    AboveZeros(x[1..], ZEROS);
    TextSign(x, TEN_TO_18);
  }

  /** Any other component makes a cycle with two that fit: x is below eighteen nines,
      they are below ten to the eighteenth, and that is below x. */
  lemma DisorderlyMakesACycle(x: string)
    requires Component(x) && !Orderly(x)
    ensures CompareNumber(x, NINES) == -1 && CompareNumber(NINES, TEN_TO_18) == -1 && CompareNumber(x, TEN_TO_18) == 1
  {
    Witnesses();
    FitsLength(x);
    assert NINES[..18] == NINES;
    BelowNines(x, NINES, 18);
    AboveTenTo18(x);
  }

  lemma OrderlyIsEnough(x: string, y: string, z: string)
    requires Component(x) && Component(y) && Fits(y) && Component(z) && Fits(z) && Orderly(x)
    ensures Consistent(CompareNumber(x, y), CompareNumber(y, z), CompareNumber(x, z))
  {
    NumberPreorder();
    assert Usable(x) && Usable(y) && Usable(z);
  }

  /** A component can be ordered together with everything that fits in 64 bits if and
      only if it is orderly. */
  lemma OrderlyIsExact(x: string)
    requires Component(x)
    ensures Orderly(x) <==>
              forall y, z | Component(y) && Fits(y) && Component(z) && Fits(z) ::
                Consistent(CompareNumber(x, y), CompareNumber(y, z), CompareNumber(x, z))
  {
    if Orderly(x) {
      forall y, z | Component(y) && Fits(y) && Component(z) && Fits(z)
        ensures Consistent(CompareNumber(x, y), CompareNumber(y, z), CompareNumber(x, z))
      {
        OrderlyIsEnough(x, y, z);
      }
    } else {
      Witnesses();
      DisorderlyMakesACycle(x);
      assert !Consistent(CompareNumber(x, NINES), CompareNumber(NINES, TEN_TO_18), CompareNumber(x, TEN_TO_18));
    }
  }

  // ----- whole versions -----

  function CompareSuffix(a: Suffix, b: Suffix): int { Then(CompareInt(a.rank, b.rank), CompareInt(a.number, b.number)) }

  function CompareRevision(l: Version, r: Version): int {
    if l.hasRevision != r.hasRevision then (if r.hasRevision then -1 else 1)
    else CompareInt(l.revision, r.revision)
  }

  const RELEASE := Suffix(0, 0)

  /** Dotted numbers with missing ones read as zero, the letter, the suffixes with a
      missing one read as the unsuffixed release, then the revision, none first. */
  function VersionOrder(l: Version, r: Version): int {
    Then(PadBy(CompareNumber, "0", l.numbers, r.numbers),
         Then(CompareText(l.letter, r.letter),
              Then(PadBy(CompareSuffix, RELEASE, l.suffixes, r.suffixes), CompareRevision(l, r))))
  }

  predicate Orderable(v: Version) { forall i | 0 <= i < |v.numbers| :: Usable(v.numbers[i]) }

  method CompareNumbers(left: seq<string>, right: seq<string>) returns (order: int)
    ensures order == PadBy(CompareNumber, "0", left, right)
  {
    ghost var goal := PadBy(CompareNumber, "0", left, right);
    PadFromStart(CompareNumber, "0", left, right);
    var index := 0;
    while index < |left| || index < |right|
      invariant goal == PadFrom(CompareNumber, "0", left, right, index)
      decreases |left| + |right| - index
    {
      order := CompareNumber(At(left, index, "0"), At(right, index, "0"));
      if order != 0 {
        return;
      }
      index := index + 1;
    }
    order := 0;
  }

  method CompareSuffixes(left: seq<Suffix>, right: seq<Suffix>) returns (order: int)
    ensures order == PadBy(CompareSuffix, RELEASE, left, right)
  {
    ghost var goal := PadBy(CompareSuffix, RELEASE, left, right);
    PadFromStart(CompareSuffix, RELEASE, left, right);
    var index := 0;
    while index < |left| || index < |right|
      invariant goal == PadFrom(CompareSuffix, RELEASE, left, right, index)
      decreases |left| + |right| - index
    {
      var l, r := At(left, index, RELEASE), At(right, index, RELEASE);
      if l.rank != r.rank {
        return if l.rank < r.rank then -1 else 1;
      }
      if l.number != r.number {
        return if l.number < r.number then -1 else 1;
      }
      index := index + 1;
    }
    order := 0;
  }

  /** compare */
  method Compare(left: Version, right: Version) returns (order: int)
    ensures order == VersionOrder(left, right)
  {
    order := CompareNumbers(left.numbers, right.numbers);
    if order != 0 {
      return;
    }
    order := CompareText(left.letter, right.letter);
    if order != 0 {
      return;
    }
    order := CompareSuffixes(left.suffixes, right.suffixes);
    if order != 0 {
      return;
    }
    order := CompareRevision(left, right);
  }

  lemma NumbersPreorder(a: seq<string>, b: seq<string>, c: seq<string>)
    requires forall i | 0 <= i < |a| :: Usable(a[i])
    requires forall i | 0 <= i < |b| :: Usable(b[i])
    requires forall i | 0 <= i < |c| :: Usable(c[i])
    ensures PadBy(CompareNumber, "0", a, b) == -PadBy(CompareNumber, "0", b, a)
    ensures Consistent(PadBy(CompareNumber, "0", a, b), PadBy(CompareNumber, "0", b, c), PadBy(CompareNumber, "0", a, c))
  {
    NumberPreorder();
    assert Usable("0");
    PadAnti(CompareNumber, Usable, "0", a, b);
    PadTransitive(CompareNumber, Usable, "0", a, b, c);
  }

  lemma SuffixesPreorder(a: seq<Suffix>, b: seq<Suffix>, c: seq<Suffix>)
    ensures PadBy(CompareSuffix, RELEASE, a, b) == -PadBy(CompareSuffix, RELEASE, b, a)
    ensures Consistent(PadBy(CompareSuffix, RELEASE, a, b), PadBy(CompareSuffix, RELEASE, b, c),
                       PadBy(CompareSuffix, RELEASE, a, c))
  {
    var any := (s: Suffix) => true;
    PadAnti(CompareSuffix, any, RELEASE, a, b);
    PadTransitive(CompareSuffix, any, RELEASE, a, b, c);
  }

  /** On versions of orderly components the order is total and transitive. */
  lemma VersionPreorder(a: Version, b: Version, c: Version)
    requires Orderable(a) && Orderable(b) && Orderable(c)
    ensures VersionOrder(a, b) == -VersionOrder(b, a)
    ensures Consistent(VersionOrder(a, b), VersionOrder(b, c), VersionOrder(a, c))
  {
    NumbersPreorder(a.numbers, b.numbers, c.numbers);
    TextPreorder(a.letter, b.letter, c.letter);
    SuffixesPreorder(a.suffixes, b.suffixes, c.suffixes);
  }
}
