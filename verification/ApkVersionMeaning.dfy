/** What the Alpine version order says of versions as they are written (formats/apk/version.go). */
module ApkVersionMeaning {
  import opened Orders
  import opened Decimal
  import opened ApkVersion
  import opened ApkParse

  // ----- fractions -----

  /** The digits after the point, compared as fractions. */
  function CompareFractions(a: string, b: string): int { Sign(Value(a) * Pow10(|b|) - Value(b) * Pow10(|a|)) }

  lemma {:induction false} ZerosTrim(s: string)
    requires Digits(s)
    ensures TrimRightZeros(s) == "" <==> Value(s) == 0
  {
    if s != "" {
      ZerosTrim(s[..|s| - 1]);
    }
  }

  lemma {:induction false} TrimHead(s: string)
    requires s != ""
    ensures TrimRightZeros(s) ==
              if s[0] == '0' && TrimRightZeros(s[1..]) == "" then "" else [s[0]] + TrimRightZeros(s[1..])
  {
    var n := |s| - 1;
    if s[n] == '0' {
      if n == 0 {
        assert s == "0" && s[..0] == "";
      } else {
        TrimHead(s[..n]);
        assert s[..n][1..] == s[1..][..n - 1];
      }
    } else {
      assert s == [s[0]] + s[1..];
    }
  }

  /** A smaller first digit decides ... */
  lemma {:induction false} SmallerDigit(d: nat, e: nat, p: nat, q: nat, x: nat, y: nat)
    requires d < e && x < p && q > 0
    ensures (d * p + x) * (10 * q) < (e * q + y) * (10 * p)
  {
    calc {
      (d * p + x) * (10 * q);
      < { assert (p - x) * (10 * q) > 0; }
      (d * p + p) * (10 * q);
      == (d + 1) * p * (10 * q);
      <= { MulGap(d, e, p * (10 * q)); }
      e * (p * (10 * q));
      == e * q * (10 * p);
      <= { assert y * (10 * p) >= 0; }
      (e * q + y) * (10 * p);
    }
  }

  /** ... and the same one does not. */
  lemma {:induction false} SameDigit(d: int, p: int, q: int, x: int, y: int)
    ensures (d * p + x) * (10 * q) - (d * q + y) * (10 * p) == 10 * (x * q - y * p)
  {
  }

  lemma {:induction false} SmallerFirst(a: string, b: string)
    requires Digits(a) && Digits(b) && a != "" && b != "" && a[0] < b[0]
    ensures CompareFractions(a, b) == -1 && CompareFractions(b, a) == 1
  {
    ValueHead(a);
    ValueHead(b);
    ValueBound(a[1..]);
    SmallerDigit(DigitValue(a[0]), DigitValue(b[0]), Pow10(|a| - 1), Pow10(|b| - 1), Value(a[1..]), Value(b[1..]));
  }

  lemma {:induction false} SameFirst(a: string, b: string)
    requires Digits(a) && Digits(b) && a != "" && b != "" && a[0] == b[0]
    ensures CompareFractions(a, b) == CompareFractions(a[1..], b[1..])
  {
    ValueHead(a);
    ValueHead(b);
    SameDigit(DigitValue(a[0]), Pow10(|a| - 1), Pow10(|b| - 1), Value(a[1..]), Value(b[1..]));
  }

  lemma {:induction false} NoDigits(b: string)
    requires Digits(b)
    ensures CompareFractions("", b) == CompareText("", TrimRightZeros(b)) && CompareFractions(b, "") == CompareText(TrimRightZeros(b), "")
  {
    ZerosTrim(b);
    assert Pow10(0) == 1;
  }

  /** Comparing as text without trailing zeros is comparing as fractions. */
  lemma {:induction false} TextIsFraction(a: string, b: string)
    requires Digits(a) && Digits(b)
    ensures CompareText(TrimRightZeros(a), TrimRightZeros(b)) == CompareFractions(a, b)
  {
    if a == "" {
      NoDigits(b);
    } else if b == "" {
      NoDigits(a);
    } else {
      TrimHead(a);
      TrimHead(b);
      if a[0] < b[0] {
        SmallerFirst(a, b);
      } else if b[0] < a[0] {
        SmallerFirst(b, a);
      } else {
        SameFirst(a, b);
        TextIsFraction(a[1..], b[1..]);
      }
    }
  }

  /** Two components of which one starts with a zero are compared as decimal fractions, so that
      1.05 is below 1.1. */
  lemma {:induction false} LeadingZeroIsFraction(a: string, b: string)
    requires Component(a) && Component(b) && (LeadingZero(a) || LeadingZero(b))
    ensures CompareNumber(a, b) == CompareFractions(a, b)
  {
    TextIsFraction(a, b);
    if |a| == 1 && |b| == 1 {
      OneDigit(a);
      OneDigit(b);
      assert Pow10(1) == 10;
    }
  }

  // ----- suffixes and revisions -----

  lemma {:induction false} PaddedSame<T>(cmp: (T, T) -> int, zero: T, a: seq<T>, x: seq<T>, y: seq<T>)
    requires forall t | t in a :: cmp(t, t) == 0
    ensures PadBy(cmp, zero, a + x, a + y) == PadBy(cmp, zero, x, y)
  {
    if a == [] {
      assert a + x == x && a + y == y;
    } else {
      assert (a + x)[1..] == a[1..] + x && (a + y)[1..] == a[1..] + y;
      assert cmp(a[0], a[0]) == 0;
      PaddedSame(cmp, zero, a[1..], x, y);
    }
  }

  lemma {:induction false} NumbersAreEven(numbers: seq<string>)
    ensures PadBy(CompareNumber, "0", numbers, numbers) == 0
  {
    forall t | t in numbers ensures CompareNumber(t, t) == 0 {
      TextSign(t, t);
      TextSign(TrimRightZeros(t), TrimRightZeros(t));
    }
    PaddedSame(CompareNumber, "0", numbers, [], []);
    assert numbers + [] == numbers;
  }

  /** Versions that differ in their suffixes and revisions only. */
  lemma {:induction false} SuffixesDecide(v: Version, more: seq<Suffix>, less: seq<Suffix>)
    ensures var order := PadBy(CompareSuffix, RELEASE, more, less);
            order != 0 ==> VersionOrder(v.(suffixes := v.suffixes + more), v.(suffixes := v.suffixes + less)) == order
  {
    NumbersAreEven(v.numbers);
    TextSign(v.letter, v.letter);
    PaddedSame(CompareSuffix, RELEASE, v.suffixes, more, less);
  }

  const EARLIER := ["alpha", "beta", "pre", "rc"]
  const LATER := ["cvs", "svn", "git", "hg", "p"]

  /** The names in their order, around the release without a suffix. */
  lemma {:induction false} NamesInOrder()
    ensures forall i, j | 0 <= i < j < 4 :: EARLIER[i] in RANKS && EARLIER[j] in RANKS && RANKS[EARLIER[i]] < RANKS[EARLIER[j]] < 0
    ensures forall i, j | 0 <= i < j < 5 :: LATER[i] in RANKS && LATER[j] in RANKS && 0 < RANKS[LATER[i]] < RANKS[LATER[j]]
    ensures forall name | name in RANKS :: name in EARLIER || name in LATER
  {
    assert RANKS["alpha"] == -5 && RANKS["beta"] == -4 && RANKS["pre"] == -3 && RANKS["rc"] == -2;
    assert RANKS["cvs"] == 1 && RANKS["svn"] == 2 && RANKS["git"] == 3 && RANKS["hg"] == 4 && RANKS["p"] == 5;
  }

  lemma {:induction false} MeaningsAppend(marks: seq<Mark>, m: Mark)
    requires (forall i | 0 <= i < |marks| :: marks[i].Sound()) && m.Sound()
    ensures Meanings(marks + [m]) == Meanings(marks) + [m.Meaning()]
  {
    if marks == [] {
      assert marks + [m] == [m];
    } else {
      assert (marks + [m])[1..] == marks[1..] + [m];
      MeaningsAppend(marks[1..], m);
    }
  }

  lemma {:induction false} OneSuffix(s: Suffix)
    requires s.rank != 0
    ensures PadBy(CompareSuffix, RELEASE, [s], []) == Sign(s.rank)
  {
    assert PadBy(CompareSuffix, RELEASE, [s], []) == Then(CompareSuffix(s, RELEASE), PadBy(CompareSuffix, RELEASE, [], []));
  }

  lemma {:induction false} RankSign(name: string)
    requires name in RANKS
    ensures RANKS[name] != 0 && Sign(RANKS[name]) == if name in EARLIER then -1 else 1
  {
    NamesInOrder();
    assert EARLIER[3] == "rc" && LATER[0] == "cvs";
    if name in EARLIER {
      var i :| 0 <= i < 4 && EARLIER[i] == name;
      assert i == 3 || EARLIER[i] != EARLIER[3];
    } else {
      var i :| 0 <= i < 5 && LATER[i] == name;
      assert i == 0 || LATER[0] != LATER[i];
    }
  }

  lemma {:induction false} MarkAdded(w: Written, m: Mark)
    requires w.Sound() && m.Sound()
    ensures w.(marks := w.marks + [m]).Sound()
    ensures w.(marks := w.marks + [m]).Meaning() == w.Meaning().(suffixes := w.Meaning().suffixes + [m.Meaning()])
  {
    MeaningsAppend(w.marks, m);
  }

  /** A further suffix puts a version below what it had, or above it, by its name alone: a release
      candidate comes before its release and a patch after it. */
  lemma {:induction false} SuffixDecides(w: Written, m: Mark)
    requires w.Sound() && m.Sound()
    ensures w.(marks := w.marks + [m]).Sound()
    ensures VersionOrder(w.(marks := w.marks + [m]).Meaning(), w.Meaning()) == if m.name in EARLIER then -1 else 1
  {
    var v, s := w.Meaning(), m.Meaning();
    MarkAdded(w, m);
    RankSign(m.name);
    OneSuffix(s);
    SuffixesDecide(v, [s], []);
    assert v.suffixes + [] == v.suffixes;
    assert v.(suffixes := v.suffixes) == v;
  }

  lemma {:induction false} SuffixesAreEven(suffixes: seq<Suffix>)
    ensures PadBy(CompareSuffix, RELEASE, suffixes, suffixes) == 0
  {
    PaddedSame(CompareSuffix, RELEASE, suffixes, [], []);
    assert suffixes + [] == suffixes;
  }

  /** A version with a revision is above the same version without one, even revision zero; two
      revisions compare by their numbers. */
  lemma {:induction false} RevisionDecides(v: Version, w: Version)
    requires v.numbers == w.numbers && v.letter == w.letter && v.suffixes == w.suffixes
    ensures !v.hasRevision && w.hasRevision ==> VersionOrder(v, w) == -1 && VersionOrder(w, v) == 1
    ensures v.hasRevision == w.hasRevision ==> VersionOrder(v, w) == Sign(v.revision - w.revision)
  {
    NumbersAreEven(v.numbers);
    TextSign(v.letter, v.letter);
    SuffixesAreEven(v.suffixes);
  }
}
