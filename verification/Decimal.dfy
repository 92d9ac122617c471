/** Numbers written in decimal digits, of any length. */
module Decimal {
  import opened Orders

  predicate IsDigit(c: char) { '0' <= c <= '9' }

  predicate Digits(s: string) { forall i | 0 <= i < |s| :: IsDigit(s[i]) }

  function DigitValue(c: char): (v: int)
    ensures IsDigit(c) ==> 0 <= v <= 9
  {
    c as int - '0' as int
  }

  /** The number a digit string denotes; the empty string denotes zero. */
  function Value(s: string): (v: int)
    ensures Digits(s) ==> v >= 0
  {
    if s == "" then 0 else 10 * Value(s[..|s| - 1]) + DigitValue(s[|s| - 1])
  }

  function Pow10(n: nat): (p: nat)
    ensures p > 0
  {
    if n == 0 then 1 else 10 * Pow10(n - 1)
  }

  /** strings.TrimLeft(s, "0") */
  function TrimZeros(s: string): (t: string)
    ensures |t| <= |s| && (t == "" || t[0] != '0')
    ensures Digits(s) ==> Digits(t)
  {
    if s != "" && s[0] == '0' then TrimZeros(s[1..]) else s
  }

  /** compareNumeric and compareNumericString: shorter first, then as text. */
  function CompareNumeric(left: string, right: string): int {
    var l, r := TrimZeros(left), TrimZeros(right);
    if |l| < |r| then -1 else if |l| > |r| then 1 else CompareText(l, r)
  }

  lemma {:induction false} ShiftDigit(d: int, p: int, rest: int, last: int)
    ensures 10 * (d * p + rest) + last == d * (10 * p) + (10 * rest + last)
  {
  }

  lemma {:induction false} ValueHead(s: string)
    requires Digits(s) && s != ""
    ensures Value(s) == DigitValue(s[0]) * Pow10(|s| - 1) + Value(s[1..])
  {
    if |s| > 1 {
      var n := |s| - 1;
      var front, last := s[..n], DigitValue(s[n]);
      ValueHead(front);
      assert s[1..][..n - 1] == front[1..] && s[1..][n - 1] == s[n];
      ShiftDigit(DigitValue(s[0]), Pow10(n - 1), Value(front[1..]), last);
    } else {
      assert s[..0] == "" && s[1..] == "";
    }
  }

  lemma {:induction false} ValueTrim(s: string)
    requires Digits(s)
    ensures Value(TrimZeros(s)) == Value(s)
  {
    if s != "" && s[0] == '0' {
      ValueHead(s);
      ValueTrim(s[1..]);
    }
  }

  lemma {:induction false} ValueBound(s: string)
    requires Digits(s)
    ensures Value(s) < Pow10(|s|)
  {
    if s != "" {
      ValueBound(s[..|s| - 1]);
    }
  }

  lemma {:induction false} Pow10Monotone(m: nat, n: nat)
    requires m <= n
    ensures Pow10(m) <= Pow10(n)
  {
    if m < n {
      Pow10Monotone(m, n - 1);
    }
  }

  lemma MulGap(d: nat, e: nat, p: nat)
    requires d < e
    ensures d * p + p <= e * p
  {
    var gap := e - d - 1;
    assert e * p == d * p + p + gap * p;
  }

  lemma ValueAtLeast(s: string)
    requires Digits(s) && s != "" && s[0] != '0'
    ensures Pow10(|s| - 1) <= Value(s)
  {
    ValueHead(s);
    MulGap(0, DigitValue(s[0]), Pow10(|s| - 1));
  }

  /** A number with more digits, and no leading zero, is the larger one. */
  lemma LongerIsLarger(l: string, r: string)
    requires Digits(l) && Digits(r) && |l| < |r| && r[0] != '0'
    ensures Value(l) < Value(r)
  {
    ValueBound(l);
    Pow10Monotone(|l|, |r| - 1);
    ValueAtLeast(r);
  }

  /** Digits of different value in front decide, whatever follows. */
  lemma HeadDecides(l: string, r: string)
    requires Digits(l) && Digits(r) && |l| == |r| && l != "" && l[0] < r[0]
    ensures Value(l) < Value(r)
  {
    ValueHead(l);
    ValueHead(r);
    ValueBound(l[1..]);
    MulGap(DigitValue(l[0]), DigitValue(r[0]), Pow10(|l| - 1));
  }

  lemma {:induction false} SameLengthText(l: string, r: string)
    requires Digits(l) && Digits(r) && |l| == |r|
    ensures CompareText(l, r) == Sign(Value(l) - Value(r))
  {
    if l != "" {
      if l[0] < r[0] {
        HeadDecides(l, r);
      } else if r[0] < l[0] {
        HeadDecides(r, l);
      } else {
        SameLengthText(l[1..], r[1..]);
        ValueHead(l);
        ValueHead(r);
      }
    }
  }

  lemma {:induction false} WithoutZeros(l: string, r: string)
    requires Digits(l) && Digits(r) && (l == "" || l[0] != '0') && (r == "" || r[0] != '0')
    ensures (if |l| < |r| then -1 else if |l| > |r| then 1 else CompareText(l, r)) == Sign(Value(l) - Value(r))
  {
    if |l| < |r| {
      LongerIsLarger(l, r);
    } else if |r| < |l| {
      LongerIsLarger(r, l);
    } else {
      SameLengthText(l, r);
    }
  }

  /** Comparing digit strings is comparing the numbers they denote. */
  lemma {:induction false} CompareNumericIsNatural(left: string, right: string)
    requires Digits(left) && Digits(right)
    ensures CompareNumeric(left, right) == Sign(Value(left) - Value(right))
  {
    ValueTrim(left);
    ValueTrim(right);
    WithoutZeros(TrimZeros(left), TrimZeros(right));
  }

  /** strconv.FormatInt of a natural number */
  function Format(n: nat): (s: string)
    ensures s != "" && Digits(s)
  {
    if n < 10 then [('0' as int + n) as char] else Format(n / 10) + [('0' as int + n % 10) as char]
  }

  /** Reading a printed number gives it back. */
  lemma {:induction false} ValueFormat(n: nat)
    ensures Value(Format(n)) == n
  {
    var s := Format(n);
    if n < 10 {
      assert s[..0] == "";
    } else {
      ValueFormat(n / 10);
      assert s[..|s| - 1] == Format(n / 10);
    }
  }
}
