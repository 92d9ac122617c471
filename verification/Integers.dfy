/** Signed decimal numbers, as strconv prints and reads them. */
module Integers {
  import opened Wrappers
  import opened Decimal

  function FormatInt(n: int): (s: string)
    ensures s != "" && forall i | 0 <= i < |s| :: s[i] == '-' || IsDigit(s[i])
  {
    if n < 0 then "-" + Format(-n) else Format(n)
  }

  datatype NumberError = Syntax | Range

  /** strconv.ParseUint: digit by digit, refused at the first character that is no digit
      or takes the number past `most`. */
  function Scan(s: string, n: int, most: int): (r: Result<int, NumberError>)
    ensures n >= 0 && r.Ok? ==> r.value >= 0
  {
    if s == "" then Ok(n)
    else if !IsDigit(s[0]) then Err(Syntax)
    else
      var next := 10 * n + DigitValue(s[0]);
      if next > most then Err(Range) else Scan(s[1..], next, most)
  }

  /** What strconv.ParseInt returns: a value even when it reports an error. */
  datatype Parsed = Parsed(value: int, error: Option<NumberError>)

  function Pow2(n: nat): (p: int)
    ensures p > 0
  {
    if n == 0 then 1 else 2 * Pow2(n - 1)
  }

  lemma {:induction false} Pow2Byte(n: nat)
    ensures Pow2(n + 8) == 256 * Pow2(n)
  {
    assert Pow2(n + 2) == 4 * Pow2(n);
    assert Pow2(n + 4) == 4 * Pow2(n + 2);
    assert Pow2(n + 6) == 4 * Pow2(n + 4);
    assert Pow2(n + 8) == 4 * Pow2(n + 6);
  }

  lemma {:induction false} WordSizes()
    ensures Pow2(31) == 0x8000_0000 && Pow2(63) == 0x8000_0000_0000_0000
  {
    assert Pow2(7) == 128;
    Pow2Byte(7); Pow2Byte(15); Pow2Byte(23); Pow2Byte(31); Pow2Byte(39); Pow2Byte(47); Pow2Byte(55);
  }

  predicate Fits(n: int, bits: nat)
    requires bits > 0
  {
    -Pow2(bits - 1) <= n < Pow2(bits - 1)
  }

  function Unsigned(s: string, bits: nat): (r: Result<int, NumberError>)
    ensures r.Ok? ==> r.value >= 0
  {
    if s == "" then Err(Syntax) else Scan(s, 0, Pow2(bits) - 1)
  }

  /** strconv.ParseInt(s, 10, bits) */
  function ParseInt(s: string, bits: nat): (p: Parsed)
    requires bits > 0
    ensures Fits(p.value, bits)
  {
    var limit := Pow2(bits - 1);
    var negative := s != "" && s[0] == '-';
    var digits := if s != "" && (s[0] == '-' || s[0] == '+') then s[1..] else s;
    match Unsigned(digits, bits)
    case Err(Syntax) => Parsed(0, Some(Syntax))
    case Err(Range) => Parsed(if negative then -limit else limit - 1, Some(Range))
    case Ok(n) =>
      if !negative && n >= limit then Parsed(limit - 1, Some(Range))
      else if negative && n > limit then Parsed(-limit, Some(Range))
      else Parsed(if negative then -n else n, None)
  }

  lemma {:induction false} PrefixValue(s: string, i: nat)
    requires Digits(s) && i <= |s|
    ensures Value(s[..i]) <= Value(s)
  {
    if i == |s| {
      assert s[..i] == s;
    } else {
      var front := s[..|s| - 1];
      assert front[..i] == s[..i];
      PrefixValue(front, i);
    }
  }

  lemma {:induction false} ScanDigits(s: string, i: nat, most: int)
    requires Digits(s) && i <= |s| && Value(s) <= most
    ensures Scan(s[i..], Value(s[..i]), most) == Ok(Value(s))
    decreases |s| - i
  {
    if i == |s| {
      assert s[..i] == s;
    } else {
      assert s[..i + 1][..i] == s[..i] && s[i..][1..] == s[i + 1..];
      PrefixValue(s, i + 1);
      ScanDigits(s, i + 1, most);
    }
  }

  lemma {:induction false} UnsignedFormat(n: nat, bits: nat)
    requires n < Pow2(bits)
    ensures Unsigned(Format(n), bits) == Ok(n)
  {
    ValueFormat(n);
    ScanDigits(Format(n), 0, Pow2(bits) - 1);
    assert Format(n)[0..] == Format(n) && Format(n)[..0] == "";
  }

  /** Reading a printed number gives it back, for every number of that width. */
  lemma {:induction false} ParseFormatInt(n: int, bits: nat)
    requires bits > 0 && Fits(n, bits)
    ensures ParseInt(FormatInt(n), bits) == Parsed(n, None)
  {
    var m := if n < 0 then -n else n;
    UnsignedFormat(m, bits);
    assert IsDigit(Format(m)[0]);
    if n < 0 {
      assert FormatInt(n)[1..] == Format(m);
    }
  }
}
