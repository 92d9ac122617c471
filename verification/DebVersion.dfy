/** Debian version order (formats/deb/version.go). */
module DebVersion {
  import opened Wrappers
  import opened Orders
  import opened Decimal

  predicate IsLetter(c: char) { 'a' <= c <= 'z' || 'A' <= c <= 'Z' }

  predicate IsVersionChar(c: char) { IsLetter(c) || IsDigit(c) || c in ".:+~-" }

  predicate VersionChars(s: string) { forall i | 0 <= i < |s| :: IsVersionChar(s[i]) }

  /** strings.IndexByte, with the length of s for "absent". */
  function IndexOf(s: string, c: char): (i: nat)
    ensures i <= |s| && (i < |s| ==> s[i] == c) && c !in s[..i]
  {
    if s == "" || s[0] == c then 0 else 1 + IndexOf(s[1..], c)
  }

  /** strings.LastIndexByte, with the length of s for "absent". */
  function LastIndexOf(s: string, c: char): (i: nat)
    ensures i <= |s| && (i < |s| ==> s[i] == c && c !in s[i + 1..]) && (i == |s| ==> c !in s)
  {
    if s == "" then 0
    else
      var n := |s| - 1;
      if s[n] == c then n
      else
        var i := LastIndexOf(s[..n], c);
        assert s == s[..n] + [s[n]];
        if i == n then |s| else assert s[i + 1..] == s[..n][i + 1..] + [s[n]]; i
  }

  datatype Version = Version(epoch: string, upstream: string, revision: string)

  function TrimPlus(s: string): string { if s != "" && s[0] == '+' then s[1..] else s }

  function EpochOf(version: string): string {
    var colon := IndexOf(version, ':');
    if colon < |version| then TrimPlus(version[..colon]) else "0"
  }

  function AfterEpoch(version: string): string {
    var colon := IndexOf(version, ':');
    if colon < |version| then version[colon + 1..] else version
  }

  /** splitVersion */
  function SplitVersion(version: string): Version {
    var rest := AfterEpoch(version);
    var dash := LastIndexOf(rest, '-');
    if dash < |rest| then Version(EpochOf(version), rest[..dash], rest[dash + 1..]) else Version(EpochOf(version), rest, "0")
  }

  /** validVersion (formats/deb/inspect.go) */
  predicate ValidVersion(version: string) {
    && version != "" && (forall c | c in version :: c !in "\0\r\n \t/\\")
    && var epoch, rest := EpochOf(version), AfterEpoch(version);
       var dash := LastIndexOf(rest, '-');
       && epoch != "" && Digits(epoch) && Value(epoch) < 0x1_0000_0000_0000_0000
       && rest != "" && IsDigit(rest[0]) && rest[|rest| - 1] != '-'
       && (dash < |rest| ==> ':' !in rest[dash + 1..])
       && VersionChars(rest)
  }

  // ----- comparing one part -----

  /** versionOrder, on the characters of a version */
  function Order(c: char): (r: int)
    ensures IsVersionChar(c) ==> (r == 0 <==> IsDigit(c))
  {
    if c == '~' then -1 else if IsDigit(c) then 0 else if IsLetter(c) then c as int else c as int + 256
  }

  /** versionOrder(firstByte(s)) */
  function FirstOrder(s: string): int { if s == "" then 0 else Order(s[0]) }

  predicate TextFirst(s: string) { s != "" && !IsDigit(s[0]) }

  /** A part splits into leading text, the digits after it, and the rest. */
  function AfterText(s: string): (r: string)
    ensures |r| <= |s| && !TextFirst(r) && (TextFirst(s) ==> |r| < |s|)
  {
    if TextFirst(s) then AfterText(s[1..]) else s
  }

  function DigitsOf(s: string): (d: string)
    ensures Digits(d)
  {
    if s != "" && IsDigit(s[0]) then [s[0]] + DigitsOf(s[1..]) else ""
  }

  function AfterDigits(s: string): (r: string)
    ensures |r| <= |s| && (s != "" && !TextFirst(s) ==> |r| < |s|)
  {
    if s != "" && IsDigit(s[0]) then AfterDigits(s[1..]) else s
  }

  /** Which of two different signs comes first, `None` being the end of the text: the tilde, then
      the end, then the letters, then everything else, and each of these by its code. */
  predicate Before(a: Option<char>, b: Option<char>) {
    if a == Some('~') || b == Some('~') then b != Some('~')
    else if a.None? || b.None? then b.Some?
    else if IsLetter(a.value) != IsLetter(b.value) then IsLetter(a.value)
    else a.value < b.value
  }

  function CompareSigns(a: Option<char>, b: Option<char>): int {
    if Before(a, b) then -1 else if Before(b, a) then 1 else 0
  }

  /** The text of a part, whose end is a sign of its own. */
  datatype Text = Nil | Cons(first: char, rest: Text) {
    function Head(): Option<char> { if Nil? then None else Some(first) }

    function Tail(): Text { if Nil? then Nil else rest }
  }

  function CompareTexts(a: Text, b: Text): int
    decreases a, b
  {
    if a.Nil? && b.Nil? then 0 else Then(CompareSigns(a.Head(), b.Head()), CompareTexts(a.Tail(), b.Tail()))
  }

  /** The leading text. */
  function TextOf(s: string): Text {
    if TextFirst(s) then Cons(s[0], TextOf(s[1..])) else Nil
  }

  /** versionOrder numbers the signs as policy orders them. */
  lemma {:induction false} OrderIsPolicy(l: string, r: string)
    requires VersionChars(l) && VersionChars(r)
    ensures Sign(FirstOrder(l) - FirstOrder(r)) == CompareSigns(TextOf(l).Head(), TextOf(r).Head())
  {
  }

  /** A version part as text, number, text, number and so on. */
  datatype Parts = Done | Part(text: Text, number: int, rest: Parts) {
    function Leading(): Text { if Done? then Nil else text }

    function Number(): int { if Done? then 0 else number }

    function Rest(): Parts { if Done? then Done else rest }
  }

  function PartsOf(s: string): Parts
    decreases |s|
  {
    if s == "" then Done
    else
      var numbered := AfterText(s);
      Part(TextOf(s), Value(DigitsOf(numbered)), PartsOf(AfterDigits(numbered)))
  }

  function CompareParts(a: Parts, b: Parts): int
    decreases a, b
  {
    if a.Done? && b.Done? then 0
    else
      Then(CompareTexts(a.Leading(), b.Leading()), Then(Sign(a.Number() - b.Number()), CompareParts(a.Rest(), b.Rest())))
  }

  /** Section 5.6.12 of the Debian Policy Manual: compare the leading text, where the end
      of the text is below every sign but a tilde, and letters are below the rest; then the
      leading digits as numbers, no digits counting as zero; and so on with the rest. */
  function PolicyCompare(left: string, right: string): int { CompareParts(PartsOf(left), PartsOf(right)) }

  lemma {:induction false} DigitsSpan(value: string, n: nat)
    requires n <= |value| && (forall k | 0 <= k < n :: IsDigit(value[k])) && (n < |value| ==> !IsDigit(value[n]))
    ensures DigitsOf(value) == value[..n] && AfterDigits(value) == value[n..]
  {
    if n == 0 {
      assert value[..0] == "" && value[0..] == value;
    } else {
      DigitsSpan(value[1..], n - 1);
      assert value[..n] == [value[0]] + value[1..][..n - 1] && value[n..] == value[1..][n - 1..];
    }
  }

  method TakeDigits(value: string) returns (digits: string, rest: string)
    ensures digits == DigitsOf(value) && rest == AfterDigits(value)
  {
    var index := 0;
    while index < |value| && IsDigit(value[index])
      invariant index <= |value|
      invariant forall k | 0 <= k < index :: IsDigit(value[k])
    {
      index := index + 1;
    }
    DigitsSpan(value, index);
    return value[..index], value[index..];
  }

  /** The text loop of compareVersionPart: a difference decides, or both texts are spent. */
  method CompareLeadingText(left: string, right: string) returns (order: int, l: string, r: string)
    requires VersionChars(left) && VersionChars(right)
    ensures order == CompareTexts(TextOf(left), TextOf(right))
    ensures order == 0 ==> l == AfterText(left) && r == AfterText(right) && VersionChars(l) && VersionChars(r)
  {
    l, r := left, right;
    ghost var goal := CompareTexts(TextOf(left), TextOf(right));
    while TextFirst(l) || TextFirst(r)
      invariant VersionChars(l) && VersionChars(r)
      invariant AfterText(l) == AfterText(left) && AfterText(r) == AfterText(right)
      invariant CompareTexts(TextOf(l), TextOf(r)) == goal
      decreases |l| + |r|
    {
      OrderIsPolicy(l, r);
      if FirstOrder(l) < FirstOrder(r) {
        return -1, l, r;
      }
      if FirstOrder(l) > FirstOrder(r) {
        return 1, l, r;
      }
      if TextFirst(l) {
        l := l[1..];
      }
      if TextFirst(r) {
        r := r[1..];
      }
    }
    order := 0;
  }

  lemma {:induction false} VersionCharsAfter(s: string)
    requires VersionChars(s)
    ensures VersionChars(AfterDigits(s))
  {
    if s != "" && IsDigit(s[0]) {
      VersionCharsAfter(s[1..]);
    }
  }

  /** The number step of compareVersionPart. */
  method CompareLeadingDigits(left: string, right: string) returns (order: int, l: string, r: string)
    requires VersionChars(left) && VersionChars(right)
    ensures order == Sign(Value(DigitsOf(left)) - Value(DigitsOf(right)))
    ensures l == AfterDigits(left) && r == AfterDigits(right) && VersionChars(l) && VersionChars(r)
  {
    VersionCharsAfter(left);
    VersionCharsAfter(right);
    var leftDigits, rightDigits;
    leftDigits, l := TakeDigits(left);
    rightDigits, r := TakeDigits(right);
    CompareNumericIsNatural(leftDigits, rightDigits);
    order := CompareNumeric(leftDigits, rightDigits);
  }

  function Rest(s: string): string { AfterDigits(AfterText(s)) }

  lemma {:induction false} RestIsShorter(s: string)
    ensures |Rest(s)| <= |s| && (s != "" ==> |Rest(s)| < |s|)
  {
    if TextFirst(s) {
      assert |AfterText(s)| < |s|;
    }
  }

  lemma {:induction false} PartsUnfold(s: string)
    ensures PartsOf(s).Leading() == TextOf(s) && PartsOf(s).Number() == Value(DigitsOf(AfterText(s)))
    ensures PartsOf(s).Rest() == PartsOf(Rest(s))
  {
  }

  /** One turn of compareVersionPart. */
  lemma {:induction false} PolicyTurn(l: string, r: string)
    requires l != "" || r != ""
    ensures PolicyCompare(l, r) ==
              Then(CompareTexts(TextOf(l), TextOf(r)),
                   Then(Sign(Value(DigitsOf(AfterText(l))) - Value(DigitsOf(AfterText(r)))), PolicyCompare(Rest(l), Rest(r))))
  {
    PartsUnfold(l);
    PartsUnfold(r);
  }

  /** What the two comparisons of a turn mean for the whole. */
  lemma {:induction false} TurnMeans(left: string, right: string, text: int, number: int)
    requires left != "" || right != ""
    requires text == CompareTexts(TextOf(left), TextOf(right))
    requires text == 0 ==> number == Sign(Value(DigitsOf(AfterText(left))) - Value(DigitsOf(AfterText(right))))
    ensures text != 0 ==> PolicyCompare(left, right) == text
    ensures text == 0 && number != 0 ==> PolicyCompare(left, right) == number
    ensures text == 0 && number == 0 ==> PolicyCompare(left, right) == PolicyCompare(Rest(left), Rest(right))
    ensures |Rest(left)| + |Rest(right)| < |left| + |right|
  {
    PolicyTurn(left, right);
    RestIsShorter(left);
    RestIsShorter(right);
  }

  /** One turn of its loop: it decides, or leaves shorter parts that compare alike. */
  method CompareTurn(left: string, right: string) returns (order: int, l: string, r: string)
    requires VersionChars(left) && VersionChars(right) && (left != "" || right != "")
    ensures order != 0 ==> order == PolicyCompare(left, right)
    ensures order == 0 ==> PolicyCompare(l, r) == PolicyCompare(left, right) && VersionChars(l) && VersionChars(r)
    ensures order == 0 ==> |l| + |r| < |left| + |right|
  {
    var text;
    text, l, r := CompareLeadingText(left, right);
    if text != 0 {
      TurnMeans(left, right, text, 0);
      return text, l, r;
    }
    order, l, r := CompareLeadingDigits(l, r);
    TurnMeans(left, right, text, order);
  }

  /** compareVersionPart computes the policy's order. */
  method CompareVersionPart(left: string, right: string) returns (order: int)
    requires VersionChars(left) && VersionChars(right)
    ensures order == PolicyCompare(left, right)
  {
    ghost var goal := PolicyCompare(left, right);
    var l, r := left, right;
    while l != "" || r != ""
      invariant VersionChars(l) && VersionChars(r)
      invariant goal == PolicyCompare(l, r)
      decreases |l| + |r|
    {
      order, l, r := CompareTurn(l, r);
      if order != 0 {
        return;
      }
    }
    order := 0;
  }

  // ----- whole versions -----

  predicate ValidSplit(v: Version) {
    Digits(v.epoch) && VersionChars(v.upstream) && VersionChars(v.revision)
  }

  /** Three comparisons, the first that is not even decides. */
  function InTurn(x: int, y: int, z: int): int { Then(x, Then(y, z)) }

  /** Epochs as numbers, then upstream version, then revision, an absent one reading as
      zero. */
  function SplitOrder(l: Version, r: Version): int {
    InTurn(Sign(Value(l.epoch) - Value(r.epoch)), PolicyCompare(l.upstream, r.upstream), PolicyCompare(l.revision, r.revision))
  }

  /** The order Policy gives to versions. */
  function VersionOrder(left: string, right: string): int {
    SplitOrder(SplitVersion(left), SplitVersion(right))
  }

  lemma ValidParts(version: string)
    requires ValidVersion(version)
    ensures ValidSplit(SplitVersion(version))
  {
  }

  method CompareEpochs(l: string, r: string) returns (order: int)
    requires Digits(l) && Digits(r)
    ensures order == Sign(Value(l) - Value(r))
  {
    CompareNumericIsNatural(l, r);
    order := CompareNumeric(l, r);
  }

  method CompareSplit(l: Version, r: Version) returns (order: int)
    requires ValidSplit(l) && ValidSplit(r)
    ensures order == SplitOrder(l, r)
  {
    ghost var upstream, revision := PolicyCompare(l.upstream, r.upstream), PolicyCompare(l.revision, r.revision);
    ghost var goal := InTurn(Sign(Value(l.epoch) - Value(r.epoch)), upstream, revision);
    order := CompareEpochs(l.epoch, r.epoch);
    if order == 0 {
      order := CompareVersionPart(l.upstream, r.upstream);
      if order == 0 {
        order := CompareVersionPart(l.revision, r.revision);
      }
    }
    assert order == goal;
  }

  /** CompareVersions */
  method CompareVersions(left: string, right: string) returns (r: Result<int, ()>)
    ensures r.Ok? <==> ValidVersion(left) && ValidVersion(right)
    ensures r.Ok? ==> r.value == VersionOrder(left, right)
  {
    if !ValidVersion(left) || !ValidVersion(right) {
      return Err(());
    }
    ValidParts(left);
    ValidParts(right);
    var order := CompareSplit(SplitVersion(left), SplitVersion(right));
    return Ok(order);
  }

  lemma {:induction false} SignsPreorder(a: Option<char>, b: Option<char>, c: Option<char>)
    ensures CompareSigns(a, b) == -CompareSigns(b, a)
    ensures Consistent(CompareSigns(a, b), CompareSigns(b, c), CompareSigns(a, c))
  {
  }

  lemma {:induction false} TextsPreorder(a: Text, b: Text, c: Text)
    ensures CompareTexts(a, b) == -CompareTexts(b, a)
    ensures Consistent(CompareTexts(a, b), CompareTexts(b, c), CompareTexts(a, c))
    decreases a, b, c
  {
    if a.Cons? || b.Cons? || c.Cons? {
      SignsPreorder(a.Head(), b.Head(), c.Head());
      TextsPreorder(a.Tail(), b.Tail(), c.Tail());
    }
  }

  lemma {:induction false} PartsPreorder(a: Parts, b: Parts, c: Parts)
    ensures CompareParts(a, b) == -CompareParts(b, a)
    ensures Consistent(CompareParts(a, b), CompareParts(b, c), CompareParts(a, c))
    decreases a, b, c
  {
    if a.Part? || b.Part? || c.Part? {
      var a', b', c' := a.Rest(), b.Rest(), c.Rest();
      PartsPreorder(a', b', c');
      TextsPreorder(a.Leading(), b.Leading(), c.Leading());
      InTurnPreorder(a.Leading(), b.Leading(), c.Leading(), a.Number(), b.Number(), c.Number(),
                     CompareParts(a', b'), CompareParts(b', a'), CompareParts(b', c'), CompareParts(a', c'));
    }
  }

  /** The order of one part is total and transitive, on every text. */
  lemma {:induction false} PolicyPreorder(a: string, b: string, c: string)
    ensures PolicyCompare(a, b) == -PolicyCompare(b, a)
    ensures Consistent(PolicyCompare(a, b), PolicyCompare(b, c), PolicyCompare(a, c))
  {
    PartsPreorder(PartsOf(a), PartsOf(b), PartsOf(c));
  }

  lemma {:induction false} ThenPreorder(ab: int, ba: int, bc: int, ac: int, ab': int, ba': int, bc': int, ac': int)
    requires ab == -ba && Consistent(ab, bc, ac) && ab' == -ba' && Consistent(ab', bc', ac')
    ensures Then(ab, ab') == -Then(ba, ba') && Consistent(Then(ab, ab'), Then(bc, bc'), Then(ac, ac'))
  {
  }

  lemma {:induction false} InTurnPreorder(a: Text, b: Text, c: Text, x: int, y: int, z: int, ab: int, ba: int, bc: int, ac: int)
    requires ab == -ba && Consistent(ab, bc, ac)
    ensures InTurn(CompareTexts(a, b), Sign(x - y), ab) == -InTurn(CompareTexts(b, a), Sign(y - x), ba)
    ensures Consistent(InTurn(CompareTexts(a, b), Sign(x - y), ab), InTurn(CompareTexts(b, c), Sign(y - z), bc),
                       InTurn(CompareTexts(a, c), Sign(x - z), ac))
  {
    TextsPreorder(a, b, c);
    ThenPreorder(Sign(x - y), Sign(y - x), Sign(y - z), Sign(x - z), ab, ba, bc, ac);
    ThenPreorder(CompareTexts(a, b), CompareTexts(b, a), CompareTexts(b, c), CompareTexts(a, c),
                 Then(Sign(x - y), ab), Then(Sign(y - x), ba), Then(Sign(y - z), bc), Then(Sign(x - z), ac));
  }

  lemma {:induction false} SplitPreorder(a: Version, b: Version, c: Version)
    ensures SplitOrder(a, b) == -SplitOrder(b, a)
    ensures Consistent(SplitOrder(a, b), SplitOrder(b, c), SplitOrder(a, c))
  {
    VersionsPreorder(Value(a.epoch), Value(b.epoch), Value(c.epoch), PartsOf(a.upstream), PartsOf(b.upstream), PartsOf(c.upstream),
                     PartsOf(a.revision), PartsOf(b.revision), PartsOf(c.revision));
  }

  lemma {:induction false} VersionsPreorder(i: int, j: int, k: int, a: Parts, b: Parts, c: Parts, x: Parts, y: Parts, z: Parts)
    ensures InTurn(Sign(i - j), CompareParts(a, b), CompareParts(x, y)) == -InTurn(Sign(j - i), CompareParts(b, a), CompareParts(y, x))
    ensures Consistent(InTurn(Sign(i - j), CompareParts(a, b), CompareParts(x, y)),
                       InTurn(Sign(j - k), CompareParts(b, c), CompareParts(y, z)),
                       InTurn(Sign(i - k), CompareParts(a, c), CompareParts(x, z)))
  {
    PartsPreorder(a, b, c);
    PartsPreorder(x, y, z);
    ThenPreorder(CompareParts(a, b), CompareParts(b, a), CompareParts(b, c), CompareParts(a, c),
                 CompareParts(x, y), CompareParts(y, x), CompareParts(y, z), CompareParts(x, z));
    ThenPreorder(Sign(i - j), Sign(j - i), Sign(j - k), Sign(i - k),
                 Then(CompareParts(a, b), CompareParts(x, y)), Then(CompareParts(b, a), CompareParts(y, x)),
                 Then(CompareParts(b, c), CompareParts(y, z)), Then(CompareParts(a, c), CompareParts(x, z)));
  }

  /** The order is total and transitive. */
  lemma {:induction false} VersionPreorder(a: string, b: string, c: string)
    ensures VersionOrder(a, b) == -VersionOrder(b, a)
    ensures Consistent(VersionOrder(a, b), VersionOrder(b, c), VersionOrder(a, c))
  {
    SplitPreorder(SplitVersion(a), SplitVersion(b), SplitVersion(c));
  }
}
