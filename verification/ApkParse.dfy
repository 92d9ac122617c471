/** Alpine versions as text (parseVersion in formats/apk/version.go): which texts are versions,
    and what they mean. */
module ApkParse {
  import opened Wrappers
  import opened Decimal
  import opened Splitting
  import Integers
  import opened ApkVersion

  /** suffixRank */
  const RANKS: map<string, int> := map[
    "alpha" := -5, "beta" := -4, "pre" := -3, "rc" := -2, "cvs" := 1, "svn" := 2, "git" := 3, "hg" := 4, "p" := 5]

  // ----- parsing -----

  /** strings.LastIndex(s, "-r"), with the length of s for "absent" */
  function LastRevision(s: string): (i: nat)
    ensures i <= |s| && (i < |s| ==> i + 2 <= |s| && s[i] == '-' && s[i + 1] == 'r')
  {
    if |s| < 2 then |s|
    else
      var i := LastRevision(s[1..]);
      if i < |s| - 1 then i + 1 else if s[0] == '-' && s[1] == 'r' then 0 else |s|
  }

  /** strings.IndexByte(s, '_'), likewise */
  function Underscore(s: string): (i: nat)
    ensures i <= |s| && (i < |s| ==> s[i] == '_') && '_' !in s[..i]
  {
    if s == "" || s[0] == '_' then 0 else 1 + Underscore(s[1..])
  }

  /** strings.TrimRight(s, "0123456789") */
  function TrimDigits(s: string): (t: string)
    ensures t <= s && Digits(s[|t|..]) && (t == "" || !IsDigit(t[|t| - 1]))
  {
    if s != "" && IsDigit(s[|s| - 1]) then
      var t := TrimDigits(s[..|s| - 1]);
      assert s[|t|..] == s[..|s| - 1][|t|..] + [s[|s| - 1]];
      t
    else s
  }

  /** A suffix: a known name, and a number that may be missing. */
  function ParseSuffix(part: string): Option<Suffix> {
    var name := TrimDigits(part);
    var digits := part[|name|..];
    if name !in RANKS then None
    else if digits == "" then Some(Suffix(RANKS[name], 0))
    else
      var number := Integers.ParseInt(digits, 64);
      if number.error.Some? then None else Some(Suffix(RANKS[name], number.value))
  }

  function ParseSuffixes(parts: seq<string>): Option<seq<Suffix>> {
    if parts == [] then Some([])
    else
      var first, rest := ParseSuffix(parts[0]), ParseSuffixes(parts[1..]);
      if first.None? then None else After([first.value], rest)
  }

  /** Suffixes after those already read. */
  function After(read: seq<Suffix>, rest: Option<seq<Suffix>>): Option<seq<Suffix>> {
    if rest.None? then None else Some(read + rest.value)
  }

  lemma {:induction false} AfterOneMore(read: seq<Suffix>, s: Suffix, rest: Option<seq<Suffix>>)
    ensures After(read, After([s], rest)) == After(read + [s], rest)
  {
    if rest.Some? {
      assert read + ([s] + rest.value) == (read + [s]) + rest.value;
    }
  }

  predicate IsLower(c: char) { 'a' <= c <= 'z' }

  /** What is before the suffixes: dotted numbers and a letter. */
  function ParseNumbers(s: string, suffixes: seq<Suffix>, revision: int, hasRevision: bool): Option<Version> {
    var lettered := s != "" && IsLower(s[|s| - 1]);
    var letter := if lettered then s[|s| - 1..] else "";
    var rest := if lettered then s[..|s| - 1] else s;
    var numbers := SplitBy(rest, '.');
    if rest == "" || exists n | n in numbers :: !Component(n) then None
    else Some(Version(numbers, letter, suffixes, revision, hasRevision))
  }

  /** What is before the revision. */
  function ParseBody(s: string, revision: int, hasRevision: bool): Option<Version> {
    var i := Underscore(s);
    if '-' in s then None
    else if i == |s| then ParseNumbers(s, [], revision, hasRevision)
    else
      var suffixes := ParseSuffixes(SplitBy(s[i + 1..], '_'));
      if suffixes.None? then None else ParseNumbers(s[..i], suffixes.value, revision, hasRevision)
  }

  /** parseVersion */
  function ParseVersion(value: string): Option<Version> {
    var i := LastRevision(value);
    if value == "" then None
    else if i == |value| then ParseBody(value, 0, false)
    else
      var revision := Integers.ParseInt(value[i + 2..], 64);
      if revision.error.Some? || revision.value < 0 then None else ParseBody(value[..i], revision.value, true)
  }

  /** The loop over the suffixes. */
  method ReadSuffixes(parts: seq<string>) returns (r: Option<seq<Suffix>>)
    ensures r == ParseSuffixes(parts)
  {
    var suffixes: seq<Suffix> := [];
    ghost var goal := ParseSuffixes(parts);
    assert parts[0..] == parts;
    assert goal.Some? ==> [] + goal.value == goal.value;
    for i := 0 to |parts|
      invariant goal == After(suffixes, ParseSuffixes(parts[i..]))
    {
      assert parts[i..][0] == parts[i] && parts[i..][1..] == parts[i + 1..];
      var suffix := ParseSuffix(parts[i]);
      if suffix.None? {
        return None;
      }
      AfterOneMore(suffixes, suffix.value, ParseSuffixes(parts[i + 1..]));
      suffixes := suffixes + [suffix.value];
    }
    assert suffixes + [] == suffixes;
    return Some(suffixes);
  }

  /** The loop over the dotted numbers. */
  method AllComponents(numbers: seq<string>) returns (ok: bool)
    ensures ok <==> !exists n | n in numbers :: !Component(n)
  {
    for i := 0 to |numbers|
      invariant forall k | 0 <= k < i :: Component(numbers[k])
    {
      if !Component(numbers[i]) {
        return false;
      }
    }
    return true;
  }

  method ReadNumbers(s: string, suffixes: seq<Suffix>, revision: int, hasRevision: bool) returns (r: Option<Version>)
    ensures r == ParseNumbers(s, suffixes, revision, hasRevision)
  {
    var letter, rest := "", s;
    if s != "" && IsLower(s[|s| - 1]) {
      letter, rest := s[|s| - 1..], s[..|s| - 1];
    }
    if rest == "" {
      return None;
    }
    var numbers := SplitBy(rest, '.');
    var ok := AllComponents(numbers);
    if !ok {
      return None;
    }
    return Some(Version(numbers, letter, suffixes, revision, hasRevision));
  }

  /** parseVersion */
  method Read(value: string) returns (r: Option<Version>)
    ensures r == ParseVersion(value)
  {
    if value == "" {
      return None;
    }
    var revision, hasRevision, remainder := 0, false, value;
    var i := LastRevision(value);
    if i < |value| {
      var number := Integers.ParseInt(value[i + 2..], 64);
      if number.error.Some? || number.value < 0 {
        return None;
      }
      revision, hasRevision, remainder := number.value, true, value[..i];
    }
    if '-' in remainder {
      return None;
    }
    var suffixes: seq<Suffix> := [];
    var u := Underscore(remainder);
    ghost var whole := remainder;
    if u < |remainder| {
      var read := ReadSuffixes(SplitBy(remainder[u + 1..], '_'));
      if read.None? {
        return None;
      }
      suffixes, remainder := read.value, remainder[..u];
    }
    r := ReadNumbers(remainder, suffixes, revision, hasRevision);
    assert r == ParseBody(whole, revision, hasRevision);
  }

  /** CompareVersions */
  method CompareVersions(left: string, right: string) returns (r: Option<int>)
    ensures r.Some? <==> ParseVersion(left).Some? && ParseVersion(right).Some?
    ensures r.Some? ==> r.value == VersionOrder(ParseVersion(left).value, ParseVersion(right).value)
  {
    var l := Read(left);
    if l.None? {
      return None;
    }
    var m := Read(right);
    if m.None? {
      return None;
    }
    var order := Compare(l.value, m.value);
    return Some(order);
  }

  // ----- versions as they are written -----

  /** A suffix with the digits after its name. */
  datatype Mark = Mark(name: string, digits: string) {
    predicate Sound() { name in RANKS && Digits(digits) && (digits != "" ==> Integers.ParseInt(digits, 64).error.None?) }

    function Meaning(): Suffix
      requires Sound()
    {
      Suffix(RANKS[name], if digits == "" then 0 else Integers.ParseInt(digits, 64).value)
    }
  }

  /** Dotted numbers, at most one letter, suffixes, and the text of a revision. */
  datatype Written = Written(numbers: seq<string>, letter: string, marks: seq<Mark>, revision: Option<string>) {
    predicate Sound() {
      && numbers != [] && (forall i | 0 <= i < |numbers| :: Component(numbers[i]))
      && (letter == "" || (|letter| == 1 && IsLower(letter[0])))
      && (forall i | 0 <= i < |marks| :: marks[i].Sound())
      && (revision.Some? ==> var r := Integers.ParseInt(revision.value, 64); r.error.None? && r.value >= 0)
    }

    function Head(): string { JoinBy(numbers, '.') + letter }

    function Body(): string { Head() + MarksText(marks) }

    function Text(): string { Body() + if revision.Some? then "-r" + revision.value else "" }

    function Meaning(): Version
      requires Sound()
    {
      Version(numbers, letter, Meanings(marks),
              if revision.Some? then Integers.ParseInt(revision.value, 64).value else 0, revision.Some?)
    }
  }

  function MarksText(marks: seq<Mark>): string {
    if marks == [] then "" else "_" + marks[0].name + marks[0].digits + MarksText(marks[1..])
  }

  function Meanings(marks: seq<Mark>): (ss: seq<Suffix>)
    requires forall i | 0 <= i < |marks| :: marks[i].Sound()
  {
    if marks == [] then [] else [marks[0].Meaning()] + Meanings(marks[1..])
  }

  // ----- what is written is read -----

  lemma {:induction false} ScannedAreDigits(s: string, n: int, most: int)
    requires Integers.Scan(s, n, most).Ok?
    ensures Digits(s)
  {
    if s != "" {
      ScannedAreDigits(s[1..], 10 * n + DigitValue(s[0]), most);
    }
  }

  /** The text of a number holds a sign and digits. */
  lemma {:induction false} NumberText(s: string)
    requires Integers.ParseInt(s, 64).error.None?
    ensures 'r' !in s
  {
    var digits := if s != "" && (s[0] == '-' || s[0] == '+') then s[1..] else s;
    ScannedAreDigits(digits, 0, Integers.Pow2(64) - 1);
    assert forall c | c in s :: c == s[0] || c in digits;
  }

  lemma {:induction false} RevisionAt(a: string, b: string)
    requires 'r' !in b
    ensures LastRevision(a + "-r" + b) == |a|
  {
    var s := a + "-r" + b;
    if a == "" {
      NoRevision(s[1..]);
    } else {
      assert s[1..] == a[1..] + "-r" + b;
      RevisionAt(a[1..], b);
    }
  }

  /** No 'r' but at the front, or no dash. */
  lemma {:induction false} NoRevision(s: string)
    requires '-' !in s || (s != "" && 'r' !in s[1..])
    ensures LastRevision(s) == |s|
  {
    if |s| >= 2 {
      assert s[1] in s[1..];
      assert 'r' !in s[1..] ==> 'r' !in s[1..][1..];
      NoRevision(s[1..]);
    }
  }

  lemma {:induction false} UnderscoreAt(a: string, b: string)
    requires '_' !in a
    ensures Underscore(a) == |a| && Underscore(a + "_" + b) == |a|
  {
    if a != "" {
      assert (a + "_" + b)[1..] == a[1..] + "_" + b;
      UnderscoreAt(a[1..], b);
    }
  }

  /** A text that ends with no digit, and digits after it. */
  lemma {:induction false} TrimDigitsAt(name: string, digits: string)
    requires Digits(digits) && (name == "" || !IsDigit(name[|name| - 1]))
    ensures TrimDigits(name + digits) == name
  {
    var s := name + digits;
    if digits == "" {
      assert s == name;
    } else {
      var n := |digits| - 1;
      assert s[|s| - 1] == digits[n] && s[..|s| - 1] == name + digits[..n];
      TrimDigitsAt(name, digits[..n]);
    }
  }

  predicate Wordy(name: string) { name != "" && !IsDigit(name[|name| - 1]) && '_' !in name && '-' !in name }

  lemma {:induction false} NamesAreWordy(name: string)
    requires name in RANKS
    ensures Wordy(name) && RANKS[name] != 0
  {
    assert Wordy("alpha") && Wordy("beta") && Wordy("pre") && Wordy("rc");
    assert Wordy("cvs") && Wordy("svn") && Wordy("git") && Wordy("hg") && Wordy("p");
  }

  lemma {:induction false} MarkReads(m: Mark)
    requires m.Sound()
    ensures ParseSuffix(m.name + m.digits) == Some(m.Meaning())
    ensures '_' !in m.name + m.digits && '-' !in m.name + m.digits
  {
    NamesAreWordy(m.name);
    TrimDigitsAt(m.name, m.digits);
    assert (m.name + m.digits)[|m.name|..] == m.digits;
  }

  function MarkTexts(marks: seq<Mark>): (ts: seq<string>)
    ensures |ts| == |marks|
  {
    if marks == [] then [] else [marks[0].name + marks[0].digits] + MarkTexts(marks[1..])
  }

  lemma {:induction false} MarksJoin(marks: seq<Mark>)
    requires marks != []
    ensures MarksText(marks) == "_" + JoinBy(MarkTexts(marks), '_')
  {
    var first, rest := marks[0].name + marks[0].digits, marks[1..];
    assert "_" + marks[0].name + marks[0].digits + MarksText(rest) == "_" + (first + MarksText(rest));
    if rest == [] {
      assert first + MarksText(rest) == first;
    } else {
      MarksJoin(rest);
      assert MarkTexts(marks)[1..] == MarkTexts(rest);
      assert first + ("_" + JoinBy(MarkTexts(rest), '_')) == first + ['_'] + JoinBy(MarkTexts(rest), '_');
    }
  }

  lemma {:induction false} MarksRead(marks: seq<Mark>)
    requires forall i | 0 <= i < |marks| :: marks[i].Sound()
    ensures ParseSuffixes(MarkTexts(marks)) == Some(Meanings(marks)) && Without(MarkTexts(marks), '_') && '-' !in MarksText(marks)
  {
    if marks != [] {
      MarksRead(marks[1..]);
      MarkReads(marks[0]);
      assert MarkTexts(marks)[1..] == MarkTexts(marks[1..]);
    }
  }

  predicate Numeric(s: string) { forall c | c in s :: IsDigit(c) || c == '.' }

  lemma {:induction false} NumbersJoin(numbers: seq<string>)
    requires numbers != [] && forall i | 0 <= i < |numbers| :: Component(numbers[i])
    ensures var s := JoinBy(numbers, '.');
            s != "" && Numeric(s) && IsDigit(s[|s| - 1]) && SplitBy(s, '.') == numbers
  {
    assert Without(numbers, '.') by {
      forall i | 0 <= i < |numbers| ensures '.' !in numbers[i] {
        assert Component(numbers[i]);
      }
    }
    SplitJoin(numbers, '.');
    NumbersText(numbers);
  }

  lemma {:induction false} NumbersText(numbers: seq<string>)
    requires numbers != [] && forall i | 0 <= i < |numbers| :: Component(numbers[i])
    ensures var s := JoinBy(numbers, '.'); s != "" && Numeric(s) && IsDigit(s[|s| - 1])
  {
    if |numbers| > 1 {
      NumbersText(numbers[1..]);
    }
  }

  lemma {:induction false} BareReads(s: string, numbers: seq<string>, suffixes: seq<Suffix>, revision: int, hasRevision: bool)
    requires s != "" && IsDigit(s[|s| - 1]) && SplitBy(s, '.') == numbers && forall n | n in numbers :: Component(n)
    ensures ParseNumbers(s, suffixes, revision, hasRevision) == Some(Version(numbers, "", suffixes, revision, hasRevision))
  {
  }

  lemma {:induction false} LetteredReads(
    s: string, letter: string, numbers: seq<string>, suffixes: seq<Suffix>, revision: int, hasRevision: bool)
    requires s != "" && SplitBy(s, '.') == numbers && (forall n | n in numbers :: Component(n))
    requires |letter| == 1 && IsLower(letter[0])
    ensures ParseNumbers(s + letter, suffixes, revision, hasRevision) == Some(Version(numbers, letter, suffixes, revision, hasRevision))
  {
    var t := s + letter;
    assert t[..|t| - 1] == s && t[|t| - 1..] == letter;
  }

  lemma {:induction false} HeadReads(w: Written, suffixes: seq<Suffix>, revision: int, hasRevision: bool)
    requires w.Sound()
    ensures ParseNumbers(w.Head(), suffixes, revision, hasRevision) ==
              Some(Version(w.numbers, w.letter, suffixes, revision, hasRevision))
  {
    NumbersJoin(w.numbers);
    var s := JoinBy(w.numbers, '.');
    if w.letter == "" {
      BareReads(s, w.numbers, suffixes, revision, hasRevision);
      assert s + "" == s;
    } else {
      LetteredReads(s, w.letter, w.numbers, suffixes, revision, hasRevision);
    }
  }

  lemma {:induction false} HeadIsClean(w: Written)
    requires w.Sound()
    ensures '_' !in w.Head() && '-' !in w.Head() && w.Head() != ""
  {
    NumbersText(w.numbers);
    var s := JoinBy(w.numbers, '.');
    forall c | c in w.Head() ensures c != '_' && c != '-' {
      assert c in s || c in w.letter;
    }
  }

  lemma {:induction false} BodyAt(head: string, rest: string, revision: int, hasRevision: bool)
    requires '_' !in head && '-' !in head && '-' !in rest
    ensures var suffixes := ParseSuffixes(SplitBy(rest, '_'));
            ParseBody(head + "_" + rest, revision, hasRevision) ==
              if suffixes.None? then None else ParseNumbers(head, suffixes.value, revision, hasRevision)
  {
    var s := head + "_" + rest;
    UnderscoreAt(head, rest);
    assert s[..|head|] == head && s[|head| + 1..] == rest;
    assert '-' !in s;
  }

  lemma {:induction false} MarksAreClean(marks: seq<Mark>)
    requires marks != [] && forall i | 0 <= i < |marks| :: marks[i].Sound()
    ensures var rest := JoinBy(MarkTexts(marks), '_');
            '-' !in rest && MarksText(marks) == "_" + rest && ParseSuffixes(SplitBy(rest, '_')) == Some(Meanings(marks))
  {
    MarksRead(marks);
    MarksJoin(marks);
    var rest := JoinBy(MarkTexts(marks), '_');
    assert forall c | c in rest :: c in "_" + rest;
    SplitJoin(MarkTexts(marks), '_');
  }

  lemma {:induction false} MarkedReads(w: Written, revision: int, hasRevision: bool)
    requires w.Sound() && w.marks != []
    ensures ParseBody(w.Body(), revision, hasRevision) == Some(Version(w.numbers, w.letter, Meanings(w.marks), revision, hasRevision))
  {
    HeadReads(w, Meanings(w.marks), revision, hasRevision);
    HeadIsClean(w);
    MarksAreClean(w.marks);
    var head, rest := w.Head(), JoinBy(MarkTexts(w.marks), '_');
    BodyAt(head, rest, revision, hasRevision);
    Associate(head, rest);
  }

  lemma {:induction false} Associate(head: string, rest: string)
    ensures head + ("_" + rest) == head + "_" + rest
  {
  }

  lemma {:induction false} BodyReads(w: Written, revision: int, hasRevision: bool)
    requires w.Sound()
    ensures ParseBody(w.Body(), revision, hasRevision) == Some(Version(w.numbers, w.letter, Meanings(w.marks), revision, hasRevision))
    ensures '-' !in w.Body() && w.Body() != ""
  {
    HeadIsClean(w);
    MarksRead(w.marks);
    if w.marks == [] {
      HeadReads(w, [], revision, hasRevision);
      UnderscoreAt(w.Head(), "");
      assert w.Body() == w.Head();
      assert Meanings(w.marks) == [];
    } else {
      MarkedReads(w, revision, hasRevision);
    }
  }

  lemma {:induction false} RevisionReads(body: string, revision: string)
    requires body != "" && Integers.ParseInt(revision, 64).error.None? && Integers.ParseInt(revision, 64).value >= 0
    ensures ParseVersion(body + ("-r" + revision)) == ParseBody(body, Integers.ParseInt(revision, 64).value, true)
  {
    var value := body + ("-r" + revision);
    assert value == body + "-r" + revision;
    NumberText(revision);
    RevisionAt(body, revision);
    assert value[..|body|] == body && value[|body| + 2..] == revision;
  }

  /** Every version as it is written is read as what it means. */
  lemma {:induction false} WrittenReads(w: Written)
    requires w.Sound()
    ensures ParseVersion(w.Text()) == Some(w.Meaning())
  {
    if w.revision.None? {
      BodyReads(w, 0, false);
      NoRevision(w.Body());
      assert w.Text() == w.Body();
    } else {
      BodyReads(w, Integers.ParseInt(w.revision.value, 64).value, true);
      RevisionReads(w.Body(), w.revision.value);
    }
  }

  // ----- nothing else is read -----

  lemma {:induction false} SuffixIsMark(part: string) returns (m: Mark)
    requires ParseSuffix(part).Some?
    ensures m.Sound() && part == m.name + m.digits && ParseSuffix(part).value == m.Meaning()
  {
    var name := TrimDigits(part);
    m := Mark(name, part[|name|..]);
  }

  lemma {:induction false} SuffixesAreMarks(parts: seq<string>) returns (marks: seq<Mark>)
    requires ParseSuffixes(parts).Some?
    ensures (forall i | 0 <= i < |marks| :: marks[i].Sound()) && parts == MarkTexts(marks) && ParseSuffixes(parts).value == Meanings(marks)
  {
    if parts == [] {
      marks := [];
    } else {
      var first := SuffixIsMark(parts[0]);
      var rest := SuffixesAreMarks(parts[1..]);
      marks := [first] + rest;
      assert marks[1..] == rest;
      assert parts == [parts[0]] + parts[1..];
    }
  }

  lemma {:induction false} NumbersAreWritten(s: string, suffixes: seq<Suffix>, revision: int, hasRevision: bool)
    returns (numbers: seq<string>, letter: string)
    requires ParseNumbers(s, suffixes, revision, hasRevision).Some?
    ensures Written(numbers, letter, [], None).Sound() && s == Written(numbers, letter, [], None).Head()
    ensures ParseNumbers(s, suffixes, revision, hasRevision) == Some(Version(numbers, letter, suffixes, revision, hasRevision))
  {
    var lettered := s != "" && IsLower(s[|s| - 1]);
    letter := if lettered then s[|s| - 1..] else "";
    var rest := if lettered then s[..|s| - 1] else s;
    numbers := SplitBy(rest, '.');
    JoinSplit(rest, '.');
    assert forall i | 0 <= i < |numbers| :: numbers[i] in numbers;
    assert s == rest + letter;
  }

  lemma {:induction false} MarkedIsWritten(head: string, rest: string, revision: int, hasRevision: bool) returns (w: Written)
    requires ParseSuffixes(SplitBy(rest, '_')).Some?
    requires ParseNumbers(head, ParseSuffixes(SplitBy(rest, '_')).value, revision, hasRevision).Some?
    ensures w.Sound() && w.revision.None? && head + "_" + rest == w.Body()
    ensures ParseNumbers(head, ParseSuffixes(SplitBy(rest, '_')).value, revision, hasRevision) ==
              Some(Version(w.numbers, w.letter, Meanings(w.marks), revision, hasRevision))
  {
    JoinSplit(rest, '_');
    var marks := SuffixesAreMarks(SplitBy(rest, '_'));
    var numbers, letter := NumbersAreWritten(head, Meanings(marks), revision, hasRevision);
    w := Written(numbers, letter, marks, None);
    MarksJoin(marks);
    assert head + "_" + rest == head + ("_" + rest);
  }

  lemma {:induction false} CutAtUnderscore(s: string, i: nat)
    requires i < |s| && s[i] == '_'
    ensures s == s[..i] + "_" + s[i + 1..]
  {
  }

  lemma {:induction false} BodyIsWritten(s: string, revision: int, hasRevision: bool) returns (w: Written)
    requires ParseBody(s, revision, hasRevision).Some?
    ensures w.Sound() && w.revision.None? && s == w.Body()
    ensures ParseBody(s, revision, hasRevision) == Some(Version(w.numbers, w.letter, Meanings(w.marks), revision, hasRevision))
  {
    var i := Underscore(s);
    if i == |s| {
      var numbers, letter := NumbersAreWritten(s, [], revision, hasRevision);
      w := Written(numbers, letter, [], None);
      assert w.Body() == w.Head();
      assert Meanings([]) == [];
    } else {
      CutAtUnderscore(s, i);
      w := MarkedIsWritten(s[..i], s[i + 1..], revision, hasRevision);
    }
  }

  lemma {:induction false} WithRevision(w: Written, revision: string)
    requires w.Sound() && w.revision.None?
    requires Integers.ParseInt(revision, 64).error.None? && Integers.ParseInt(revision, 64).value >= 0
    ensures var v := w.(revision := Some(revision));
            && v.Sound() && v.Text() == w.Body() + ("-r" + revision)
            && v.Meaning() == Version(w.numbers, w.letter, Meanings(w.marks), Integers.ParseInt(revision, 64).value, true)
  {
  }

  lemma {:induction false} CutAtRevision(value: string, i: nat)
    requires i + 2 <= |value| && value[i] == '-' && value[i + 1] == 'r'
    ensures value == value[..i] + ("-r" + value[i + 2..])
  {
  }

  lemma {:induction false} RevisedIsWritten(front: string, revision: string) returns (w: Written)
    requires Integers.ParseInt(revision, 64).error.None? && Integers.ParseInt(revision, 64).value >= 0
    requires ParseBody(front, Integers.ParseInt(revision, 64).value, true).Some?
    ensures w.Sound() && front + ("-r" + revision) == w.Text()
    ensures ParseBody(front, Integers.ParseInt(revision, 64).value, true) == Some(w.Meaning())
  {
    var body := BodyIsWritten(front, Integers.ParseInt(revision, 64).value, true);
    WithRevision(body, revision);
    w := body.(revision := Some(revision));
  }

  /** And every text that is read is such a version. */
  lemma {:induction false} ReadIsWritten(value: string) returns (w: Written)
    requires ParseVersion(value).Some?
    ensures w.Sound() && value == w.Text() && ParseVersion(value) == Some(w.Meaning())
  {
    var i := LastRevision(value);
    if i == |value| {
      w := BodyIsWritten(value, 0, false);
      assert w.Text() == w.Body();
    } else {
      CutAtRevision(value, i);
      w := RevisedIsWritten(value[..i], value[i + 2..]);
    }
  }
}
