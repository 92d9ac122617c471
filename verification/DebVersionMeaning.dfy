/** What the Debian version order says of versions as they are written: how a version is cut
    into its parts, and what decides between two of them (formats/deb/version.go). */
module DebVersionMeaning {
  import opened Wrappers
  import opened Orders
  import opened Decimal
  import opened DebVersion

  // ----- the parts of a version -----

  function Front(epoch: Option<string>): string { if epoch.Some? then epoch.value + ":" else "" }

  /** What follows the epoch. */
  function Body(upstream: string, revision: Option<string>): string {
    if revision.Some? then upstream + "-" + revision.value else upstream
  }

  function Join(epoch: Option<string>, upstream: string, revision: Option<string>): string { Front(epoch) + Body(upstream, revision) }

  /** The parts can be told apart again: an epoch ends at the first colon, a revision starts after
      the last dash. */
  predicate Apart(epoch: Option<string>, upstream: string, revision: Option<string>) {
    && (if epoch.Some? then ':' !in epoch.value else ':' !in upstream && (revision.Some? ==> ':' !in revision.value))
    && (if revision.Some? then '-' !in revision.value else '-' !in upstream)
  }

  lemma {:induction false} FirstAt(s: string, c: char, i: nat)
    requires i < |s| && s[i] == c && c !in s[..i]
    ensures IndexOf(s, c) == i
  {
    if i > 0 {
      assert s[..i] == [s[0]] + s[1..][..i - 1];
      FirstAt(s[1..], c, i - 1);
    }
  }

  lemma {:induction false} LastAt(s: string, c: char, i: nat)
    requires i < |s| && s[i] == c && c !in s[i + 1..]
    ensures LastIndexOf(s, c) == i
  {
    var n := |s| - 1;
    if i < n {
      assert s[i + 1..] == s[..n][i + 1..] + [s[n]];
      LastAt(s[..n], c, i);
    }
  }

  lemma {:induction false} CutEpoch(epoch: string, rest: string)
    requires ':' !in epoch
    ensures var version := epoch + ":" + rest;
            IndexOf(version, ':') == |epoch| && version[..|epoch|] == epoch && version[|epoch| + 1..] == rest
  {
    var version := epoch + ":" + rest;
    assert version[..|epoch|] == epoch && version[|epoch| + 1..] == rest;
    FirstAt(version, ':', |epoch|);
  }

  lemma {:induction false} CutRevision(upstream: string, revision: string)
    requires '-' !in revision
    ensures var rest := upstream + "-" + revision;
            LastIndexOf(rest, '-') == |upstream| && rest[..|upstream|] == upstream && rest[|upstream| + 1..] == revision
  {
    var rest := upstream + "-" + revision;
    assert rest[..|upstream|] == upstream && rest[|upstream| + 1..] == revision;
    LastAt(rest, '-', |upstream|);
  }

  lemma {:induction false} Absent(s: string, c: char)
    requires c !in s
    ensures IndexOf(s, c) == LastIndexOf(s, c) == |s|
  {
  }

  lemma {:induction false} CutBody(upstream: string, revision: Option<string>)
    requires if revision.Some? then '-' !in revision.value else '-' !in upstream
    ensures var rest := Body(upstream, revision);
            var dash := LastIndexOf(rest, '-');
            if revision.Some? then dash == |upstream| < |rest| && rest[..dash] == upstream && rest[dash + 1..] == revision.value
            else dash == |rest| && rest == upstream
  {
    if revision.Some? {
      CutRevision(upstream, revision.value);
    } else {
      Absent(upstream, '-');
    }
  }

  lemma {:induction false} CutJoined(epoch: Option<string>, upstream: string, revision: Option<string>)
    requires Apart(epoch, upstream, revision)
    ensures EpochOf(Join(epoch, upstream, revision)) == if epoch.Some? then TrimPlus(epoch.value) else "0"
    ensures AfterEpoch(Join(epoch, upstream, revision)) == Body(upstream, revision)
  {
    var body := Body(upstream, revision);
    if epoch.Some? {
      CutEpoch(epoch.value, body);
      assert Join(epoch, upstream, revision) == epoch.value + ":" + body;
    } else {
      assert Join(epoch, upstream, revision) == body;
      Absent(body, ':');
    }
  }

  /** splitVersion takes a version apart where it was joined; an absent epoch or revision is zero,
      and one plus before the epoch is dropped. */
  lemma {:induction false} SplitJoined(epoch: Option<string>, upstream: string, revision: Option<string>)
    requires Apart(epoch, upstream, revision)
    ensures SplitVersion(Join(epoch, upstream, revision)) ==
              Version(if epoch.Some? then TrimPlus(epoch.value) else "0", upstream, if revision.Some? then revision.value else "0")
  {
    CutJoined(epoch, upstream, revision);
    CutBody(upstream, revision);
  }

  /** One plus before the epoch is dropped, and nothing else. */
  lemma {:induction false} PlusIsDropped(epoch: string, upstream: string, revision: Option<string>)
    requires Apart(Some(epoch), upstream, revision)
    ensures SplitVersion(Join(Some("+" + epoch), upstream, revision)).epoch == epoch
    ensures !("+" <= epoch) ==> SplitVersion(Join(Some(epoch), upstream, revision)).epoch == epoch
  {
    SplitJoined(Some("+" + epoch), upstream, revision);
    SplitJoined(Some(epoch), upstream, revision);
  }

  lemma {:induction false} EveryBodyJoins(rest: string) returns (upstream: string, revision: Option<string>)
    ensures rest == Body(upstream, revision) && if revision.Some? then '-' !in revision.value else '-' !in upstream
    ensures revision.Some? <==> '-' in rest
  {
    var dash := LastIndexOf(rest, '-');
    if dash < |rest| {
      upstream, revision := rest[..dash], Some(rest[dash + 1..]);
      assert rest == upstream + "-" + revision.value;
      assert Body(upstream, revision) == upstream + "-" + revision.value;
    } else {
      upstream, revision := rest, None;
      assert Body(upstream, revision) == rest;
    }
  }

  /** Every text is such a join. */
  lemma {:induction false} EveryVersionJoins(version: string)
    returns (epoch: Option<string>, upstream: string, revision: Option<string>)
    ensures Apart(epoch, upstream, revision) && version == Join(epoch, upstream, revision)
    ensures epoch.Some? <==> ':' in version
    ensures revision.Some? <==> '-' in Body(upstream, revision)
  {
    var colon := IndexOf(version, ':');
    if colon < |version| {
      epoch := Some(version[..colon]);
      upstream, revision := EveryBodyJoins(version[colon + 1..]);
      assert version == epoch.value + ":" + Body(upstream, revision);
    } else {
      assert version[..colon] == version;
      epoch := None;
      upstream, revision := EveryBodyJoins(version);
      assert revision.Some? ==> ':' !in revision.value;
    }
  }

  predicate ValidEpoch(epoch: string) {
    TrimPlus(epoch) != "" && Digits(TrimPlus(epoch)) && Value(TrimPlus(epoch)) < 0x1_0000_0000_0000_0000
  }

  predicate ValidBody(rest: string) {
    && rest != "" && IsDigit(rest[0]) && rest[|rest| - 1] != '-' && VersionChars(rest)
    && (LastIndexOf(rest, '-') < |rest| ==> ':' !in rest[LastIndexOf(rest, '-') + 1..])
  }

  predicate Printable(s: string) { forall c | c in s :: c !in "\0\r\n \t/\\" }

  lemma {:induction false} NumberIsPrintable(epoch: string)
    requires Digits(TrimPlus(epoch))
    ensures Printable(epoch)
  {
    forall c | c in epoch ensures c !in "\0\r\n \t/\\" {
      assert c == '+' || c in TrimPlus(epoch);
      assert c == '+' || IsDigit(c);
    }
  }

  lemma {:induction false} VersionIsPrintable(s: string)
    requires VersionChars(s)
    ensures Printable(s)
  {
    forall c | c in s ensures c !in "\0\r\n \t/\\" {
      assert IsVersionChar(c);
    }
  }

  lemma {:induction false} RevisedChars(upstream: string, revision: string)
    ensures VersionChars(upstream + "-" + revision) <==> VersionChars(upstream) && VersionChars(revision)
  {
    var rest := upstream + "-" + revision;
    assert forall k | 0 <= k < |upstream| :: rest[k] == upstream[k];
    assert forall k | 0 <= k < |revision| :: rest[|upstream| + 1 + k] == revision[k];
  }

  lemma {:induction false} ValidBodyMeans(upstream: string, revision: Option<string>)
    requires if revision.Some? then '-' !in revision.value else '-' !in upstream
    ensures ValidBody(Body(upstream, revision)) <==>
              && upstream != "" && IsDigit(upstream[0]) && VersionChars(upstream)
              && (revision.Some? ==> revision.value != "" && VersionChars(revision.value) && ':' !in revision.value)
  {
    CutBody(upstream, revision);
    var rest := Body(upstream, revision);
    if revision.Some? {
      RevisedChars(upstream, revision.value);
      assert rest == upstream + "-" + revision.value;
      assert upstream != "" ==> rest[0] == upstream[0];
      assert upstream == "" ==> rest[0] == '-';
      assert rest[|rest| - 1] == if revision.value == "" then '-' else revision.value[|revision.value| - 1];
    }
  }

  lemma {:induction false} ValidMeans(version: string)
    ensures ValidVersion(version) <==>
              version != "" && Printable(version) && ValidBody(AfterEpoch(version))
              && var epoch := EpochOf(version); epoch != "" && Digits(epoch) && Value(epoch) < 0x1_0000_0000_0000_0000
  {
  }

  /** Which joined parts validVersion accepts: an epoch is a number of 64 bits, the rest starts with
      a digit and holds only the signs of a version, and a revision is not empty and has no colon. */
  lemma {:induction false} ValidJoined(epoch: Option<string>, upstream: string, revision: Option<string>)
    requires Apart(epoch, upstream, revision)
    ensures ValidVersion(Join(epoch, upstream, revision)) <==>
              && (epoch.Some? ==> ValidEpoch(epoch.value))
              && upstream != "" && IsDigit(upstream[0]) && VersionChars(upstream)
              && (revision.Some? ==> revision.value != "" && VersionChars(revision.value) && ':' !in revision.value)
  {
    var version := Join(epoch, upstream, revision);
    ValidMeans(version);
    CutJoined(epoch, upstream, revision);
    ValidBodyMeans(upstream, revision);
    if ValidBody(Body(upstream, revision)) && (epoch.Some? ==> ValidEpoch(epoch.value)) {
      VersionIsPrintable(Body(upstream, revision));
      if epoch.Some? {
        NumberIsPrintable(epoch.value);
      }
      assert version == Front(epoch) + Body(upstream, revision);
    }
  }

  // ----- what decides between two parts -----

  predicate DigitFirst(s: string) { s != "" && IsDigit(s[0]) }

  /** The sign at which a text goes on, or its end. */
  function SignOf(s: string): Option<char> { if s == "" then None else Some(s[0]) }

  /** A part that is all text, and what follows it. */
  lemma {:induction false} TextDecides(v: string, a: string, b: string)
    requires AfterText(v) == "" && !DigitFirst(a) && !DigitFirst(b) && CompareSigns(SignOf(a), SignOf(b)) != 0
    ensures CompareTexts(TextOf(v + a), TextOf(v + b)) == CompareSigns(SignOf(a), SignOf(b))
  {
    if v == "" {
      assert v + a == a && v + b == b;
    } else {
      assert (v + a)[1..] == v[1..] + a && (v + b)[1..] == v[1..] + b;
      TextDecides(v[1..], a, b);
    }
  }

  /** A part with a number in it, and what follows it. */
  lemma {:induction false} TextEnds(v: string, x: string)
    requires AfterText(v) != ""
    ensures TextOf(v + x) == TextOf(v) && AfterText(v + x) == AfterText(v) + x
  {
    if TextFirst(v) {
      assert (v + x)[1..] == v[1..] + x;
      TextEnds(v[1..], x);
    }
  }

  lemma {:induction false} NumberEnds(v: string, x: string)
    requires !DigitFirst(x) || AfterDigits(v) != ""
    ensures DigitsOf(v + x) == DigitsOf(v) && AfterDigits(v + x) == AfterDigits(v) + x
  {
    if v == "" {
      assert v + x == x;
    } else if IsDigit(v[0]) {
      assert (v + x)[1..] == v[1..] + x;
      NumberEnds(v[1..], x);
    }
  }

  lemma {:induction false} TextIsEven(t: Text)
    ensures CompareTexts(t, t) == 0
  {
    TextsPreorder(t, t, t);
  }

  /** Past a common start with a number, the rest decides. */
  lemma {:induction false} StartIsEven(v: string, a: string, b: string)
    requires AfterText(v) != "" && (Rest(v) != "" || (!DigitFirst(a) && !DigitFirst(b)))
    ensures PolicyCompare(v + a, v + b) == PolicyCompare(Rest(v) + a, Rest(v) + b)
  {
    TextEnds(v, a);
    TextEnds(v, b);
    NumberEnds(AfterText(v), a);
    NumberEnds(AfterText(v), b);
    TextIsEven(TextOf(v));
    assert v != "";
    PolicyTurn(v + a, v + b);
  }

  /** After a common start, the first two signs that differ decide, as policy orders them. */
  lemma {:induction false} SignsDecide(v: string, a: string, b: string)
    requires !DigitFirst(a) && !DigitFirst(b) && CompareSigns(SignOf(a), SignOf(b)) != 0
    ensures PolicyCompare(v + a, v + b) == CompareSigns(SignOf(a), SignOf(b))
    decreases |v|
  {
    if AfterText(v) == "" {
      TextDecides(v, a, b);
      PolicyTurn(v + a, v + b);
    } else {
      StartIsEven(v, a, b);
      RestIsShorter(v);
      SignsDecide(Rest(v), a, b);
    }
  }

  /** The text does not end in a digit, so that digits after it are a number of their own. */
  predicate EndsInText(v: string) { v == "" || !IsDigit(v[|v| - 1]) }

  lemma {:induction false} AfterTextEnds(v: string)
    requires AfterText(v) != ""
    ensures v != "" && AfterText(v)[|AfterText(v)| - 1] == v[|v| - 1]
  {
    if TextFirst(v) {
      AfterTextEnds(v[1..]);
    }
  }

  lemma {:induction false} AfterDigitsEnds(v: string)
    requires EndsInText(v)
    ensures EndsInText(AfterDigits(v)) && (v != "" ==> AfterDigits(v) != "")
  {
    if DigitFirst(v) {
      AfterDigitsEnds(v[1..]);
    }
  }

  lemma {:induction false} RestEnds(v: string)
    requires EndsInText(v) && AfterText(v) != ""
    ensures EndsInText(Rest(v)) && Rest(v) != ""
  {
    AfterTextEnds(v);
    AfterDigitsEnds(AfterText(v));
  }

  /** Text that a number, or nothing, follows. */
  lemma {:induction false} TextStops(v: string, x: string)
    requires AfterText(v) == "" && !TextFirst(x)
    ensures TextOf(v + x) == TextOf(v) && AfterText(v + x) == x
  {
    if v == "" {
      assert v + x == x;
    } else {
      assert (v + x)[1..] == v[1..] + x;
      TextStops(v[1..], x);
    }
  }

  lemma {:induction false} AllDigits(d: string, x: string)
    requires Digits(d) && !DigitFirst(x)
    ensures DigitsOf(d + x) == d && AfterDigits(d + x) == x
  {
    if d == "" {
      assert d + x == x;
    } else {
      assert (d + x)[1..] == d[1..] + x;
      AllDigits(d[1..], x);
    }
  }

  /** After a common start that does not end in a digit, two numbers that differ decide; leading
      zeros do not matter. */
  lemma {:induction false} NumbersDecide(v: string, d: string, a: string, e: string, b: string)
    requires EndsInText(v) && Digits(d) && Digits(e) && d != "" && e != "" && !DigitFirst(a) && !DigitFirst(b)
    requires Value(d) != Value(e)
    ensures PolicyCompare(v + (d + a), v + (e + b)) == Sign(Value(d) - Value(e))
    decreases |v|
  {
    if AfterText(v) == "" {
      TextStops(v, d + a);
      TextStops(v, e + b);
      AllDigits(d, a);
      AllDigits(e, b);
      TextIsEven(TextOf(v));
      PolicyTurn(v + (d + a), v + (e + b));
    } else {
      RestEnds(v);
      StartIsEven(v, d + a, e + b);
      RestIsShorter(v);
      NumbersDecide(Rest(v), d, a, e, b);
    }
  }

  /** A number of value zero at the end reads like no number. */
  lemma {:induction false} ZeroIsNothing(v: string, zeros: string)
    requires EndsInText(v) && Digits(zeros) && Value(zeros) == 0
    ensures PolicyCompare(v + zeros, v) == 0
    decreases |v|
  {
    assert v + "" == v;
    if AfterText(v) == "" {
      assert zeros + "" == zeros;
      AllDigits(zeros, "");
      TextStops(v, zeros);
      TextStops(v, "");
      TextIsEven(TextOf(v));
      if v != "" || zeros != "" {
        PolicyTurn(v + zeros, v);
      }
    } else {
      RestEnds(v);
      StartIsEven(v, zeros, "");
      RestIsShorter(v);
      assert Rest(v) + "" == Rest(v);
      ZeroIsNothing(Rest(v), zeros);
    }
  }

  // ----- what that means for versions -----

  /** A tilde makes any part lower. */
  lemma {:induction false} TildeIsBelow(v: string, w: string)
    ensures PolicyCompare(v + "~" + w, v) == -1
  {
    SignsDecide(v, "~" + w, "");
    assert v + ("~" + w) == v + "~" + w && v + "" == v;
  }

  lemma {:induction false} PolicyIsEven(v: string)
    ensures PolicyCompare(v, v) == 0
  {
    PolicyPreorder(v, v, v);
  }

  /** Any other sign makes it higher. */
  lemma {:induction false} LongerIsAbove(v: string, c: char, w: string)
    requires !IsDigit(c) && c != '~'
    ensures PolicyCompare(v + [c] + w, v) == 1
  {
    SignsDecide(v, [c] + w, "");
    assert v + ([c] + w) == v + [c] + w && v + "" == v;
  }

  /** Where they differ, letters are below other signs, and otherwise the codes decide. */
  lemma {:induction false} LettersFirst(v: string, c: char, x: string, d: char, y: string)
    requires !IsDigit(c) && !IsDigit(d) && c != '~' && d != '~' && c != d
    ensures PolicyCompare(v + [c] + x, v + [d] + y) ==
              if IsLetter(c) && !IsLetter(d) then -1 else if IsLetter(d) && !IsLetter(c) then 1 else if c < d then -1 else 1
  {
    SignsDecide(v, [c] + x, [d] + y);
    assert v + ([c] + x) == v + [c] + x && v + ([d] + y) == v + [d] + y;
  }

  /** Two versions with the same epoch. */
  lemma {:induction false} SameEpoch(epoch: Option<string>, u: string, r: Option<string>, u': string, r': Option<string>)
    requires Apart(epoch, u, r) && Apart(epoch, u', r')
    ensures VersionOrder(Join(epoch, u, r), Join(epoch, u', r')) ==
              Then(PolicyCompare(u, u'), PolicyCompare(if r.Some? then r.value else "0", if r'.Some? then r'.value else "0"))
  {
    SplitJoined(epoch, u, r);
    SplitJoined(epoch, u', r');
  }

  /** A tilde before the first colon makes the epoch no number. */
  lemma {:induction false} TildeInEpoch(v: string, w: string)
    requires ':' !in v && ':' in w
    ensures !Digits(EpochOf(v + "~" + w))
  {
    var k := IndexOf(w, ':');
    var version, epoch := v + "~" + w, v + "~" + w[..k];
    assert version[..|epoch|] == epoch && version[|epoch|] == ':';
    FirstAt(version, ':', |epoch|);
    var trimmed := TrimPlus(epoch);
    assert trimmed[|trimmed| - 1 - k] == '~';
  }

  // A version with a tilde and more after it, cut into its parts.

  lemma {:induction false} TildeInUpstream(epoch: Option<string>, u: string, x: string, y: Option<string>)
    requires Apart(epoch, u, None) && Apart(epoch, x, y)
    ensures Apart(epoch, u + "~" + x, y) && Join(epoch, u + "~" + x, y) == Join(epoch, u, None) + "~" + Body(x, y)
  {
    assert Body(u + "~" + x, y) == u + "~" + Body(x, y);
    assert Front(epoch) + (u + "~" + Body(x, y)) == (Front(epoch) + u) + "~" + Body(x, y);
  }

  lemma {:induction false} RevisionInUpstream(epoch: Option<string>, u: string, v: string, x: string, y: string)
    requires Apart(epoch, u, Some(v)) && '-' !in y && (epoch.None? ==> ':' !in x && ':' !in y)
    ensures var u' := u + "-" + (v + "~" + x);
            Apart(epoch, u', Some(y)) && Join(epoch, u', Some(y)) == Join(epoch, u, Some(v)) + "~" + (x + "-" + y)
  {
    var u' := u + "-" + (v + "~" + x);
    assert u' + "-" + y == (u + "-" + v) + "~" + (x + "-" + y);
    assert Front(epoch) + ((u + "-" + v) + "~" + (x + "-" + y)) == (Front(epoch) + (u + "-" + v)) + "~" + (x + "-" + y);
  }

  lemma {:induction false} TildeInRevision(epoch: Option<string>, u: string, v: string, w: string)
    requires Apart(epoch, u, Some(v)) && '-' !in w && (epoch.None? ==> ':' !in w)
    ensures Apart(epoch, u, Some(v + "~" + w)) && Join(epoch, u, Some(v + "~" + w)) == Join(epoch, u, Some(v)) + "~" + w
  {
    assert u + "-" + (v + "~" + w) == (u + "-" + v) + "~" + w;
    assert Front(epoch) + ((u + "-" + v) + "~" + w) == (Front(epoch) + (u + "-" + v)) + "~" + w;
  }

  /** A tilde and anything after it makes a version lower, except that a dash after the tilde turns
      an earlier revision into part of the upstream version, which makes it higher. */
  lemma {:induction false} TildeVersionIsBelow(v: string, w: string)
    requires ValidVersion(v) && ValidVersion(v + "~" + w)
    ensures VersionOrder(v + "~" + w, v) == if '-' in AfterEpoch(v) && '-' in w then 1 else -1
  {
    var epoch, u, r := EveryVersionJoins(v);
    CutJoined(epoch, u, r);
    if epoch.None? && ':' in w {
      TildeInEpoch(v, w);
    }
    var x, y := EveryBodyJoins(w);
    if r.None? {
      TildeInUpstream(epoch, u, x, y);
      SameEpoch(epoch, u + "~" + x, y, u, r);
      TildeIsBelow(u, x);
    } else if y.Some? {
      RevisionInUpstream(epoch, u, r.value, x, y.value);
      SameEpoch(epoch, u + "-" + (r.value + "~" + x), y, u, r);
      LongerIsAbove(u, '-', r.value + "~" + x);
    } else {
      TildeInRevision(epoch, u, r.value, w);
      SameEpoch(epoch, u, Some(r.value + "~" + w), u, r);
      PolicyIsEven(u);
      TildeIsBelow(r.value, w);
    }
  }
}
