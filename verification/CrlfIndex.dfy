/** Packages indexes with the line endings of other systems (formats/deb/repository.go). */
module CrlfIndex {
  import opened Lines
  import opened ControlText
  import opened DebPackages

  /** Every newline with a carriage return before it. */
  function Crlf(s: string): string {
    if s == "" then "" else (if s[0] == '\n' then "\r\n" else [s[0]]) + Crlf(s[1..])
  }

  lemma {:induction false} CrlfAppend(a: string, b: string)
    ensures Crlf(a + b) == Crlf(a) + Crlf(b)
  {
    if a == "" {
      assert a + b == b;
    } else {
      assert (a + b)[1..] == a[1..] + b;
      CrlfAppend(a[1..], b);
    }
  }

  lemma {:induction false} CrlfOfLine(a: string)
    requires OneLine(a)
    ensures Crlf(a) == a
  {
    if a != "" {
      assert a[0] in a;
      CrlfOfLine(a[1..]);
      assert [a[0]] + a[1..] == a;
    }
  }

  // ----- fields -----

  lemma {:induction false} CrlfFirst(first: string, rest: string)
    requires OneLine(first)
    ensures Crlf(first + "\n" + rest) == (first + "\r") + "\n" + Crlf(rest)
  {
    CrlfOfLine(first);
    CrlfAppend(first, "\n" + rest);
    assert ("\n" + rest)[1..] == rest;
    assert first + ("\n" + rest) == first + "\n" + rest;
    assert first + ("\r\n" + Crlf(rest)) == (first + "\r") + "\n" + Crlf(rest);
  }

  lemma {:induction false} ChompReturn(first: string)
    requires '\r' !in first
    ensures Chomp(first + "\r") == first && Chomp(first) == first
  {
    assert DropReturn(first + "\r") == first;
    assert first != "" ==> first[|first| - 1] in first;
  }

  lemma {:induction false} ChompedFirst(line: string, rest: seq<string>)
    ensures Chomped([line] + rest) == [Chomp(line)] + Chomped(rest)
  {
    assert ([line] + rest)[1..] == rest;
  }

  /** The lines of the one are those of the other, up to carriage returns that are dropped. */
  lemma {:induction false} CrlfLines(s: string)
    requires '\r' !in s
    ensures Chomped(Split(Crlf(s))) == Chomped(Split(s))
  {
    var i := LineEnd(s);
    if i == |s| {
      assert s[..i] == s;
      CrlfOfLine(s);
    } else {
      var first, rest := s[..i], s[i + 1..];
      assert s == first + "\n" + rest;
      CrlfLines(rest);
      CrlfFirst(first, rest);
      SplitLine(first, rest);
      SplitLine(first + "\r", Crlf(rest));
      ChompReturn(first);
      ChompedFirst(first, Split(rest));
      ChompedFirst(first + "\r", Split(Crlf(rest)));
    }
  }

  lemma {:induction false} AllowedAppend(a: string, b: string)
    ensures AllAllowed(a + b) <==> AllAllowed(a) && AllAllowed(b)
  {
    assert forall k | 0 <= k < |a| :: (a + b)[k] == a[k];
    assert forall k | 0 <= k < |b| :: (a + b)[|a| + k] == b[k];
  }

  lemma {:induction false} CrlfAllowed(s: string)
    ensures AllAllowed(Crlf(s)) <==> AllAllowed(s)
  {
    if s != "" {
      CrlfAllowed(s[1..]);
      AllowedAppend([s[0]], s[1..]);
      assert [s[0]] + s[1..] == s;
      AllowedAppend(if s[0] == '\n' then "\r\n" else [s[0]], Crlf(s[1..]));
    }
  }

  /** A paragraph reads the same with either line ending, in either reader. */
  lemma {:induction false} CrlfFields(d: Dialect, s: string)
    requires '\r' !in s
    ensures ParseFields(d, Crlf(s)) == ParseFields(d, s)
  {
    CrlfAllowed(s);
    CrlfLines(s);
  }

  /** Up to two carriage returns at the end of each line. */
  function Trailing(count: nat): string { if count == 0 then "" else if count == 1 then "\r" else "\r\r" }

  lemma {:induction false} ChompTrailing(line: string, count: nat)
    requires '\r' !in line
    ensures Chomp(line + Trailing(count)) == line
  {
    ChompReturn(line);
    if count == 0 {
      assert line + "" == line;
    } else if count > 1 {
      var t := line + "\r\r";
      assert DropReturn(t) == line + "\r" && DropReturn(line + "\r") == line;
    }
  }

  function WithReturns(ls: seq<string>, counts: seq<nat>): seq<string>
    requires |counts| == |ls|
  {
    if ls == [] then [] else [ls[0] + Trailing(counts[0])] + WithReturns(ls[1..], counts[1..])
  }

  /** However many of up to two carriage returns end each line, the same fields are read: the scanner
      drops one and the reader another. */
  lemma {:induction false} ReturnsAreDropped(ls: seq<string>, counts: seq<nat>)
    requires |counts| == |ls| && forall i | 0 <= i < |ls| :: '\r' !in ls[i]
    ensures forall d :: ReadAll(d, WithReturns(ls, counts)) == ReadAll(d, ls)
  {
    SameChomped(ls, counts);
  }

  lemma {:induction false} SameChomped(ls: seq<string>, counts: seq<nat>)
    requires |counts| == |ls| && forall i | 0 <= i < |ls| :: '\r' !in ls[i]
    ensures Chomped(WithReturns(ls, counts)) == Chomped(ls)
  {
    if ls != [] {
      ChompTrailing(ls[0], counts[0]);
      ChompTrailing(ls[0], 0);
      assert ls[0] + "" == ls[0];
      SameChomped(ls[1..], counts[1..]);
      ChompedFirst(ls[0] + Trailing(counts[0]), WithReturns(ls[1..], counts[1..]));
    }
  }

  // ----- paragraphs -----

  /** Every newline has a carriage return before it. */
  predicate Returned(t: string) { forall k | 0 <= k < |t| && t[k] == '\n' :: k > 0 && t[k - 1] == '\r' }

  lemma {:induction false} CrlfIsReturned(s: string)
    ensures Returned(Crlf(s))
  {
    if s != "" {
      CrlfIsReturned(s[1..]);
      var head, rest := if s[0] == '\n' then "\r\n" else [s[0]], Crlf(s[1..]);
      forall k | 0 <= k < |head + rest| && (head + rest)[k] == '\n' ensures k > 0 && (head + rest)[k - 1] == '\r' {
        if k >= |head| {
          assert rest[k - |head|] == '\n';
        }
      }
    }
  }

  lemma {:induction false} NoBlankLine(s: string)
    requires '\r' !in s
    ensures BlankLine(Crlf(s)) == |Crlf(s)| && BlankCrlf(s) == |s|
  {
    CrlfIsReturned(s);
  }

  lemma {:induction false} PastOne(c: char, t: string)
    requires c != '\r'
    ensures BlankCrlf([c] + t) == 1 + BlankCrlf(t)
  {
    assert ([c] + t)[1..] == t;
  }

  lemma {:induction false} PastNewline(t: string)
    requires !("\r\n" <= t)
    ensures BlankCrlf("\r\n" + t) == 2 + BlankCrlf(t)
  {
    var u := "\r\n" + t;
    assert u[1..] == ['\n'] + t;
    PastOne('\n', t);
    assert |t| >= 2 ==> t[..2] == u[2..4];
  }

  /** The first blank line of the one is where that of the other is. */
  lemma {:induction false} SameBlank(s: string)
    requires '\r' !in s
    ensures var i := BlankLine(s); BlankCrlf(Crlf(s)) == |Crlf(s[..i])| && (i == |s| ==> s[..i] == s)
  {
    if s != "" {
      var c, rest := s[0], s[1..];
      SameBlank(rest);
      var i := BlankLine(rest);
      if |s| >= 2 && c == '\n' && s[1] == '\n' {
        assert Crlf(s) == "\r\n" + Crlf(rest) && Crlf(rest) == "\r\n" + Crlf(rest[1..]);
        assert Crlf(s)[..4] == "\r\n\r\n";
        assert s[..0] == "";
      } else {
        assert BlankLine(s) == 1 + i;
        assert s[..1 + i] == [c] + rest[..i];
        assert s[..1 + i][1..] == rest[..i];
        if c == '\n' {
          assert !("\r\n" <= Crlf(rest)) by {
            assert rest != "" ==> Crlf(rest)[0] == rest[0];
          }
          PastNewline(Crlf(rest));
        } else {
          assert s[0] in s;
          PastOne(c, Crlf(rest));
        }
      }
    }
  }

  function CrlfAll(ps: seq<string>): (cs: seq<string>)
    ensures |cs| == |ps|
  {
    if ps == [] then [] else [Crlf(ps[0])] + CrlfAll(ps[1..])
  }

  lemma {:induction false} CrlfLonger(s: string)
    ensures |Crlf(s)| >= |s|
  {
    if s != "" {
      CrlfLonger(s[1..]);
    }
  }

  /** An index falls into the same paragraphs with either line ending. */
  lemma {:induction false} SameParagraphs(s: string)
    requires '\r' !in s
    ensures Paragraphs(Crlf(s)) == CrlfAll(Paragraphs(s))
    decreases |s|
  {
    if s != "" {
      var i, t := BlankLine(s), Crlf(s);
      NoBlankLine(s);
      SameBlank(s);
      CrlfLonger(s);
      if i == |s| {
        assert Paragraphs(s) == [s];
      } else {
        var first, rest := s[..i], s[i + 2..];
        assert s == first + ("\n\n" + rest);
        CrlfAppend(first, "\n\n" + rest);
        CrlfTwo(rest);
        assert t == Crlf(first) + ("\r\n\r\n" + Crlf(rest));
        assert t[..|Crlf(first)|] == Crlf(first) && t[|Crlf(first)| + 4..] == Crlf(rest);
        SameParagraphs(rest);
        assert Paragraphs(s) == [first] + Paragraphs(rest);
      }
    }
  }

  lemma {:induction false} CrlfTwo(rest: string)
    ensures Crlf("\n\n" + rest) == "\r\n\r\n" + Crlf(rest)
  {
    assert ("\n\n" + rest)[1..] == "\n" + rest && ("\n" + rest)[1..] == rest;
  }

  // ----- trimming -----

  lemma {:induction false} CrlfTrimLeft(s: string)
    requires '\r' !in s
    ensures TrimLeft(Crlf(s)) == Crlf(TrimLeft(s)) && '\r' !in TrimLeft(s)
  {
    if s != "" && IsSpace(s[0]) {
      CrlfTrimLeft(s[1..]);
      if s[0] == '\n' {
        var rest := Crlf(s[1..]);
        assert ("\r\n" + rest)[1..] == "\n" + rest && ("\n" + rest)[1..] == rest;
        assert TrimLeft("\n" + rest) == TrimLeft(rest);
      } else {
        assert Crlf(s)[1..] == Crlf(s[1..]);
      }
    }
  }

  lemma {:induction false} CrlfLast(front: string, c: char)
    ensures Crlf(front + [c]) == Crlf(front) + if c == '\n' then "\r\n" else [c]
  {
    CrlfAppend(front, [c]);
    assert [c][1..] == "";
  }

  lemma {:induction false} CrlfTrimLast(front: string, c: char)
    ensures IsSpace(c) ==> TrimRight(front + [c]) == TrimRight(front) && TrimRight(Crlf(front + [c])) == TrimRight(Crlf(front))
    ensures !IsSpace(c) ==> TrimRight(front + [c]) == front + [c] && TrimRight(Crlf(front + [c])) == Crlf(front + [c])
  {
    CrlfLast(front, c);
    if c == '\n' {
      TrimOne(front, c);
      TrimTwo(Crlf(front));
    } else if IsSpace(c) {
      TrimOne(front, c);
      TrimOne(Crlf(front), c);
    }
  }

  lemma {:induction false} CrlfTrimRight(s: string)
    requires '\r' !in s
    ensures TrimRight(Crlf(s)) == Crlf(TrimRight(s)) && '\r' !in TrimRight(s)
    decreases |s|
  {
    if s != "" {
      var n := |s| - 1;
      assert s == s[..n] + [s[n]];
      CrlfTrimRight(s[..n]);
      CrlfTrimLast(s[..n], s[n]);
    }
  }

  lemma {:induction false} TrimOne(t: string, c: char)
    requires IsSpace(c)
    ensures TrimRight(t + [c]) == TrimRight(t)
  {
    assert (t + [c])[..|t|] == t;
  }

  lemma {:induction false} TrimTwo(t: string)
    ensures TrimRight(t + "\r\n") == TrimRight(t)
  {
    assert t + "\r\n" == (t + ['\r']) + ['\n'];
    TrimOne(t + ['\r'], '\n');
    TrimOne(t, '\r');
  }

  lemma {:induction false} CrlfParagraph(safe: string -> bool, p: string)
    requires '\r' !in p
    ensures ReadParagraph(safe, Crlf(p)) == ReadParagraph(safe, p)
  {
    CrlfTrimLeft(p);
    CrlfTrimRight(TrimLeft(p));
    var text := TrimSpace(p);
    CrlfLonger(text);
    CrlfFields(Repository, text);
  }

  lemma {:induction false} ParagraphsAreClean(s: string)
    requires '\r' !in s
    ensures forall i | 0 <= i < |Paragraphs(s)| :: '\r' !in Paragraphs(s)[i]
    decreases |s|
  {
    if s != "" {
      var i := BlankLine(s);
      NoBlankLine(s);
      if i < |s| {
        ParagraphsAreClean(s[i + 2..]);
        assert Paragraphs(s) == [s[..i]] + Paragraphs(s[i + 2..]);
      }
    }
  }

  lemma {:induction false} SameReadings(safe: string -> bool, ps: seq<string>)
    requires forall i | 0 <= i < |ps| :: '\r' !in ps[i]
    ensures Readings(Reader(safe), CrlfAll(ps)) == Readings(Reader(safe), ps)
  {
    if ps != [] {
      CrlfParagraph(safe, ps[0]);
      SameReadings(safe, ps[1..]);
      assert CrlfAll(ps)[1..] == CrlfAll(ps[1..]);
    }
  }

  /** Every index reads the same, or is refused the same, with either line ending. */
  lemma {:induction false} LineEndingsDoNotMatter(safe: string -> bool, content: string)
    requires '\r' !in content
    ensures ParsePackages(safe, Crlf(content)) == ParsePackages(safe, content)
  {
    SameParagraphs(content);
    ParagraphsAreClean(content);
    SameReadings(safe, Paragraphs(content));
  }
}
