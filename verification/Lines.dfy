/** Text as lines. */
module Lines {
  predicate OneLine(s: string) { '\n' !in s }

  predicate OneLines(ls: seq<string>) { forall i | 0 <= i < |ls| :: OneLine(ls[i]) }

  /** The first newline of s, or its length. */
  function LineEnd(s: string): (i: nat)
    ensures i <= |s| && OneLine(s[..i]) && (i < |s| ==> s[i] == '\n')
  {
    if s == "" || s[0] == '\n' then 0
    else
      var i := 1 + LineEnd(s[1..]);
      assert s[..i] == [s[0]] + s[1..][..i - 1];
      i
  }

  /** strings.Split(s, "\n"). Reading lines with a scanner gives the same ones, without
      the empty one after a final newline. */
  function Split(s: string): (ls: seq<string>)
    ensures |ls| > 0 && OneLines(ls)
  {
    var i := LineEnd(s);
    if i == |s| then assert s[..i] == s; [s] else [s[..i]] + Split(s[i + 1..])
  }

  /** The lines, each ended with a newline. */
  function Text(ls: seq<string>): string {
    if ls == [] then "" else ls[0] + "\n" + Text(ls[1..])
  }

  lemma {:induction false} LineEndOf(a: string, b: string)
    requires OneLine(a)
    ensures LineEnd(a + "\n" + b) == |a|
  {
    if a != "" {
      LineEndOf(a[1..], b);
      assert (a + "\n" + b)[1..] == a[1..] + "\n" + b;
    }
  }

  lemma SplitLine(a: string, b: string)
    requires OneLine(a)
    ensures Split(a + "\n" + b) == [a] + Split(b)
  {
    LineEndOf(a, b);
    var s := a + "\n" + b;
    assert s[..|a|] == a && s[|a| + 1..] == b;
  }

  lemma SplitOneLine(a: string)
    requires OneLine(a)
    ensures Split(a) == [a]
  {
    assert LineEnd(a) == |a|;
  }

  lemma Glue(x: string, y: string, z: string)
    ensures (x + "\n" + y) + z == x + "\n" + (y + z)
    ensures (x + "\n" + y) + "\n" + z == x + "\n" + (y + "\n" + z)
  {
  }

  lemma {:induction false} SplitFirst(s: string)
    requires LineEnd(s) < |s|
    ensures var i := LineEnd(s); Split(s) == [s[..i]] + Split(s[i + 1..]) && s == s[..i] + "\n" + s[i + 1..] && OneLine(s[..i])
  {
  }

  /** Splitting at a newline between the parts. */
  lemma {:induction false} SplitAppend(a: string, b: string)
    ensures Split(a + "\n" + b) == Split(a) + Split(b)
    decreases |a|
  {
    var i := LineEnd(a);
    if i == |a| {
      assert a[..i] == a;
      SplitOneLine(a);
      SplitLine(a, b);
    } else {
      var first, rest := a[..i], a[i + 1..];
      SplitFirst(a);
      Glue(first, rest, b);
      SplitLine(first, rest + "\n" + b);
      SplitAppend(rest, b);
      Regroup([first], Split(rest), Split(b));
    }
  }

  lemma {:induction false} Regroup(a: seq<string>, b: seq<string>, c: seq<string>)
    ensures (a + b) + c == a + (b + c)
  {
  }

  lemma Cons(ls: seq<string>, more: seq<string>)
    requires ls != []
    ensures [ls[0]] + (ls[1..] + more) == ls + more
  {
  }

  /** Reading back written lines. */
  lemma {:induction false} SplitText(ls: seq<string>, rest: string)
    requires OneLines(ls)
    ensures Split(Text(ls) + rest) == ls + Split(rest)
  {
    if ls == [] {
      assert Text(ls) + rest == rest && ls + Split(rest) == Split(rest);
    } else {
      var first, t := ls[0], Text(ls[1..]);
      assert OneLines(ls[1..]);
      SplitText(ls[1..], rest);
      SplitLine(first, t + rest);
      Glue(first, t, rest);
      Cons(ls, Split(rest));
    }
  }

  lemma {:induction false} TextAppend(a: seq<string>, b: seq<string>)
    ensures Text(a + b) == Text(a) + Text(b)
  {
    if a == [] {
      assert a + b == b;
    } else {
      TextAppend(a[1..], b);
      assert (a + b)[1..] == a[1..] + b;
      Glue(a[0], Text(a[1..]), Text(b));
    }
  }

  /** The parts between newlines of a joined text. */
  function Join(ls: seq<string>): string
    requires ls != []
  {
    if |ls| == 1 then ls[0] else ls[0] + "\n" + Join(ls[1..])
  }

  lemma {:induction false} JoinCons(first: string, rest: seq<string>)
    requires rest != []
    ensures Join([first] + rest) == first + "\n" + Join(rest)
  {
    assert ([first] + rest)[1..] == rest;
  }

  lemma {:induction false} JoinSplit(s: string)
    ensures Join(Split(s)) == s
  {
    var i := LineEnd(s);
    if i < |s| {
      JoinSplit(s[i + 1..]);
      SplitFirst(s);
      JoinCons(s[..i], Split(s[i + 1..]));
    }
  }

  lemma {:induction false} SplitJoin(ls: seq<string>)
    requires ls != [] && OneLines(ls)
    ensures Split(Join(ls)) == ls
  {
    if |ls| == 1 {
      SplitOneLine(ls[0]);
    } else {
      SplitJoin(ls[1..]);
      SplitLine(ls[0], Join(ls[1..]));
    }
  }

  // ----- white space -----

  /** unicode.IsSpace */
  predicate IsSpace(c: char) {
    c in " \t\n\r" || c as int in {0x0B, 0x0C, 0x85, 0xA0, 0x1680, 0x2028, 0x2029, 0x202F, 0x205F, 0x3000}
    || 0x2000 <= c as int <= 0x200A
  }

  function TrimLeft(s: string): (t: string)
    ensures t == "" || !IsSpace(t[0])
    ensures |t| <= |s| && forall c | c in t :: c in s
  {
    if s != "" && IsSpace(s[0]) then TrimLeft(s[1..]) else s
  }

  function TrimRight(s: string): (t: string)
    ensures t == "" || !IsSpace(t[|t| - 1])
    ensures t <= s
  {
    if s != "" && IsSpace(s[|s| - 1]) then TrimRight(s[..|s| - 1]) else s
  }

  /** strings.TrimSpace */
  function TrimSpace(s: string): string { TrimRight(TrimLeft(s)) }

  predicate Trimmed(s: string) { s == "" || (!IsSpace(s[0]) && !IsSpace(s[|s| - 1])) }

  /** A trimmed text after one space is read back. */
  lemma TrimSpaceAfterSpace(s: string)
    requires Trimmed(s)
    ensures TrimSpace(" " + s) == s
  {
    assert IsSpace(' ');
    assert (" " + s)[1..] == s && (" " + s)[0] == ' ';
    assert TrimLeft(" " + s) == TrimLeft(s) == s;
  }

  /** Trimming on the right stops at the last character that is not white space. */
  lemma {:induction false} TrimRightKeeps(a: string, b: string)
    requires exists c :: c in b && !IsSpace(c)
    ensures TrimRight(a + b) == a + TrimRight(b)
    decreases |b|
  {
    if IsSpace(b[|b| - 1]) {
      var shorter := b[..|b| - 1];
      assert b == shorter + [b[|b| - 1]];
      var c :| c in b && !IsSpace(c);
      assert c in shorter;
      TrimRightKeeps(a, shorter);
      assert (a + b)[..|a + b| - 1] == a + shorter;
    }
  }
}
