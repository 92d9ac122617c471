/** Text split at one character, and joined with it. */
module Splitting {
  /** strings.Split */
  function SplitBy(s: string, c: char): (ws: seq<string>)
    ensures ws != []
  {
    if s == "" then [""]
    else
      var rest := SplitBy(s[1..], c);
      if s[0] == c then [""] + rest else [[s[0]] + rest[0]] + rest[1..]
  }

  /** strings.Join */
  function JoinBy(ws: seq<string>, c: char): string {
    if ws == [] then "" else if |ws| == 1 then ws[0] else ws[0] + [c] + JoinBy(ws[1..], c)
  }

  predicate Without(ws: seq<string>, c: char) { forall i | 0 <= i < |ws| :: c !in ws[i] }

  lemma {:induction false} FirstPart(w: string, c: char, s: string)
    requires c !in w
    ensures SplitBy(w, c) == [w] && SplitBy(w + [c] + s, c) == [w] + SplitBy(s, c)
  {
    if w == "" {
      assert (w + [c] + s)[1..] == s;
    } else {
      FirstPart(w[1..], c, s);
      assert (w + [c] + s)[1..] == w[1..] + [c] + s;
      assert w[0] in w;
      assert [w[0]] + w[1..] == w;
    }
  }

  /** Splitting gives back what was joined, if the character is in none of it. */
  lemma {:induction false} SplitJoin(ws: seq<string>, c: char)
    requires ws != [] && Without(ws, c)
    ensures SplitBy(JoinBy(ws, c), c) == ws
  {
    if |ws| == 1 {
      FirstPart(ws[0], c, "");
    } else {
      FirstPart(ws[0], c, JoinBy(ws[1..], c));
      SplitJoin(ws[1..], c);
    }
  }

  /** Joining gives back what was split. */
  lemma {:induction false} JoinSplit(s: string, c: char)
    ensures JoinBy(SplitBy(s, c), c) == s && Without(SplitBy(s, c), c)
  {
    if s != "" {
      var rest := SplitBy(s[1..], c);
      JoinSplit(s[1..], c);
      if s[0] == c {
        assert ([""] + rest)[1..] == rest;
        assert "" + [c] + s[1..] == s;
      } else {
        var ws := [[s[0]] + rest[0]] + rest[1..];
        assert |rest| > 1 ==> ws[1..] == rest[1..] && JoinBy(ws, c) == [s[0]] + (rest[0] + [c] + JoinBy(rest[1..], c));
        assert [s[0]] + s[1..] == s;
      }
    }
  }
}
