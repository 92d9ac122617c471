/** How an RPM's dependencies are carried through the lock (formats/rpm/render.go). */
module RpmDependencies {
  import opened Lines
  import opened Decimal
  import opened Integers

  datatype Dependency = Dependency(name: string, flags: int, version: string)

  predicate Int32(n: int) { -0x8000_0000 <= n < 0x8000_0000 }

  predicate AllInt32(ds: seq<Dependency>) { forall i | 0 <= i < |ds| :: Int32(ds[i].flags) }

  predicate Separable(s: string) { '\t' !in s && '\n' !in s }

  /** The entries the encoder keeps. */
  predicate Encodable(d: Dependency) { d.name != "" && Separable(d.name) && Separable(d.version) }

  function Kept(ds: seq<Dependency>): (ks: seq<Dependency>)
    ensures forall d | d in ks :: d in ds && Encodable(d)
    ensures forall d | d in ds && Encodable(d) :: d in ks
  {
    if ds == [] then []
    else
      var n := |ds| - 1;
      assert ds == ds[..n] + [ds[n]];
      if Encodable(ds[n]) then Kept(ds[..n]) + [ds[n]] else Kept(ds[..n])
  }

  function LineOf(d: Dependency): string { d.name + "\t" + FormatInt(d.flags) + "\t" + d.version }

  function LinesOf(ds: seq<Dependency>): (ls: seq<string>)
    ensures |ls| == |ds| && forall i | 0 <= i < |ds| :: ls[i] == LineOf(ds[i])
  {
    seq(|ds|, i requires 0 <= i < |ds| => LineOf(ds[i]))
  }

  /** The lines with a newline between two, or nothing. */
  function Joined(ls: seq<string>): string { if ls == [] then "" else Join(ls) }

  lemma {:induction false} JoinSnoc(ls: seq<string>, line: string)
    ensures Joined(ls + [line]) == if ls == [] then line else Joined(ls) + "\n" + line
  {
    if ls == [] {
      assert ls + [line] == [line];
    } else {
      assert (ls + [line])[1..] == ls[1..] + [line];
      if |ls| == 1 {
        JoinCons(ls[0], [line]);
        assert ls + [line] == [ls[0]] + [line];
      } else {
        JoinSnoc(ls[1..], line);
        Glue(ls[0], Join(ls[1..]), line);
      }
    }
  }

  lemma {:induction false} KeptSnoc(ds: seq<Dependency>, n: nat)
    requires n < |ds|
    ensures Kept(ds[..n + 1]) == if Encodable(ds[n]) then Kept(ds[..n]) + [ds[n]] else Kept(ds[..n])
  {
    assert ds[..n + 1][..n] == ds[..n];
  }

  function Encoded(ds: seq<Dependency>): string { Joined(LinesOf(Kept(ds))) }

  lemma {:induction false} EncodedSnoc(ds: seq<Dependency>, n: nat)
    requires n < |ds|
    ensures Encoded(ds[..n + 1]) ==
              if !Encodable(ds[n]) then Encoded(ds[..n])
              else if Encoded(ds[..n]) == "" then LineOf(ds[n])
              else Encoded(ds[..n]) + "\n" + LineOf(ds[n])
  {
    KeptSnoc(ds, n);
    var before := Kept(ds[..n]);
    if Encodable(ds[n]) {
      assert LinesOf(before + [ds[n]]) == LinesOf(before) + [LineOf(ds[n])];
      JoinSnoc(LinesOf(before), LineOf(ds[n]));
      if before != [] {
        assert before[0] in before && LinesOf(before)[0] == LineOf(before[0]);
        assert LineOf(before[0]) != "";
      }
    }
  }

  /** encodeDependencies */
  method EncodeDependencies(ds: seq<Dependency>) returns (encoded: string)
    ensures encoded == Encoded(ds)
  {
    encoded := "";
    assert ds[..0] == [];
    for i := 0 to |ds|
      invariant encoded == Encoded(ds[..i])
    {
      EncodedSnoc(ds, i);
      if !Encodable(ds[i]) {
        continue;
      }
      if encoded == "" {
        encoded := LineOf(ds[i]);
      } else {
        encoded := encoded + "\n" + LineOf(ds[i]);
      }
    }
    assert ds[..|ds|] == ds;
  }

  // ----- reading back -----

  /** The first tab of s, or its length. */
  function Tab(s: string): (i: nat)
    ensures i <= |s| && (i < |s| ==> s[i] == '\t')
  {
    if s == "" || s[0] == '\t' then 0 else 1 + Tab(s[1..])
  }

  /** strings.Split(s, "\t") */
  function Fields(s: string): (fs: seq<string>)
    ensures fs != []
  {
    var i := Tab(s);
    if i == |s| then [s] else [s[..i]] + Fields(s[i + 1..])
  }

  function DecodeLine(line: string): seq<Dependency> {
    var parts := Fields(line);
    if |parts| != 3 || parts[0] == "" then []
    else
      var flags := ParseInt(parts[1], 32);
      if flags.error.Some? then [] else [Dependency(parts[0], flags.value, parts[2])]
  }

  function DecodeLines(ls: seq<string>): seq<Dependency> {
    if ls == [] then [] else DecodeLines(ls[..|ls| - 1]) + DecodeLine(ls[|ls| - 1])
  }

  function Decoded(encoded: string): seq<Dependency> { if encoded == "" then [] else DecodeLines(Split(encoded)) }

  lemma {:induction false} DecodeSnoc(ls: seq<string>, n: nat)
    requires n < |ls|
    ensures DecodeLines(ls[..n + 1]) == DecodeLines(ls[..n]) + DecodeLine(ls[n])
  {
    assert ls[..n + 1][..n] == ls[..n];
  }

  /** decodeDependencies */
  method DecodeDependencies(encoded: string) returns (ds: seq<Dependency>)
    ensures ds == Decoded(encoded)
  {
    ds := [];
    if encoded == "" {
      return;
    }
    var lines := Split(encoded);
    assert lines[..0] == [];
    for i := 0 to |lines|
      invariant ds == DecodeLines(lines[..i])
    {
      DecodeSnoc(lines, i);
      var parts := Fields(lines[i]);
      if |parts| == 3 && parts[0] != "" {
        var flags := ParseInt(parts[1], 32);
        if flags.error.None? {
          ds := ds + [Dependency(parts[0], flags.value, parts[2])];
        }
      }
    }
    assert lines[..|lines|] == lines;
  }

  // ----- the round trip -----

  lemma {:induction false} TabAfter(a: string, b: string)
    requires '\t' !in a
    ensures Tab(a + "\t" + b) == |a| && Tab(a) == |a|
  {
    if a != "" {
      TabAfter(a[1..], b);
      assert (a + "\t" + b)[1..] == a[1..] + "\t" + b;
    }
  }

  lemma {:induction false} FieldsFirst(a: string, b: string)
    requires '\t' !in a
    ensures Fields(a + "\t" + b) == [a] + Fields(b) && Fields(a) == [a]
  {
    TabAfter(a, b);
    var s := a + "\t" + b;
    assert s[..|a|] == a && s[|a| + 1..] == b;
  }

  lemma {:induction false} GlueTabs(a: string, b: string, c: string)
    ensures a + "\t" + b + "\t" + c == a + "\t" + (b + "\t" + c)
  {
  }

  lemma {:induction false} FieldsOfThree(a: string, b: string, c: string)
    requires '\t' !in a && '\t' !in b && '\t' !in c
    ensures Fields(a + "\t" + b + "\t" + c) == [a, b, c]
  {
    GlueTabs(a, b, c);
    var rest := b + "\t" + c;
    FieldsFirst(a, rest);
    FieldsFirst(b, c);
    FieldsFirst(c, "");
  }

  lemma {:induction false} NumberIsSeparable(n: int)
    ensures Separable(FormatInt(n))
  {
    var s := FormatInt(n);
    assert forall i | 0 <= i < |s| :: s[i] == '-' || IsDigit(s[i]);
  }

  lemma {:induction false} LineReadsBack(d: Dependency)
    requires Encodable(d) && Int32(d.flags)
    ensures DecodeLine(LineOf(d)) == [d] && OneLine(LineOf(d))
  {
    NumberIsSeparable(d.flags);
    FieldsOfThree(d.name, FormatInt(d.flags), d.version);
    WordSizes();
    ParseFormatInt(d.flags, 32);
  }

  predicate AllKept(ds: seq<Dependency>) { forall i | 0 <= i < |ds| :: Encodable(ds[i]) && Int32(ds[i].flags) }

  /** Lines that read as these entries, one each. */
  predicate ReadAs(ls: seq<string>, ds: seq<Dependency>) {
    |ls| == |ds| && forall i | 0 <= i < |ls| :: DecodeLine(ls[i]) == [ds[i]]
  }

  lemma {:induction false} ReadAsFront(ls: seq<string>, ds: seq<Dependency>, n: nat)
    requires ReadAs(ls, ds) && n <= |ls|
    ensures ReadAs(ls[..n], ds[..n])
  {
  }

  lemma {:induction false} DecodeEach(ls: seq<string>, ds: seq<Dependency>)
    requires ReadAs(ls, ds)
    ensures DecodeLines(ls) == ds
  {
    if ls != [] {
      var n := |ls| - 1;
      ReadAsFront(ls, ds, n);
      DecodeEach(ls[..n], ds[..n]);
      assert ls[..n + 1] == ls;
      DecodeSnoc(ls, n);
      assert ds[..n] + [ds[n]] == ds;
    }
  }

  lemma {:induction false} LinesReadBack(ds: seq<Dependency>)
    requires AllKept(ds)
    ensures DecodeLines(LinesOf(ds)) == ds && OneLines(LinesOf(ds))
  {
    var ls := LinesOf(ds);
    forall i | 0 <= i < |ds| ensures DecodeLine(ls[i]) == [ds[i]] && OneLine(ls[i]) {
      LineReadsBack(ds[i]);
    }
    DecodeEach(ls, ds);
  }

  lemma {:induction false} KeptAreKept(ds: seq<Dependency>)
    requires AllInt32(ds)
    ensures AllKept(Kept(ds))
  {
    var ks := Kept(ds);
    forall i | 0 <= i < |ks| ensures Encodable(ks[i]) && Int32(ks[i].flags) {
      assert ks[i] in ks && ks[i] in ds;
    }
  }

  /** Decoding gives back what was encoded, in order, minus exactly the entries without a
      name or with a separator in their text. */
  lemma {:induction false} DependenciesRoundTrip(ds: seq<Dependency>)
    requires AllInt32(ds)
    ensures Decoded(Encoded(ds)) == Kept(ds)
  {
    var ks := Kept(ds);
    KeptAreKept(ds);
    LinesReadBack(ks);
    if ks != [] {
      assert LinesOf(ks)[0] == LineOf(ks[0]) && LineOf(ks[0]) != "";
      SplitJoin(LinesOf(ks));
    }
  }

  /** Nothing is lost exactly when every entry has a name and no separators. */
  lemma {:induction false} NothingLost(ds: seq<Dependency>)
    requires AllInt32(ds)
    ensures Decoded(Encoded(ds)) == ds <==> forall d | d in ds :: Encodable(d)
  {
    DependenciesRoundTrip(ds);
    if forall d | d in ds :: Encodable(d) {
      KeepAll(ds);
    }
  }

  lemma {:induction false} KeepAll(ds: seq<Dependency>)
    requires forall d | d in ds :: Encodable(d)
    ensures Kept(ds) == ds
  {
    if ds != [] {
      var n := |ds| - 1;
      assert ds[n] in ds && ds == ds[..n] + [ds[n]];
      KeepAll(ds[..n]);
    }
  }
}
