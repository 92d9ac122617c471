/** The order of raw artifact versions (formats/raw/version.go). SemVer parsing and
    comparison come from a library and are parameters here. */
module RawVersion {
  import opened Wrappers
  import opened Orders
  import opened Decimal

  const UINT64_LIMIT := 0x1_0000_0000_0000_0000

  predicate Separator(c: char) { c in ".-+~_" }

  /** splitVersion: the non-empty runs between separators. */
  function Fields(version: string): (fields: seq<string>)
    ensures forall f | f in fields :: f != ""
  {
    FieldsFrom("", version)
  }

  function FieldsFrom(field: string, rest: string): (fields: seq<string>)
    ensures forall f | f in fields :: f != ""
    decreases |rest|
  {
    var done := if field == "" then [] else [field];
    if rest == "" then done
    else if Separator(rest[0]) then done + FieldsFrom("", rest[1..])
    else FieldsFrom(field + [rest[0]], rest[1..])
  }

  /** strconv.ParseUint(s, 10, 64) */
  function ParseUint(s: string): Option<int> {
    if s != "" && Digits(s) && Value(s) < UINT64_LIMIT then Some(Value(s)) else None
  }

  /** A number ranks above a text; numbers by value, texts as text. */
  function CompareField(a: string, b: string): int {
    match (ParseUint(a), ParseUint(b))
    case (Some(x), Some(y)) => CompareInt(x, y)
    case (Some(_), None) => 1
    case (None, Some(_)) => -1
    case (None, None) => CompareText(a, b)
  }

  /** Field by field, the shorter version first. */
  function NaturalOrder(left: string, right: string): int { LexBy(CompareField, Fields(left), Fields(right)) }

  /** compareNatural */
  method CompareNatural(left: string, right: string) returns (order: int)
    ensures order == NaturalOrder(left, right)
  {
    var leftFields, rightFields := Fields(left), Fields(right);
    LexFromStart(CompareField, leftFields, rightFields);
    var index := 0;
    while index < |leftFields| || index < |rightFields|
      invariant index <= |leftFields| && index <= |rightFields|
      invariant NaturalOrder(left, right) == LexFrom(CompareField, leftFields, rightFields, index)
      decreases |leftFields| + |rightFields| - index
    {
      var leftField := if index < |leftFields| then leftFields[index] else "";
      var rightField := if index < |rightFields| then rightFields[index] else "";
      assert index < |leftFields| ==> leftField in leftFields;
      assert index < |rightFields| ==> rightField in rightFields;
      if leftField == "" {
        return -1;
      }
      if rightField == "" {
        return 1;
      }
      var leftNumber, rightNumber := ParseUint(leftField), ParseUint(rightField);
      if leftNumber.Some? && rightNumber.Some? {
        if leftNumber.value != rightNumber.value {
          return if leftNumber.value < rightNumber.value then -1 else 1;
        }
      } else if leftNumber.Some? {
        return 1;
      } else if rightNumber.Some? {
        return -1;
      } else {
        TextSign(leftField, rightField);
        if leftField != rightField {
          return if CompareText(leftField, rightField) < 0 then -1 else 1;
        }
      }
      index := index + 1;
    }
    return 0;
  }

  lemma FieldPreorder()
    ensures TotalPreorder(CompareField, (f: string) => true)
  {
    forall a, b, c
      ensures CompareField(a, b) == -CompareField(b, a)
      ensures Consistent(CompareField(a, b), CompareField(b, c), CompareField(a, c))
    {
      TextPreorder(a, b, c);
    }
  }

  /** The natural order is total and transitive on all strings. */
  lemma NaturalPreorder(a: string, b: string, c: string)
    ensures NaturalOrder(a, b) == -NaturalOrder(b, a)
    ensures Consistent(NaturalOrder(a, b), NaturalOrder(b, c), NaturalOrder(a, c))
  {
    FieldPreorder();
    var any := (f: string) => true;
    LexAnti(CompareField, any, Fields(a), Fields(b));
    LexTransitive(CompareField, any, Fields(a), Fields(b), Fields(c));
  }

  /** CompareVersions: SemVer versions among themselves, and below everything else. */
  function VersionOrder<V>(parse: string -> Option<V>, semver: (V, V) -> int, left: string, right: string): int {
    match (parse(left), parse(right))
    case (Some(l), Some(r)) => semver(l, r)
    case (Some(_), None) => -1
    case (None, Some(_)) => 1
    case (None, None) => NaturalOrder(left, right)
  }

  /** If SemVer comparison is a total preorder, so is the order of raw versions. */
  lemma VersionPreorder<V(!new)>(parse: string -> Option<V>, semver: (V, V) -> int, a: string, b: string, c: string)
    requires TotalPreorder(semver, (v: V) => true)
    ensures VersionOrder(parse, semver, a, b) == -VersionOrder(parse, semver, b, a)
    ensures Consistent(VersionOrder(parse, semver, a, b), VersionOrder(parse, semver, b, c), VersionOrder(parse, semver, a, c))
  {
    NaturalPreorder(a, b, c);
    NaturalPreorder(b, a, a);
  }

  /** CompareVersions */
  method CompareVersions<V>(parse: string -> Option<V>, semver: (V, V) -> int, left: string, right: string) returns (order: int)
    ensures order == VersionOrder(parse, semver, left, right)
  {
    var l, r := parse(left), parse(right);
    if l.Some? && r.Some? {
      return semver(l.value, r.value);
    }
    if l.Some? {
      return -1;
    }
    if r.Some? {
      return 1;
    }
    order := CompareNatural(left, right);
  }

  /** The two kinds of versions never mix: in every list in ascending order those of SemVer come
      first, however they compare among themselves. */
  lemma {:induction false} SemverComesFirst<V>(parse: string -> Option<V>, semver: (V, V) -> int, versions: seq<string>)
    returns (k: nat)
    requires forall i, j | 0 <= i < j < |versions| :: VersionOrder(parse, semver, versions[i], versions[j]) <= 0
    ensures k <= |versions|
    ensures (forall i | 0 <= i < k :: parse(versions[i]).Some?) && (forall i | k <= i < |versions| :: parse(versions[i]).None?)
  {
    if versions == [] || parse(versions[0]).None? {
      k := 0;
    } else {
      k := SemverComesFirst(parse, semver, versions[1..]);
      k := k + 1;
    }
  }

  // ----- what decides the natural order -----

  lemma {:induction false} FieldsFromCut(field: string, a: string, c: char, b: string)
    requires Separator(c)
    ensures FieldsFrom(field, a + [c] + b) == FieldsFrom(field, a) + Fields(b)
    decreases |a|
  {
    if a == "" {
      assert (a + [c] + b)[1..] == b;
    } else {
      assert (a + [c] + b)[1..] == a[1..] + [c] + b;
      if Separator(a[0]) {
        FieldsFromCut("", a[1..], c, b);
      } else {
        FieldsFromCut(field + [a[0]], a[1..], c, b);
      }
    }
  }

  lemma {:induction false} FieldGrows(field: string, rest: string)
    requires forall i | 0 <= i < |rest| :: !Separator(rest[i])
    ensures FieldsFrom(field, rest) == if field + rest == "" then [] else [field + rest]
    decreases |rest|
  {
    if rest == "" {
      assert field + rest == field;
    } else {
      FieldGrows(field + [rest[0]], rest[1..]);
      assert field + [rest[0]] + rest[1..] == field + rest;
    }
  }

  /** A version falls apart at each separator, and nowhere else. */
  lemma {:induction false} FieldsAtSeparators(a: string, c: char, b: string)
    requires Separator(c)
    ensures Fields(a + [c] + b) == Fields(a) + Fields(b)
    ensures (forall i | 0 <= i < |a| :: !Separator(a[i])) ==> Fields(a) == if a == "" then [] else [a]
  {
    FieldsFromCut("", a, c, b);
    if forall i | 0 <= i < |a| :: !Separator(a[i]) {
      FieldGrows("", a);
      assert "" + a == a;
    }
  }

  lemma {:induction false} FieldIsEven(f: string)
    ensures CompareField(f, f) == 0
  {
    TextPreorder(f, f, f);
  }

  lemma {:induction false} CommonFields(fs: seq<string>, gs: seq<string>, hs: seq<string>)
    ensures LexBy(CompareField, fs + gs, fs + hs) == LexBy(CompareField, gs, hs)
  {
    if fs == [] {
      assert fs + gs == gs && fs + hs == hs;
    } else {
      assert (fs + gs)[1..] == fs[1..] + gs && (fs + hs)[1..] == fs[1..] + hs;
      FieldIsEven(fs[0]);
      CommonFields(fs[1..], gs, hs);
    }
  }

  /** After a common start the rest decides, whatever the separators; a version that goes on is
      above one that ends. */
  lemma {:induction false} RestDecides(v: string, c: char, a: string, d: char, b: string)
    requires Separator(c) && Separator(d)
    ensures NaturalOrder(v + [c] + a, v + [d] + b) == NaturalOrder(a, b)
    ensures Fields(a) != [] ==> NaturalOrder(v + [c] + a, v) == 1
  {
    FieldsAtSeparators(v, c, a);
    FieldsAtSeparators(v, d, b);
    CommonFields(Fields(v), Fields(a), Fields(b));
    CommonFields(Fields(v), Fields(a), []);
    assert Fields(v) + [] == Fields(v);
  }

  /** One field, and not an empty one. */
  predicate Whole(f: string) { f != "" && forall i | 0 <= i < |f| :: !Separator(f[i]) }

  /** Two fields that differ decide: numbers by value, a number above a text, texts by code. */
  lemma {:induction false} FieldsDecide(f: string, c: char, a: string, g: string, d: char, b: string)
    requires Whole(f) && Whole(g) && Separator(c) && Separator(d)
    ensures var order := NaturalOrder(f + [c] + a, g + [d] + b);
            && (ParseUint(f).Some? && ParseUint(g).Some? && Value(f) < Value(g) ==> order == -1)
            && (ParseUint(f).Some? && ParseUint(g).Some? && Value(f) > Value(g) ==> order == 1)
            && (ParseUint(f).Some? && ParseUint(g).None? ==> order == 1)
            && (ParseUint(f).None? && ParseUint(g).Some? ==> order == -1)
            && (ParseUint(f).None? && ParseUint(g).None? && f != g ==> order == CompareText(f, g))
  {
    FieldsAtSeparators(f, c, a);
    FieldsAtSeparators(g, d, b);
    TextSign(f, g);
  }
}
