/** What an entry of the APKINDEX says to a reader that knows all its keys
    (formats/apk/render.go). */
module ApkIndexFields {
  import opened Wrappers
  import opened Lines
  import opened Integers
  import opened Splitting
  import opened ApkIndex

  /** The value of the first line with this key. */
  function Lookup(ls: seq<string>, key: char): Option<string> {
    if ls == [] then None
    else if |ls[0]| >= 2 && ls[0][0] == key && ls[0][1] == ':' then Some(ls[0][2..])
    else Lookup(ls[1..], key)
  }

  /** The value is told under the key, on one line; an empty one is not told. */
  predicate Tells(text: string, key: char, value: string) {
    Lookup(Split(text), key) == if value == "" then None else Some(Flat(value))
  }

  predicate DistinctKeys(fs: seq<Field>) { forall i, j | 0 <= i < j < |fs| :: fs[i].key != fs[j].key }

  /** The lines of a field before others. */
  lemma {:induction false} LookupFirst(f: Field, ls: seq<string>, key: char)
    ensures f.value == "" ==> FieldLine(f) + ls == ls
    ensures f.value != "" ==> Lookup(FieldLine(f) + ls, key) == if f.key == key then Some(Flat(f.value)) else Lookup(ls, key)
  {
    if f.value != "" {
      var line := [f.key] + ":" + Flat(f.value);
      assert FieldLine(f) + ls == [line] + ls && ([line] + ls)[1..] == ls;
      assert line[2..] == Flat(f.value);
    }
  }

  lemma {:induction false} NotUnder(fs: seq<Field>, key: char, more: seq<string>)
    requires forall i | 0 <= i < |fs| :: fs[i].key != key
    ensures Lookup(FieldLines(fs) + more, key) == Lookup(more, key)
  {
    if fs == [] {
      assert FieldLines(fs) + more == more;
    } else {
      NotUnder(fs[1..], key, more);
      LookupFirst(fs[0], FieldLines(fs[1..]) + more, key);
      Regroup(FieldLine(fs[0]), FieldLines(fs[1..]), more);
    }
  }

  lemma {:induction false} FieldIsFound(fs: seq<Field>, i: nat, more: seq<string>)
    requires i < |fs| && DistinctKeys(fs) && Lookup(more, fs[i].key) == None
    ensures Lookup(FieldLines(fs) + more, fs[i].key) == if fs[i].value == "" then None else Some(Flat(fs[i].value))
  {
    var rest := fs[1..];
    LookupFirst(fs[0], FieldLines(rest) + more, fs[i].key);
    Regroup(FieldLine(fs[0]), FieldLines(rest), more);
    if i == 0 {
      NotUnder(rest, fs[0].key, more);
    } else {
      FieldIsFound(rest, i - 1, more);
    }
  }

  lemma {:induction false} FieldsAreLines(fs: seq<Field>)
    requires forall i | 0 <= i < |fs| :: fs[i].key != '\n'
    ensures OneLines(FieldLines(fs))
  {
    if fs != [] {
      FieldsAreLines(fs[1..]);
      assert OneLines(FieldLine(fs[0]));
    }
  }

  lemma {:induction false} FieldIsTold(p: Package, i: nat)
    requires i < |Fields(p)| && DistinctKeys(Fields(p)) && forall j | 0 <= j < |Fields(p)| :: Fields(p)[j].key != '\n'
    ensures Tells(Text(EntryLines(p)), Fields(p)[i].key, Fields(p)[i].value)
  {
    var fs := Fields(p);
    FieldLinesAppend(Facts(p), FreeText(p));
    FieldsAreLines(fs);
    SplitText(FieldLines(fs), "");
    SplitOneLine("");
    assert Text(FieldLines(fs)) + "" == Text(FieldLines(fs));
    FieldIsFound(fs, i, [""]);
  }

  /** The place of a key among the lines of an entry. */
  function Place(key: char): int {
    match key
    case 'C' => 0 case 'P' => 1 case 'V' => 2 case 'A' => 3 case 'S' => 4 case 'I' => 5 case 'T' => 6
    case 'U' => 7 case 'L' => 8 case 'o' => 9 case 'm' => 10 case 't' => 11 case 'D' => 12 case 'p' => 13
    case _ => -1
  }

  lemma {:induction false} KeysDiffer(p: Package)
    ensures DistinctKeys(Fields(p)) && forall j | 0 <= j < |Fields(p)| :: Fields(p)[j].key != '\n'
  {
    assert forall i | 0 <= i < |Fields(p)| :: Place(Fields(p)[i].key) == i;
  }

  /** An entry tells each of a package's values under its own key, whatever the others are; a build
      time only if it is positive, dependencies and provides as words. */
  lemma {:induction false} EntryTells(p: Package)
    ensures var text := Text(EntryLines(p));
            && Tells(text, 'C', p.checksum) && Tells(text, 'P', p.name) && Tells(text, 'V', p.version)
            && Tells(text, 'A', p.architecture) && Tells(text, 'S', FormatInt(p.size)) && Tells(text, 'I', FormatInt(p.installedSize))
            && Tells(text, 'T', p.description) && Tells(text, 'U', p.url) && Tells(text, 'L', p.license)
            && Tells(text, 'o', p.origin) && Tells(text, 'm', p.maintainer)
            && Tells(text, 't', if p.buildTime > 0 then FormatInt(p.buildTime) else "")
            && Tells(text, 'D', Words(p.depends)) && Tells(text, 'p', Words(p.provided))
  {
    KeysDiffer(p);
    forall i: nat | i < 14 ensures Tells(Text(EntryLines(p)), Fields(p)[i].key, Fields(p)[i].value) {
      FieldIsTold(p, i);
    }
    var fs := Fields(p);
    assert fs[0].key == 'C' && fs[1].key == 'P' && fs[2].key == 'V' && fs[3].key == 'A' && fs[4].key == 'S' && fs[5].key == 'I';
    assert fs[6].key == 'T' && fs[7].key == 'U' && fs[8].key == 'L' && fs[9].key == 'o' && fs[10].key == 'm' && fs[11].key == 't';
    assert fs[12].key == 'D' && fs[13].key == 'p';
  }

  // ----- checksums -----

  /** A checksum is read as the twenty bytes that base64 makes of it after its prefix; anything else,
      and any other checksum, is read as no digest. */
  lemma {:induction false} ChecksumReads(base64: string -> Option<seq<bv8>>, text: string, other: string, digest: seq<bv8>)
    requires !("Q1" <= other)
    ensures base64(text) == Some(digest) && |digest| == 20 ==> DecodeQ1(base64, "Q1" + text) == digest
    ensures base64(text).None? || |base64(text).value| != 20 ==> DecodeQ1(base64, "Q1" + text) == []
    ensures DecodeQ1(base64, other) == []
  {
    assert ("Q1" + text)[..2] == "Q1" && ("Q1" + text)[2..] == text;
    assert |other| >= 2 && other[..2] == "Q1" ==> "Q1" <= other;
  }

  // ----- words -----

  lemma {:induction false} WordsAreJoined(ws: seq<string>)
    ensures Words(ws) == JoinBy(ws, ' ')
  {
    if |ws| > 1 {
      WordsAreJoined(ws[1..]);
    }
  }

  /** The words told under 'D' and 'p' are the package's own. */
  lemma {:induction false} WordsReadBack(ws: seq<string>)
    requires ws != [] && Without(ws, ' ')
    ensures SplitBy(Words(ws), ' ') == ws
  {
    WordsAreJoined(ws);
    Splitting.SplitJoin(ws, ' ');
  }
}
