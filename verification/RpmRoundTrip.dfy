/** An RPM header as the file format lays it out, and what the reader makes of it
    (formats/rpm/inspect.go). */
module RpmRoundTrip {
  import opened RpmDependencies
  import opened RpmHeader

  /** The number in n bytes, the last one the least significant. */
  function BigEndian(v: nat, n: nat): (bytes: seq<byte>)
    ensures |bytes| == n
  {
    if n == 0 then [] else BigEndian(v / 256, n - 1) + [(v % 256) as byte]
  }

  lemma {:induction false} FourBytes(v: nat)
    requires v < TWO_TO_32
    ensures var b := BigEndian(v, 4);
            b[3] as int == v % 256 && b[2] as int == v / 256 % 256 && b[1] as int == v / 256 / 256 % 256 && b[0] as int == v / 256 / 256 / 256
  {
    assert BigEndian(v / 256 / 256 / 256 / 256, 0) == [];
    assert BigEndian(v / 256 / 256 / 256, 1) == [(v / 256 / 256 / 256 % 256) as byte];
    assert BigEndian(v / 256 / 256, 2) == BigEndian(v / 256 / 256 / 256, 1) + [(v / 256 / 256 % 256) as byte];
    assert BigEndian(v / 256, 3) == BigEndian(v / 256 / 256, 2) + [(v / 256 % 256) as byte];
  }

  /** A number is read back from wherever its four bytes lie. */
  lemma {:induction false} NumberReadsBack(v: nat, bytes: seq<byte>, at: nat)
    requires v < TWO_TO_32 && at + 4 <= |bytes| && bytes[at..at + 4] == BigEndian(v, 4)
    ensures Uint32(bytes, at) == v
  {
    FourBytes(v);
    var b := bytes[at..at + 4];
    assert b[0] == bytes[at] && b[1] == bytes[at + 1] && b[2] == bytes[at + 2] && b[3] == bytes[at + 3];
  }

  /** Two's complement. */
  function Unsigned(v: int): nat
    requires Int32(v)
  {
    if v < 0 then v + TWO_TO_32 else v
  }

  lemma {:induction false} SignedReadsBack(v: int, bytes: seq<byte>, at: nat)
    requires Int32(v) && at + 4 <= |bytes| && bytes[at..at + 4] == BigEndian(Unsigned(v), 4)
    ensures SignedAt(bytes, at) == v
  {
    NumberReadsBack(Unsigned(v), bytes, at);
  }

  // ----- the index -----

  datatype Tagged = Tagged(tag: nat, entry: Entry) {
    predicate InRange() {
      tag < TWO_TO_32 && 0 <= entry.kind < TWO_TO_32 && 0 <= entry.offset < TWO_TO_32 && 0 <= entry.count < TWO_TO_32
    }
  }

  /** Tag, type, offset and count of a value. */
  function IndexEntry(t: Tagged): (bytes: seq<byte>)
    requires t.InRange()
    ensures |bytes| == 16
  {
    BigEndian(t.tag, 4) + BigEndian(t.entry.kind, 4) + BigEndian(t.entry.offset, 4) + BigEndian(t.entry.count, 4)
  }

  function Index(ts: seq<Tagged>): (bytes: seq<byte>)
    requires forall i | 0 <= i < |ts| :: ts[i].InRange()
    ensures |bytes| == 16 * |ts|
  {
    if ts == [] then [] else Index(ts[..|ts| - 1]) + IndexEntry(ts[|ts| - 1])
  }

  lemma {:induction false} EntryReadsBack(t: Tagged, index: seq<byte>, k: nat)
    requires t.InRange() && 16 * k + 16 <= |index| && index[16 * k..16 * k + 16] == IndexEntry(t)
    ensures TagAt(index, k) == t.tag && EntryAt(index, k) == t.entry
  {
    var at, bytes := 16 * k, IndexEntry(t);
    assert index[at..at + 4] == bytes[..4] == BigEndian(t.tag, 4);
    assert index[at + 4..at + 8] == bytes[4..8] == BigEndian(t.entry.kind, 4);
    assert index[at + 8..at + 12] == bytes[8..12] == BigEndian(t.entry.offset, 4);
    assert index[at + 12..at + 16] == bytes[12..16] == BigEndian(t.entry.count, 4);
    NumberReadsBack(t.tag, index, at);
    NumberReadsBack(t.entry.kind, index, at + 4);
    NumberReadsBack(t.entry.offset, index, at + 8);
    NumberReadsBack(t.entry.count, index, at + 12);
  }

  lemma {:induction false} IndexHolds(ts: seq<Tagged>, k: nat)
    requires (forall i | 0 <= i < |ts| :: ts[i].InRange()) && k < |ts|
    ensures Index(ts)[16 * k..16 * k + 16] == IndexEntry(ts[k])
  {
    var n := |ts| - 1;
    if k < n {
      IndexHolds(ts[..n], k);
      assert Index(ts)[16 * k..16 * k + 16] == Index(ts[..n])[16 * k..16 * k + 16];
    }
  }

  lemma {:induction false} IndexReadsBack(ts: seq<Tagged>, k: nat)
    requires (forall i | 0 <= i < |ts| :: ts[i].InRange()) && k < |ts|
    ensures TagAt(Index(ts), k) == ts[k].tag && EntryAt(Index(ts), k) == ts[k].entry
  {
    IndexHolds(ts, k);
    EntryReadsBack(ts[k], Index(ts), k);
  }

  // ----- the header -----

  /** Magic, four reserved bytes and the two counts. */
  function Prologue(reserved: seq<byte>, count: nat, size: nat): (bytes: seq<byte>)
    requires |reserved| == 4
    ensures |bytes| == 16
  {
    MAGIC + reserved + BigEndian(count, 4) + BigEndian(size, 4)
  }

  /** Followed by the index and the store. */
  function HeaderBytes(reserved: seq<byte>, ts: seq<Tagged>, store: seq<byte>): (bytes: seq<byte>)
    requires |reserved| == 4 && |ts| < TWO_TO_32 && |store| < TWO_TO_32 && forall i | 0 <= i < |ts| :: ts[i].InRange()
    ensures |bytes| == 16 + 16 * |ts| + |store|
  {
    Prologue(reserved, |ts|, |store|) + Index(ts) + store
  }

  /** What the reader takes for a header: some entries, not too many, of known types and with their
      values in a store that is not too long. */
  predicate Readable(ts: seq<Tagged>, store: seq<byte>) {
    && 0 < |ts| <= MAX_INDEX_ENTRIES && |store| <= MAX_STORE_SIZE
    && forall i | 0 <= i < |ts| :: ts[i].entry.kind <= I18N_STRING && ts[i].entry.offset <= |store|
  }

  lemma {:induction false} PrologueReadsBack(file: seq<byte>, at: nat, reserved: seq<byte>, count: nat, size: nat)
    requires |reserved| == 4 && count < TWO_TO_32 && size < TWO_TO_32
    requires at + 16 <= |file| && file[at..at + 16] == Prologue(reserved, count, size)
    ensures file[at..at + 4] == MAGIC && Uint32(file, at + 8) == count && Uint32(file, at + 12) == size
  {
    var p := Prologue(reserved, count, size);
    assert p[..4] == MAGIC && p[8..12] == BigEndian(count, 4) && p[12..16] == BigEndian(size, 4);
    assert forall k | 0 <= k < 16 :: file[at + k] == p[k];
    assert file[at..at + 4] == p[..4] && file[at + 8..at + 12] == p[8..12] && file[at + 12..at + 16] == p[12..16];
    NumberReadsBack(count, file, at + 8);
    NumberReadsBack(size, file, at + 12);
  }

  lemma {:induction false} Slices(before: seq<byte>, a: seq<byte>, b: seq<byte>, c: seq<byte>, after: seq<byte>)
    ensures var file, i := before + (a + b + c) + after, |before|;
            file[i..i + |a|] == a && file[i + |a|..i + |a| + |b|] == b && file[i + |a| + |b|..i + |a| + |b| + |c|] == c
  {
  }

  lemma {:induction false} CountsReadBack(before: seq<byte>, reserved: seq<byte>, ts: seq<Tagged>, store: seq<byte>, after: seq<byte>)
    requires |reserved| == 4 && |ts| < TWO_TO_32 && |store| < TWO_TO_32 && forall i | 0 <= i < |ts| :: ts[i].InRange()
    ensures var file, at := before + HeaderBytes(reserved, ts, store) + after, |before|;
            && file[at..at + 4] == MAGIC && Uint32(file, at + 8) == |ts| && Uint32(file, at + 12) == |store|
            && file[at + 16..at + 16 + 16 * |ts|] == Index(ts)
            && file[at + 16 + 16 * |ts|..at + 16 + 16 * |ts| + |store|] == store
  {
    var file := before + HeaderBytes(reserved, ts, store) + after;
    Slices(before, Prologue(reserved, |ts|, |store|), Index(ts), store, after);
    PrologueReadsBack(file, |before|, reserved, |ts|, |store|);
  }

  lemma {:induction false} WellFormedReadsBack(ts: seq<Tagged>, storeSize: nat)
    requires forall i | 0 <= i < |ts| :: ts[i].InRange()
    ensures IndexWellFormed(Index(ts), |ts|, storeSize) <==>
              forall i | 0 <= i < |ts| :: ts[i].entry.kind <= I18N_STRING && ts[i].entry.offset <= storeSize
  {
    forall k: nat | k < |ts| ensures EntryAt(Index(ts), k) == ts[k].entry {
      IndexReadsBack(ts, k);
    }
  }

  /** readHeader takes a written header, wherever it lies, exactly if it is readable; its index and
      its store are those written. */
  lemma {:induction false} HeaderReadsBack(before: seq<byte>, reserved: seq<byte>, ts: seq<Tagged>, store: seq<byte>, after: seq<byte>)
    requires |reserved| == 4 && |ts| < TWO_TO_32 && |store| < TWO_TO_32 && forall i | 0 <= i < |ts| :: ts[i].InRange()
    ensures var file, at := before + HeaderBytes(reserved, ts, store) + after, |before|;
            && (Fits(file, at) && IndexWellFormed(IndexOf(file, at), Uint32(file, at + 8), Uint32(file, at + 12)) <==> Readable(ts, store))
            && (Fits(file, at) ==> IndexOf(file, at) == Index(ts) && StoreOf(file, at) == store && Uint32(file, at + 8) == |ts|)
  {
    var file, at := before + HeaderBytes(reserved, ts, store) + after, |before|;
    CountsReadBack(before, reserved, ts, store, after);
    WellFormedReadsBack(ts, |store|);
    assert Fits(file, at) <==> 0 < |ts| <= MAX_INDEX_ENTRIES && |store| <= MAX_STORE_SIZE;
  }

  /** The first of a tag wins. */
  predicate FirstOfTag(ts: seq<Tagged>, k: nat) { k < |ts| && forall j | 0 <= j < k :: ts[j].tag != ts[k].tag }

  lemma {:induction false} FirstIsTabulated(entries: map<int, Entry>, index: seq<byte>, n: nat, tag: int, k: nat)
    requires 16 * n <= |index| && Tabulates(entries, index, n) && FirstWithTag(index, n, tag, k)
    ensures tag in entries && entries[tag] == EntryAt(index, k)
  {
    assert TagAt(index, k) in entries;
    var first: nat :| FirstWithTag(index, n, tag, first) && entries[tag] == EntryAt(index, first);
  }

  lemma {:induction false} TableReadsBack(ts: seq<Tagged>, entries: map<int, Entry>, k: nat)
    requires (forall i | 0 <= i < |ts| :: ts[i].InRange()) && Tabulates(entries, Index(ts), |ts|) && FirstOfTag(ts, k)
    ensures ts[k].tag in entries && entries[ts[k].tag] == ts[k].entry
  {
    var index := Index(ts);
    IndexReadsBack(ts, k);
    forall j: nat | j < k ensures TagAt(index, j) != ts[k].tag {
      IndexReadsBack(ts, j);
    }
    FirstIsTabulated(entries, index, |ts|, ts[k].tag, k);
  }

  // ----- dependencies -----

  function NulEnded(ss: seq<seq<byte>>): seq<byte> {
    if ss == [] then [] else ss[0] + [NUL] + NulEnded(ss[1..])
  }

  function Numbers(vs: seq<int>): (bytes: seq<byte>)
    requires forall i | 0 <= i < |vs| :: Int32(vs[i])
    ensures |bytes| == 4 * |vs|
  {
    if vs == [] then [] else Numbers(vs[..|vs| - 1]) + BigEndian(Unsigned(vs[|vs| - 1]), 4)
  }

  lemma {:induction false} StringsLie(before: seq<byte>, ss: seq<seq<byte>>, after: seq<byte>)
    ensures Holds(before + NulEnded(ss) + after, |before|, ss)
    decreases |ss|
  {
    if ss != [] {
      var next := before + ss[0] + [NUL];
      StringsLie(next, ss[1..], after);
      assert next + NulEnded(ss[1..]) + after == before + NulEnded(ss) + after;
    }
  }

  lemma {:induction false} NumberLies(vs: seq<int>, k: nat)
    requires (forall i | 0 <= i < |vs| :: Int32(vs[i])) && k < |vs|
    ensures Numbers(vs)[4 * k..4 * k + 4] == BigEndian(Unsigned(vs[k]), 4)
  {
    var n := |vs| - 1;
    if k < n {
      NumberLies(vs[..n], k);
      assert Numbers(vs)[4 * k..4 * k + 4] == Numbers(vs[..n])[4 * k..4 * k + 4];
    }
  }

  lemma {:induction false} NumbersReadBack(before: seq<byte>, vs: seq<int>, after: seq<byte>, k: nat)
    requires (forall i | 0 <= i < |vs| :: Int32(vs[i])) && k < |vs|
    ensures SignedAt(before + Numbers(vs) + after, |before| + 4 * k) == vs[k]
  {
    NumberLies(vs, k);
    var bytes, at := before + Numbers(vs) + after, |before| + 4 * k;
    assert bytes[at..at + 4] == Numbers(vs)[4 * k..4 * k + 4];
    SignedReadsBack(vs[k], bytes, at);
  }

  /** Dependencies as a package states them: parallel arrays of names, flags and versions. */
  datatype Stated = Stated(names: seq<seq<byte>>, flags: seq<int>, versions: seq<seq<byte>>) {
    predicate Sound() {
      && 0 < |names| == |flags| == |versions|
      && (forall i | 0 <= i < |names| :: NUL !in names[i]) && (forall i | 0 <= i < |versions| :: NUL !in versions[i])
      && (forall i | 0 <= i < |flags| :: Int32(flags[i]))
    }

    function Store(): seq<byte>
      requires Sound()
    {
      NulEnded(names) + Numbers(flags) + NulEnded(versions)
    }

    /** Their entries, under the three tags. */
    function Entries(nameTag: nat, flagTag: nat, versionTag: nat): (ts: seq<Tagged>)
      requires Sound()
      ensures |ts| == 3
    {
      var n := |NulEnded(names)|;
      [Tagged(nameTag, Entry(STRING_ARRAY, 0, |names|)),
       Tagged(flagTag, Entry(INT32, n, |names|)),
       Tagged(versionTag, Entry(STRING_ARRAY, n + 4 * |names|, |names|))]
    }
  }

  /** The table has their entries. */
  predicate Listed(s: Stated, nameTag: nat, flagTag: nat, versionTag: nat, entries: map<int, Entry>)
    requires s.Sound()
  {
    var ts := s.Entries(nameTag, flagTag, versionTag);
    && nameTag in entries && entries[nameTag] == ts[0].entry && flagTag in entries && entries[flagTag] == ts[1].entry
    && versionTag in entries && entries[versionTag] == ts[2].entry
  }

  /** These three entries over this store describe the dependencies. */
  lemma {:induction false} StoreDescribes(s: Stated, nameTag: nat, flagTag: nat, versionTag: nat, h: Header)
    requires s.Sound() && ValidHeader(h) && h.store == s.Store()
    requires Listed(s, nameTag, flagTag, versionTag, h.entries)
    ensures Describes(h, nameTag, flagTag, versionTag, Zipped(s.names, s.flags, s.versions), s.names, s.versions)
  {
    var a, b, c := NulEnded(s.names), Numbers(s.flags), NulEnded(s.versions);
    StringsLie([], s.names, b + c);
    assert [] + a + (b + c) == h.store;
    StringsLie(a + b, s.versions, []);
    assert a + b + c + [] == h.store;
    forall i: nat | i < |s.names| ensures SignedAt(h.store, |a| + 4 * i) == s.flags[i] {
      NumbersReadBack(a, s.flags, c, i);
    }
  }

  lemma {:induction false} EntriesReadBack(s: Stated, nameTag: nat, flagTag: nat, versionTag: nat, entries: map<int, Entry>)
    requires s.Sound() && nameTag != flagTag && flagTag != versionTag && nameTag != versionTag
    requires var ts := s.Entries(nameTag, flagTag, versionTag);
             (forall i | 0 <= i < |ts| :: ts[i].InRange()) && Tabulates(entries, Index(ts), |ts|)
    ensures Listed(s, nameTag, flagTag, versionTag, entries)
  {
    var ts := s.Entries(nameTag, flagTag, versionTag);
    TableReadsBack(ts, entries, 0);
    TableReadsBack(ts, entries, 1);
    TableReadsBack(ts, entries, 2);
  }

  /** Whatever readHeader makes of a file that holds these dependencies in its header, reading them
      gives them back, and the lock keeps those the encoder does not drop. */
  lemma {:induction false} PackageReadsBack(
    before: seq<byte>, reserved: seq<byte>, s: Stated, nameTag: nat, flagTag: nat, versionTag: nat, after: seq<byte>, h: Header)
    requires |reserved| == 4 && s.Sound() && |s.Store()| <= MAX_STORE_SIZE && |s.names| < TWO_TO_32
    requires nameTag < TWO_TO_32 && flagTag < TWO_TO_32 && versionTag < TWO_TO_32
    requires nameTag != flagTag && flagTag != versionTag && nameTag != versionTag
    requires var file := before + HeaderBytes(reserved, s.Entries(nameTag, flagTag, versionTag), s.Store()) + after;
             && Fits(file, |before|) && h.store == StoreOf(file, |before|) && ValidHeader(h)
             && Tabulates(h.entries, IndexOf(file, |before|), Uint32(file, |before| + 8))
    ensures var ds := Zipped(s.names, s.flags, s.versions);
            DependenciesOf(h, nameTag, flagTag, versionTag) == ds && Decoded(Encoded(ds)) == Kept(ds)
  {
    var ts := s.Entries(nameTag, flagTag, versionTag);
    HeaderReadsBack(before, reserved, ts, s.Store(), after);
    EntriesReadBack(s, nameTag, flagTag, versionTag, h.entries);
    StoreDescribes(s, nameTag, flagTag, versionTag, h);
    DescribedSurvive(h, nameTag, flagTag, versionTag, Zipped(s.names, s.flags, s.versions), s.names, s.versions);
  }
}
