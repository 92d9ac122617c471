/** The tagged header of an RPM (formats/rpm/inspect.go). */
module RpmHeader {
  import opened Wrappers
  import opened RpmDependencies

  type byte = c: char | c as int < 256 witness '\0'

  const NUL: byte := '\0'
  const MAX_INDEX_ENTRIES := 0x1_0000
  const MAX_STORE_SIZE := 0x400_0000
  const TWO_TO_32 := 0x1_0000_0000

  const INT32 := 4
  const STRING_ARRAY := 8
  const I18N_STRING := 9

  datatype Entry = Entry(kind: int, offset: int, count: int)

  datatype Header = Header(entries: map<int, Entry>, store: seq<byte>, end: int)

  /** binary.BigEndian.Uint32 */
  function Uint32(bytes: seq<byte>, at: int): (v: int)
    requires 0 <= at && at + 4 <= |bytes|
    ensures 0 <= v < TWO_TO_32
  {
    ((bytes[at] as int * 256 + bytes[at + 1] as int) * 256 + bytes[at + 2] as int) * 256 + bytes[at + 3] as int
  }

  /** The same four bytes as a signed number. */
  function SignedAt(bytes: seq<byte>, at: int): (v: int)
    requires 0 <= at && at + 4 <= |bytes|
    ensures Int32(v)
  {
    var u := Uint32(bytes, at);
    if u < TWO_TO_32 / 2 then u else u - TWO_TO_32
  }

  // ----- the index -----

  predicate WellFormed(e: Entry, storeSize: int) { e.kind <= I18N_STRING && 0 <= e.offset <= storeSize && 0 <= e.count < TWO_TO_32 }

  /** The k-th entry of an index. */
  function TagAt(index: seq<byte>, k: nat): int
    requires 16 * k + 16 <= |index|
  {
    Uint32(index, 16 * k)
  }

  function EntryAt(index: seq<byte>, k: nat): (e: Entry)
    requires 16 * k + 16 <= |index|
    ensures 0 <= e.offset && 0 <= e.count < TWO_TO_32
  {
    Entry(Uint32(index, 16 * k + 4), Uint32(index, 16 * k + 8), Uint32(index, 16 * k + 12))
  }

  predicate IndexWellFormed(index: seq<byte>, n: nat, storeSize: int)
    requires 16 * n <= |index|
  {
    forall k | 0 <= k < n :: WellFormed(EntryAt(index, k), storeSize)
  }

  /** The first of the first n entries with that tag. */
  predicate FirstWithTag(index: seq<byte>, n: nat, tag: int, k: nat)
    requires 16 * n <= |index|
  {
    k < n && TagAt(index, k) == tag && forall j | 0 <= j < k :: TagAt(index, j) != tag
  }

  /** A table of the first n entries in which the first of a tag wins. */
  ghost predicate Tabulates(entries: map<int, Entry>, index: seq<byte>, n: nat)
    requires 16 * n <= |index|
  {
    && (forall k | 0 <= k < n :: TagAt(index, k) in entries)
    && (forall tag | tag in entries :: exists k: nat :: FirstWithTag(index, n, tag, k) && entries[tag] == EntryAt(index, k))
  }

  /** The loop of readHeader: every entry is checked, the first of each tag is kept. */
  method ReadIndex(index: seq<byte>, count: nat, storeSize: int) returns (r: Result<map<int, Entry>, ()>)
    requires |index| == 16 * count
    ensures r.Ok? <==> IndexWellFormed(index, count, storeSize)
    ensures r.Ok? ==> Tabulates(r.value, index, count)
  {
    var entries: map<int, Entry> := map[];
    for k := 0 to count
      invariant IndexWellFormed(index, k, storeSize) && Tabulates(entries, index, k)
    {
      var tag, entry := TagAt(index, k), EntryAt(index, k);
      if entry.kind > I18N_STRING || entry.offset > storeSize {
        return Err(());
      }
      if tag !in entries {
        entries := entries[tag := entry];
      }
    }
    return Ok(entries);
  }

  const MAGIC := [0x8e as byte, 0xad as byte, 0xe8 as byte, 0x01 as byte]

  /** The header fits: magic, counts within bounds, index and store inside the file. */
  predicate Fits(file: seq<byte>, offset: int) {
    && 0 <= offset && offset + 16 <= |file| && file[offset..offset + 4] == MAGIC
    && var count, storeSize := Uint32(file, offset + 8), Uint32(file, offset + 12);
       && 0 < count <= MAX_INDEX_ENTRIES && storeSize <= MAX_STORE_SIZE && offset + 16 + 16 * count + storeSize <= |file|
  }

  function IndexOf(file: seq<byte>, offset: int): (index: seq<byte>)
    requires Fits(file, offset)
    ensures |index| == 16 * Uint32(file, offset + 8)
  {
    file[offset + 16..offset + 16 + 16 * Uint32(file, offset + 8)]
  }

  function StoreOf(file: seq<byte>, offset: int): (store: seq<byte>)
    requires Fits(file, offset)
    ensures |store| == Uint32(file, offset + 12)
  {
    var start := offset + 16 + 16 * Uint32(file, offset + 8);
    file[start..start + Uint32(file, offset + 12)]
  }

  /** readHeader */
  method ReadHeader(file: seq<byte>, offset: int) returns (r: Result<Header, ()>)
    ensures r.Ok? <==> Fits(file, offset) && IndexWellFormed(IndexOf(file, offset), Uint32(file, offset + 8), Uint32(file, offset + 12))
    ensures r.Ok? ==>
              && Tabulates(r.value.entries, IndexOf(file, offset), Uint32(file, offset + 8))
              && r.value.store == StoreOf(file, offset)
              && r.value.end == offset + 16 + 16 * Uint32(file, offset + 8) + |r.value.store| <= |file|
              && ValidHeader(r.value)
  {
    if offset < 0 || offset + 16 > |file| || file[offset..offset + 4] != MAGIC {
      return Err(());
    }
    var count, storeSize := Uint32(file, offset + 8), Uint32(file, offset + 12);
    if count == 0 || count > MAX_INDEX_ENTRIES || storeSize > MAX_STORE_SIZE {
      return Err(());
    }
    var start := offset + 16 + 16 * count;
    var end := start + storeSize;
    if end > |file| {
      return Err(());
    }
    var entries := ReadIndex(file[offset + 16..start], count, storeSize);
    if entries.Err? {
      return Err(());
    }
    return Ok(Header(entries.value, file[start..end], end));
  }

  /** What every access relies on. */
  predicate ValidHeader(h: Header) {
    |h.store| <= MAX_STORE_SIZE && forall tag | tag in h.entries :: WellFormed(h.entries[tag], |h.store|)
  }

  // ----- values -----

  /** readCString: up to a NUL or the end of the store. */
  function ReadCString(store: seq<byte>, offset: nat): (s: seq<byte>)
    ensures offset <= |store| ==> offset + |s| <= |store|
    decreases |store| - offset
  {
    if offset >= |store| || store[offset] == NUL then [] else [store[offset]] + ReadCString(store, offset + 1)
  }

  /** At most `count` strings, one after the other, as long as there is store. */
  function CStrings(store: seq<byte>, offset: nat, count: nat): (ss: seq<seq<byte>>)
    ensures |ss| <= count
    decreases count
  {
    if count == 0 || offset >= |store| then []
    else
      var s := ReadCString(store, offset);
      [s] + CStrings(store, offset + |s| + 1, count - 1)
  }

  /** Past a string and its NUL, in 32-bit arithmetic: inside a store it never wraps. */
  method Past(offset: int, n: int) returns (r: int)
    requires 0 <= offset && 0 <= n && offset + n <= MAX_STORE_SIZE
    ensures r == offset + n + 1
  {
    r := (offset + (n % TWO_TO_32 + 1)) % TWO_TO_32;
  }

  function StringsOf(h: Header, tag: int): seq<seq<byte>>
    requires ValidHeader(h)
  {
    if tag !in h.entries || h.entries[tag].kind != STRING_ARRAY then []
    else CStrings(h.store, h.entries[tag].offset, h.entries[tag].count)
  }

  /** These were read, and the rest starts at the offset. */
  predicate ReadSoFar(store: seq<byte>, start: nat, count: nat, values: seq<seq<byte>>, offset: nat, index: nat) {
    index <= count && CStrings(store, start, count) == values + CStrings(store, offset, count - index)
  }

  lemma {:induction false} ReadOneMore(store: seq<byte>, start: nat, count: nat, values: seq<seq<byte>>, offset: nat, index: nat)
    requires ReadSoFar(store, start, count, values, offset, index) && index < count && offset < |store|
    ensures var s := ReadCString(store, offset);
            ReadSoFar(store, start, count, values + [s], offset + |s| + 1, index + 1)
  {
    var s := ReadCString(store, offset);
    var rest := CStrings(store, offset + |s| + 1, count - (index + 1));
    assert CStrings(store, offset, count - index) == [s] + rest;
    assert values + ([s] + rest) == (values + [s]) + rest;
  }

  lemma {:induction false} ReadThemAll(store: seq<byte>, start: nat, count: nat, values: seq<seq<byte>>, offset: nat, index: nat)
    requires ReadSoFar(store, start, count, values, offset, index) && (index == count || offset >= |store|)
    ensures values == CStrings(store, start, count)
  {
    assert values + [] == values;
  }


  /** The loop of header.strings: the offset never wraps around. */
  method StringsFrom(store: seq<byte>, start: nat, count: nat) returns (values: seq<seq<byte>>)
    requires start <= |store| <= MAX_STORE_SIZE
    ensures values == CStrings(store, start, count)
  {
    values := [];
    var offset: nat, index: nat := start, 0;
    while index < count && offset < |store|
      invariant index <= count && ReadSoFar(store, start, count, values, offset, index)
      decreases count - index
    {
      ReadOneMore(store, start, count, values, offset, index);
      var value := ReadCString(store, offset);
      values := values + [value];
      offset := Past(offset, |value|);
      index := index + 1;
    }
    ReadThemAll(store, start, count, values, offset, index);
  }

  /** header.strings */
  method Strings(h: Header, tag: int) returns (values: seq<seq<byte>>)
    requires ValidHeader(h)
    ensures values == StringsOf(h, tag)
  {
    if tag !in h.entries || h.entries[tag].kind != STRING_ARRAY {
      return [];
    }
    values := StringsFrom(h.store, h.entries[tag].offset, h.entries[tag].count);
  }

  function Min(a: int, b: int): int { if a < b then a else b }

  /** As many numbers as are counted and fit. */
  function Int32Count(h: Header, tag: int): (n: nat)
    requires ValidHeader(h)
    ensures n > 0 ==> tag in h.entries && h.entries[tag].offset + 4 * n <= |h.store|
  {
    if tag !in h.entries || h.entries[tag].kind != INT32 then 0
    else Min(h.entries[tag].count, (|h.store| - h.entries[tag].offset) / 4)
  }

  function Int32sOf(h: Header, tag: int): (values: seq<int>)
    requires ValidHeader(h)
    ensures |values| == Int32Count(h, tag)
    ensures forall i | 0 <= i < |values| :: values[i] == SignedAt(h.store, h.entries[tag].offset + 4 * i) && Int32(values[i])
  {
    seq(Int32Count(h, tag), i requires 0 <= i < Int32Count(h, tag) => SignedAt(h.store, h.entries[tag].offset + 4 * i))
  }

  /** header.int32s */
  method Int32s(h: Header, tag: int) returns (values: seq<int>)
    requires ValidHeader(h)
    ensures values == Int32sOf(h, tag)
  {
    values := [];
    if tag !in h.entries || h.entries[tag].kind != INT32 {
      return;
    }
    var entry := h.entries[tag];
    ghost var all := Int32sOf(h, tag);
    var index := 0;
    while index < entry.count
      invariant 0 <= index <= |all| && values == all[..index]
      decreases entry.count - index
    {
      var start := entry.offset + index * 4;
      if start + 4 > |h.store| {
        break;
      }
      values := values + [SignedAt(h.store, start)];
      index := index + 1;
    }
    assert all[..index] == all;
  }

  // ----- dependencies -----

  /** The i-th dependency of the parallel arrays: a missing flag is zero, a missing
      version is empty. */
  function DependencyAt(names: seq<seq<byte>>, flags: seq<int>, versions: seq<seq<byte>>, i: nat): Dependency
    requires i < |names|
  {
    Dependency(names[i], if i < |flags| then flags[i] else 0, if i < |versions| then versions[i] else "")
  }

  function Zipped(names: seq<seq<byte>>, flags: seq<int>, versions: seq<seq<byte>>): (ds: seq<Dependency>)
    ensures |ds| == |names| && forall i | 0 <= i < |ds| :: ds[i] == DependencyAt(names, flags, versions, i)
  {
    seq(|names|, i requires 0 <= i < |names| => DependencyAt(names, flags, versions, i))
  }

  function DependenciesOf(h: Header, nameTag: int, flagTag: int, versionTag: int): seq<Dependency>
    requires ValidHeader(h)
  {
    Zipped(StringsOf(h, nameTag), Int32sOf(h, flagTag), StringsOf(h, versionTag))
  }

  /** header.dependencies */
  method Dependencies(h: Header, nameTag: int, flagTag: int, versionTag: int) returns (ds: seq<Dependency>)
    requires ValidHeader(h)
    ensures ds == DependenciesOf(h, nameTag, flagTag, versionTag)
  {
    ds := [];
    var names := Strings(h, nameTag);
    if |names| == 0 {
      return;
    }
    var flags := Int32s(h, flagTag);
    var versions := Strings(h, versionTag);
    ghost var all := Zipped(names, flags, versions);
    for index := 0 to |names|
      invariant ds == all[..index]
    {
      var flag := if index < |flags| then flags[index] else 0;
      var version := if index < |versions| then versions[index] else "";
      ds := ds + [Dependency(names[index], flag, version)];
    }
    assert all[..|names|] == all;
  }

  /** What a header says of a package's dependencies survives the lock, minus exactly the
      entries the encoder drops. */
  lemma {:induction false} HeaderSurvivesLock(h: Header, nameTag: int, flagTag: int, versionTag: int)
    requires ValidHeader(h)
    ensures var ds := DependenciesOf(h, nameTag, flagTag, versionTag); Decoded(Encoded(ds)) == Kept(ds)
  {
    var ds := DependenciesOf(h, nameTag, flagTag, versionTag);
    var flags := Int32sOf(h, flagTag);
    forall i | 0 <= i < |ds| ensures Int32(ds[i].flags) {
      assert i < |flags| ==> Int32(flags[i]);
    }
    DependenciesRoundTrip(ds);
  }

  // ----- string arrays -----

  predicate LiesAt(store: seq<byte>, offset: nat, s: seq<byte>) {
    offset + |s| <= |store| && forall k | 0 <= k < |s| :: store[offset + k] == s[k]
  }

  /** The store holds these strings from an offset on, each ended with a NUL. */
  predicate Holds(store: seq<byte>, offset: nat, names: seq<seq<byte>>)
    decreases |names|
  {
    names == [] ||
    var end := offset + |names[0]|;
    && end < |store| && LiesAt(store, offset, names[0]) && store[end] == NUL && Holds(store, end + 1, names[1..])
  }

  lemma {:induction false} NulIsAt(store: seq<byte>, offset: nat, s: seq<byte>)
    requires NUL !in s && LiesAt(store, offset, s) && offset + |s| < |store| && store[offset + |s|] == NUL
    ensures ReadCString(store, offset) == s
    decreases |s|
  {
    if s != [] {
      assert store[offset + 0] == s[0] && s[0] in s;
      forall k | 0 <= k < |s[1..]| ensures store[offset + 1 + k] == s[1..][k] {
        assert store[offset + (k + 1)] == s[k + 1];
      }
      NulIsAt(store, offset + 1, s[1..]);
      assert s == [s[0]] + s[1..];
    }
  }

  /** A string array is read back from wherever it lies in the store. */
  lemma {:induction false} StringsReadBack(store: seq<byte>, offset: nat, names: seq<seq<byte>>)
    requires Holds(store, offset, names) && forall i | 0 <= i < |names| :: NUL !in names[i]
    ensures CStrings(store, offset, |names|) == names
    decreases |names|
  {
    if names != [] {
      NulIsAt(store, offset, names[0]);
      StringsReadBack(store, offset + |names[0]| + 1, names[1..]);
    }
  }

  /** The header holds these dependencies as parallel arrays under the three tags. */
  predicate Describes(h: Header, nameTag: int, flagTag: int, versionTag: int, ds: seq<Dependency>, names: seq<seq<byte>>, versions: seq<seq<byte>>)
    requires ValidHeader(h)
  {
    && nameTag in h.entries && flagTag in h.entries && versionTag in h.entries
    && var n, f, v := h.entries[nameTag], h.entries[flagTag], h.entries[versionTag];
       && n.kind == v.kind == STRING_ARRAY && f.kind == INT32 && n.count == f.count == v.count == |ds| == |names| == |versions|
       && Holds(h.store, n.offset, names) && Holds(h.store, v.offset, versions)
       && f.offset + 4 * |ds| <= |h.store|
       && forall i | 0 <= i < |ds| ::
            && NUL !in names[i] && NUL !in versions[i]
            && ds[i] == Dependency(names[i], SignedAt(h.store, f.offset + 4 * i), versions[i])
  }

  lemma {:induction false} DescribedStrings(h: Header, tag: int, names: seq<seq<byte>>)
    requires ValidHeader(h) && tag in h.entries && h.entries[tag].kind == STRING_ARRAY && h.entries[tag].count == |names|
    requires Holds(h.store, h.entries[tag].offset, names) && forall i | 0 <= i < |names| :: NUL !in names[i]
    ensures StringsOf(h, tag) == names
  {
    StringsReadBack(h.store, h.entries[tag].offset, names);
  }

  lemma {:induction false} DescribedFlags(h: Header, tag: int, count: nat)
    requires ValidHeader(h) && tag in h.entries && h.entries[tag].kind == INT32 && h.entries[tag].count == count
    requires h.entries[tag].offset + 4 * count <= |h.store|
    ensures |Int32sOf(h, tag)| == count
  {
  }

  /** From the bytes of a header to the lock and back: the dependencies the arrays describe,
      in order, minus exactly those the encoder drops. */
  lemma {:induction false} DescribedSurvive(
    h: Header, nameTag: int, flagTag: int, versionTag: int, ds: seq<Dependency>, names: seq<seq<byte>>, versions: seq<seq<byte>>)
    requires ValidHeader(h) && Describes(h, nameTag, flagTag, versionTag, ds, names, versions)
    ensures DependenciesOf(h, nameTag, flagTag, versionTag) == ds && Decoded(Encoded(ds)) == Kept(ds)
  {
    DescribedStrings(h, nameTag, names);
    DescribedStrings(h, versionTag, versions);
    DescribedFlags(h, flagTag, |ds|);
    HeaderSurvivesLock(h, nameTag, flagTag, versionTag);
  }
}
