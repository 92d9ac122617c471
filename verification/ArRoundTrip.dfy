/** An ar archive as the format lays it out, and what the reader makes of it
    (formats/deb/inspect.go). */
module ArRoundTrip {
  import opened Wrappers
  import opened Lines
  import opened Decimal
  import opened Integers
  import opened ArArchive

  /** A file to archive. `stamps` are the 32 columns of date, owner, group and mode; some writers
      end a name with a slash. */
  datatype File = File(name: string, slash: bool, stamps: string, content: string) {
    predicate Sound() {
      && UsableName(name) && Trimmed(name) && |stamps| == 32 && Fits(|content|, 64)
      && |Label()| <= 16 && |FormatInt(|content|)| <= 10
    }

    function Label(): string { name + if slash then "/" else "" }
  }

  function Spaces(n: nat): (s: string)
    ensures |s| == n
  {
    if n == 0 then "" else Spaces(n - 1) + " "
  }

  /** In a column of this width, to the left. */
  function Column(s: string, width: nat): (c: string)
    requires |s| <= width
    ensures |c| == width
  {
    s + Spaces(width - |s|)
  }

  function HeaderOf(f: File): (h: string)
    requires f.Sound()
    ensures |h| == 60
  {
    Column(f.Label(), 16) + f.stamps + Column(FormatInt(|f.content|), 10) + "`\n"
  }

  function Bodies(fs: seq<File>): string
    requires forall i | 0 <= i < |fs| :: fs[i].Sound()
  {
    if fs == [] then ""
    else HeaderOf(fs[0]) + fs[0].content + (if |fs[0].content| % 2 == 1 then "\n" else "") + Bodies(fs[1..])
  }

  function ArchiveOf(fs: seq<File>): string
    requires forall i | 0 <= i < |fs| :: fs[i].Sound()
  {
    MAGIC + Bodies(fs)
  }

  // ----- one header -----

  lemma {:induction false} TrimRightColumn(s: string, n: nat)
    requires s != "" && !IsSpace(s[|s| - 1])
    ensures TrimRight(s + Spaces(n)) == s
  {
    if n == 0 {
      assert s + "" == s;
    } else {
      assert s + Spaces(n) == (s + Spaces(n - 1)) + " ";
      assert (s + Spaces(n))[..|s| + n - 1] == s + Spaces(n - 1);
      TrimRightColumn(s, n - 1);
    }
  }

  lemma {:induction false} TrimColumn(s: string, width: nat)
    requires s != "" && Trimmed(s) && |s| <= width
    ensures TrimSpace(Column(s, width)) == s
  {
    assert Column(s, width)[0] == s[0];
    TrimRightColumn(s, width - |s|);
  }

  lemma {:induction false} NumberIsTrimmed(n: nat)
    ensures Trimmed(FormatInt(n)) && FormatInt(n) != ""
  {
    var s := FormatInt(n);
    assert IsDigit(s[0]) && IsDigit(s[|s| - 1]);
  }

  /** A header gives back its name, with or without a slash, and its size, whatever the stamps. */
  lemma {:induction false} HeaderReadsBack(f: File)
    requires f.Sound()
    ensures ReadHeader(HeaderOf(f)) == Some(Header(f.name, |f.content|))
  {
    var h := HeaderOf(f);
    assert h[..16] == Column(f.Label(), 16) && h[48..58] == Column(FormatInt(|f.content|), 10) && h[58..60] == "`\n";
    assert !IsSpace('/');
    TrimColumn(f.Label(), 16);
    NumberIsTrimmed(|f.content|);
    TrimColumn(FormatInt(|f.content|), 10);
    ParseFormatInt(|f.content|, 64);
    assert TrimSlash(f.Label()) == f.name;
  }

  // ----- the whole archive -----

  function MembersFrom(fs: seq<File>, offset: int): (ms: seq<Member>)
    ensures |ms| == |fs|
  {
    if fs == [] then []
    else
      var m := Member(fs[0].name, offset + 60, |fs[0].content|);
      [m] + MembersFrom(fs[1..], After(m))
  }

  lemma {:induction false} NextBody(archive: string, offset: nat, fs: seq<File>)
    requires (forall i | 0 <= i < |fs| :: fs[i].Sound()) && fs != []
    requires offset <= |archive| && archive[offset..] == Bodies(fs)
    ensures var m := MembersFrom(fs, offset)[0];
            && offset + 60 + m.size <= |archive| && After(m) <= |archive|
            && archive[offset..offset + 60] == HeaderOf(fs[0]) && archive[m.offset..m.offset + m.size] == fs[0].content
            && archive[After(m)..] == Bodies(fs[1..])
  {
    var bytes, m := archive[offset..], MembersFrom(fs, offset)[0];
    assert bytes[..60] == HeaderOf(fs[0]) && bytes[60..60 + m.size] == fs[0].content;
    assert bytes[After(m) - offset..] == Bodies(fs[1..]);
    assert archive[offset..offset + 60] == bytes[..60];
    assert archive[m.offset..m.offset + m.size] == bytes[60..60 + m.size];
    assert archive[After(m)..] == bytes[After(m) - offset..];
  }

  lemma {:induction false} BodiesTile(archive: string, offset: nat, fs: seq<File>)
    requires forall i | 0 <= i < |fs| :: fs[i].Sound()
    requires offset <= |archive| && archive[offset..] == Bodies(fs)
    ensures Tiles(HeadersOf(archive), |archive|, offset, MembersFrom(fs, offset))
    decreases |fs|
  {
    if fs != [] {
      var ms := MembersFrom(fs, offset);
      NextBody(archive, offset, fs);
      HeaderReadsBack(fs[0]);
      BodiesTile(archive, After(ms[0]), fs[1..]);
      assert ms[1..] == MembersFrom(fs[1..], After(ms[0]));
    }
  }

  lemma {:induction false} TilesOnce(at: Headers, n: nat, offset: int, ms: seq<Member>, ms': seq<Member>)
    requires Sound(at, n) && Tiles(at, n, offset, ms) && Tiles(at, n, offset, ms')
    ensures ms == ms'
    decreases |ms|
  {
    if ms != [] && ms' != [] {
      TilesOnce(at, n, After(ms[0]), ms[1..], ms'[1..]);
      assert ms == [ms[0]] + ms[1..] && ms' == [ms'[0]] + ms'[1..];
    }
  }

  /** Reading a written archive gives its files, in order, with their names and sizes and where their
      contents lie, exactly if there are at most 64. */
  lemma {:induction false} ArchiveReadsBack(fs: seq<File>, ms: seq<Member>)
    requires forall i | 0 <= i < |fs| :: fs[i].Sound()
    ensures Layout(ArchiveOf(fs), ms) <==> |fs| <= MAXIMUM_MEMBERS && ms == MembersFrom(fs, 8)
  {
    var archive := ArchiveOf(fs);
    assert archive[..8] == MAGIC && archive[8..] == Bodies(fs);
    BodiesTile(archive, 8, fs);
    if Layout(archive, ms) {
      TilesOnce(HeadersOf(archive), |archive|, 8, ms, MembersFrom(fs, 8));
    }
  }

  lemma {:induction false} ContentsFrom(archive: string, offset: nat, fs: seq<File>, i: nat)
    requires (forall j | 0 <= j < |fs| :: fs[j].Sound()) && i < |fs|
    requires offset <= |archive| && archive[offset..] == Bodies(fs)
    ensures var m := MembersFrom(fs, offset)[i];
            && 0 <= m.offset && 0 <= m.size && m.offset + m.size <= |archive|
            && m.name == fs[i].name && archive[m.offset..m.offset + m.size] == fs[i].content
    decreases |fs|
  {
    NextBody(archive, offset, fs);
    if i > 0 {
      ContentsFrom(archive, After(MembersFrom(fs, offset)[0]), fs[1..], i - 1);
    }
  }

  /** Each member names the content that was archived under that name. */
  lemma {:induction false} ContentsReadBack(fs: seq<File>, i: nat)
    requires (forall j | 0 <= j < |fs| :: fs[j].Sound()) && i < |fs|
    ensures var archive, m := ArchiveOf(fs), MembersFrom(fs, 8)[i];
            && 0 <= m.offset && 0 <= m.size && m.offset + m.size <= |archive|
            && m.name == fs[i].name && archive[m.offset..m.offset + m.size] == fs[i].content
  {
    assert ArchiveOf(fs)[8..] == Bodies(fs);
    ContentsFrom(ArchiveOf(fs), 8, fs, i);
  }
}
