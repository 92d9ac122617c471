/** The members of an ar archive (formats/deb/inspect.go). */
module ArArchive {
  import opened Wrappers
  import opened Lines
  import opened Integers

  datatype Member = Member(name: string, offset: int, size: int)

  const MAGIC := "!<arch>\n"
  const MAXIMUM_MEMBERS := 64

  /** What a member's header says. */
  datatype Header = Header(name: string, size: int)

  function TrimSlash(s: string): string { if s != "" && s[|s| - 1] == '/' then s[..|s| - 1] else s }

  predicate UsableName(name: string) { name != "" && ' ' !in name && '/' !in name && '\\' !in name }

  /** Sixty bytes: the name in front, the size in decimal before the trailer. */
  function ReadHeader(header: string): (h: Option<Header>)
    requires |header| == 60
    ensures h.Some? ==> h.value.size >= 0 && UsableName(h.value.name)
  {
    var name := TrimSlash(TrimSpace(header[..16]));
    var size := ParseInt(TrimSpace(header[48..58]), 64);
    if header[58..60] != "`\n" || !UsableName(name) || size.error.Some? || size.value < 0 then None
    else Some(Header(name, size.value))
  }

  /** The header at an offset, if there is one and its content ends inside the archive. */
  function HeaderAt(archive: string, offset: nat): (h: Option<Header>)
    ensures h.Some? ==> offset + 60 + h.value.size <= |archive| && h.value.size >= 0 && UsableName(h.value.name)
  {
    if |archive| - offset < 60 then None
    else
      var h := ReadHeader(archive[offset..offset + 60]);
      if h.Some? && h.value.size > |archive| - (offset + 60) then None else h
  }

  // ----- the walk, over whatever headers there are -----

  /** The header at each offset, in an archive of n bytes. */
  type Headers = nat -> Option<Header>

  ghost predicate Sound(at: Headers, n: nat) {
    forall o: nat | at(o).Some? :: Fitting(at(o).value, o, n)
  }

  predicate Fitting(h: Header, o: nat, n: nat) { o + 60 + h.size <= n && h.size >= 0 && UsableName(h.name) }

  /** A content of odd length is followed by one byte of padding. */
  function Padding(size: int): int { size % 2 }

  /** The next header's offset. */
  function After(m: Member): int { m.offset + m.size + Padding(m.size) }

  function MemberAt(h: Header, offset: int): Member { Member(h.name, offset + 60, h.size) }

  /** From the given offset to the end there is nothing but these members, each with its
      header, its content and its padding, one after the other. */
  ghost predicate Tiles(at: Headers, n: nat, offset: int, members: seq<Member>)
    decreases |members|
  {
    if members == [] then offset == n
    else
      && 0 <= offset <= n && at(offset).Some?
      && members[0] == MemberAt(at(offset).value, offset)
      && Tiles(at, n, After(members[0]), members[1..])
  }

  /** These were read up to the offset, and the rest of `members` tiles what is left. */
  ghost predicate Remains(at: Headers, n: nat, offset: int, read: seq<Member>, members: seq<Member>) {
    read <= members && Tiles(at, n, offset, members[|read|..])
  }

  /** Reading on changes nothing about which lists fit. */
  ghost predicate SameFit(at: Headers, n: nat, offset: int, read: seq<Member>) {
    forall all :: Remains(at, n, offset, read, all) <==> Remains(at, n, 8, [], all)
  }

  lemma {:induction false} TilesEnd(at: Headers, n: nat, offset: int, members: seq<Member>)
    requires Sound(at, n) && Tiles(at, n, offset, members)
    ensures offset <= n
  {
  }

  lemma {:induction false} RemainsNext(at: Headers, n: nat, offset: nat, read: seq<Member>, members: seq<Member>)
    requires Sound(at, n) && Remains(at, n, offset, read, members) && offset < n
    ensures at(offset).Some?
    ensures var m := MemberAt(at(offset).value, offset);
            |read| < |members| && After(m) <= n && Remains(at, n, After(m), read + [m], members)
  {
    var left := members[|read|..];
    assert left[0] == members[|read|] && left[1..] == members[|read| + 1..];
    TilesEnd(at, n, After(left[0]), left[1..]);
  }

  /** At most 64 members that tile everything after the magic. */
  ghost predicate Walked(at: Headers, n: nat, members: seq<Member>) {
    |members| <= MAXIMUM_MEMBERS && Tiles(at, n, 8, members)
  }

  lemma {:induction false} WalkedRemains(at: Headers, n: nat, members: seq<Member>)
    requires Walked(at, n, members)
    ensures Remains(at, n, 8, [], members)
  {
    assert members[0..] == members;
  }

  /** A missing or overlong next member, or a 65th, means that no list fits. */
  lemma {:induction false} Stuck(at: Headers, n: nat, offset: nat, read: seq<Member>)
    requires Sound(at, n) && offset < n && SameFit(at, n, offset, read)
    requires |read| >= MAXIMUM_MEMBERS || at(offset).None? || After(MemberAt(at(offset).value, offset)) > n
    ensures forall members :: !Walked(at, n, members)
  {
    forall members ensures !Walked(at, n, members) {
      if Walked(at, n, members) {
        WalkedRemains(at, n, members);
        RemainsNext(at, n, offset, read, members);
      }
    }
  }

  lemma {:induction false} AllRead(at: Headers, n: nat, read: seq<Member>)
    requires Sound(at, n) && |read| <= MAXIMUM_MEMBERS && SameFit(at, n, n, read)
    ensures Walked(at, n, read) && forall members | Walked(at, n, members) :: members == read
  {
    assert read[|read|..] == [] && read[0..] == read;
    assert Remains(at, n, n, read, read);
    forall members | Walked(at, n, members) ensures members == read {
      WalkedRemains(at, n, members);
      assert members == read + members[|read|..];
    }
  }

  /** The loop of readArMembers. It succeeds exactly if some list fits, and then returns
      it; there is no other. */
  method Walk(at: Headers, n: nat) returns (r: Result<seq<Member>, ()>)
    requires Sound(at, n) && n >= 8
    ensures r.Ok? ==> Walked(at, n, r.value)
    ensures forall members | Walked(at, n, members) :: r == Ok(members)
  {
    var members: seq<Member> := [];
    var offset := 8;
    while offset < n
      invariant 8 <= offset <= n && offset % 2 == 0 && |members| <= MAXIMUM_MEMBERS
      invariant SameFit(at, n, offset, members)
      decreases n - offset
    {
      if |members| >= MAXIMUM_MEMBERS {
        Stuck(at, n, offset, members);
        return Err(());
      }
      var h := at(offset);
      if h.None? {
        Stuck(at, n, offset, members);
        return Err(());
      }
      assert Fitting(h.value, offset, n);
      ghost var from, before := offset, members;
      var content := offset + 60;
      members := members + [Member(h.value.name, content, h.value.size)];
      offset := content + h.value.size;
      if offset % 2 != 0 {
        if offset >= n {
          Stuck(at, n, from, before);
          return Err(());
        }
        offset := offset + 1;
      }
    }
    AllRead(at, n, members);
    return Ok(members);
  }

  // ----- the archive -----

  function HeadersOf(archive: string): Headers { (offset: nat) => HeaderAt(archive, offset) }

  /** The archive is exactly its magic and these members. */
  ghost predicate Layout(archive: string, members: seq<Member>) {
    |archive| >= 8 && archive[..8] == MAGIC && Walked(HeadersOf(archive), |archive|, members)
  }

  /** readArMembers */
  method ReadArMembers(archive: string) returns (r: Result<seq<Member>, ()>)
    ensures r.Ok? ==> Layout(archive, r.value)
    ensures forall members | Layout(archive, members) :: r == Ok(members)
  {
    if |archive| < 8 || archive[..8] != MAGIC {
      return Err(());
    }
    r := Walk(HeadersOf(archive), |archive|);
  }

  // ----- what a layout means -----

  function TotalSize(members: seq<Member>): int {
    if members == [] then 0
    else 60 + members[0].size + Padding(members[0].size) + TotalSize(members[1..])
  }

  predicate Placed(m: Member, offset: int, n: nat) {
    offset + 60 <= m.offset && 0 <= m.size && m.offset + m.size <= n && m.offset % 2 == 0 && UsableName(m.name)
  }

  /** Ends at least a header before the other begins. */
  predicate Precedes(m: Member, later: Member) { m.offset + m.size + 60 <= later.offset }

  predicate InOrder(members: seq<Member>) { forall i, j | 0 <= i < j < |members| :: Precedes(members[i], members[j]) }

  predicate AllPlaced(members: seq<Member>, offset: int, n: nat) { forall i | 0 <= i < |members| :: Placed(members[i], offset, n) }

  lemma {:induction false} TilesGeometry(at: Headers, n: nat, offset: int, members: seq<Member>)
    requires Sound(at, n) && Tiles(at, n, offset, members) && offset % 2 == 0
    ensures AllPlaced(members, offset, n) && InOrder(members) && offset + TotalSize(members) == n
    decreases |members|
  {
    if members != [] {
      var m := members[0];
      assert Fitting(at(offset).value, offset, n);
      TilesGeometry(at, n, After(m), members[1..]);
      assert members == [m] + members[1..];
    }
  }

  /** When an archive is read its members are in order, disjoint with room for a header
      between them, in bounds and even-aligned, and every byte is accounted for. */
  lemma {:induction false} LayoutGeometry(archive: string, members: seq<Member>)
    requires Layout(archive, members)
    ensures AllPlaced(members, 8, |archive|) && InOrder(members)
    ensures 8 + TotalSize(members) == |archive| && |members| <= MAXIMUM_MEMBERS
  {
    TilesGeometry(HeadersOf(archive), |archive|, 8, members);
  }
}
