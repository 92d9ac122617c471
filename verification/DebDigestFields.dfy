/** Which control files give an index that can be read back. A control file may carry
    digest fields of its own; the parser of control files writes their names in canonical
    case, the renderer adds its own in another. */
module DebDigestFields {
  import opened Wrappers
  import opened ControlText
  import opened ControlRoundTrip
  import opened DebPackages
  import opened DebPackagesRoundTrip
  import opened DebIndexRoundTrip

  /** The canonical form of a name depends on its letters only. */
  lemma {:induction false} SameLetters(a: string, b: string, upper: bool)
    requires Lower(a) == Lower(b)
    ensures Canonical(a, upper) == Canonical(b, upper)
    decreases |a|
  {
    assert |a| == |b|;
    if a != "" {
      assert Lower(a)[0] == LowerChar(a[0]) && Lower(b)[0] == LowerChar(b[0]);
      assert Lower(a)[1..] == Lower(a[1..]) && Lower(b)[1..] == Lower(b[1..]);
      SameLetters(a[1..], b[1..], a[0] == '-');
    }
  }

  lemma {:induction false} CanonicalTail(s: string)
    requires '-' !in s
    ensures Canonical(s, false) == Lower(s)
  {
    if s != "" {
      CanonicalTail(s[1..]);
    }
  }

  /** Without a dash: a capital, then small letters. */
  lemma {:induction false} CanonicalIs(s: string, t: string)
    requires s != "" && |s| == |t| && '-' !in s && t[0] == UpperChar(s[0])
    requires forall i | 1 <= i < |s| :: LowerChar(s[i]) == t[i]
    ensures Canonical(s) == t
  {
    CanonicalTail(s[1..]);
    LowerIs(s[1..], t[1..]);
    assert t == [t[0]] + t[1..];
  }

  /** The names the renderer adds, and what the control parser would call them. */
  const ADDED: seq<string> := ["Filename", "Size", "MD5sum", "SHA1", "SHA256"]

  const OWN: seq<string> := ["Filename", "Size", "Md5sum", "Sha1", "Sha256"]

  lemma {:induction false} FilenameIs()
    ensures Canonical("Filename") == "Filename"
  {
    CanonicalIs("Filename", "Filename");
  }

  lemma {:induction false} SizeIs()
    ensures Canonical("Size") == "Size"
  {
    CanonicalIs("Size", "Size");
  }

  lemma {:induction false} Md5Is()
    ensures Canonical("MD5sum") == "Md5sum" && Lower("MD5sum") == Lower("Md5sum")
  {
    CanonicalIs("MD5sum", "Md5sum");
    LowerIs("MD5sum", "md5sum");
    LowerIs("Md5sum", "md5sum");
  }

  lemma {:induction false} Sha1Is()
    ensures Canonical("SHA1") == "Sha1" && Lower("SHA1") == Lower("Sha1")
  {
    CanonicalIs("SHA1", "Sha1");
    LowerIs("SHA1", "sha1");
    LowerIs("Sha1", "sha1");
  }

  lemma {:induction false} Sha256Is()
    ensures Canonical("SHA256") == "Sha256" && Lower("SHA256") == Lower("Sha256")
  {
    CanonicalIs("SHA256", "Sha256");
    LowerIs("SHA256", "sha256");
    LowerIs("Sha256", "sha256");
  }

  lemma {:induction false} AddedAreOwn()
    ensures forall k | 0 <= k < 5 :: Canonical(ADDED[k]) == OWN[k]
  {
    FilenameIs();
    SizeIs();
    Md5Is();
    Sha1Is();
    Sha256Is();
  }

  lemma {:induction false} OwnAreDifferent()
    ensures forall j, k | 0 <= j < k < 5 :: OWN[j] != OWN[k]
  {
    assert |OWN[0]| == 8 && |OWN[1]| == 4 && |OWN[2]| == 6 && |OWN[3]| == 4 && |OWN[4]| == 6;
    assert OWN[1][1] == 'i' && OWN[3][1] == 'h' && OWN[2][0] == 'M' && OWN[4][0] == 'S';
  }

  /** Where a published field comes from. */
  lemma {:induction false} PublishedName(e: Indexed, name: string)
    ensures name in PublishedFields(e) <==> name in ADDED || (name in e.control && name !in REPLACED)
  {
    assert ADDED[0] == "Filename" && ADDED[1] == "Size" && ADDED[2] == "MD5sum" && ADDED[3] == "SHA1" && ADDED[4] == "SHA256";
  }

  lemma {:induction false} NotReplaced()
    ensures "Md5sum" !in REPLACED && "Sha1" !in REPLACED && "Sha256" !in REPLACED
    ensures "Filename" in REPLACED && "Size" in REPLACED
  {
    assert "Md5sum"[1] == 'd' && "MD5sum"[1] == 'D' && "SHA256"[0] == 'S' && "Md5sum"[0] == 'M' && "Status"[0] == 'S';
    assert "Sha1"[1] == 'h' && "SHA1"[1] == 'H' && "Size"[1] == 'i';
    assert "Sha256"[1] == 'h' && "SHA256"[1] == 'H' && "Status"[1] == 't' && "MD5sum"[0] == 'M';
    assert |"Filename"| == 8 && |"Size"| == 4 && |"SHA1"| == 4 && |"Sha1"| == 4 && |"Md5sum"| == 6 && |"Sha256"| == 6;
  }

  predicate OwnDigest(control: map<string, string>) { "Md5sum" in control || "Sha1" in control || "Sha256" in control }

  /** Two published names with the same letters: one is an added digest, the other the
      control file's own. */
  lemma {:induction false} SameLettersMeansOwn(e: Indexed, a: string, b: string)
    requires Readable(e.control) && a in PublishedFields(e) && b in PublishedFields(e) && a != b && Lower(a) == Lower(b)
    ensures OwnDigest(e.control)
  {
    PublishedName(e, a);
    PublishedName(e, b);
    SameLetters(a, b, true);
    if a in ADDED && b in ADDED {
      TwoAdded(a, b);
    } else if a in ADDED {
      OneAdded(e, a, b);
    } else if b in ADDED {
      OneAdded(e, b, a);
    }
  }

  lemma {:induction false} TwoAdded(a: string, b: string)
    requires a in ADDED && b in ADDED && Canonical(a) == Canonical(b)
    ensures a == b
  {
    AddedAreOwn();
    OwnAreDifferent();
    var i :| 0 <= i < 5 && ADDED[i] == a;
    var j :| 0 <= j < 5 && ADDED[j] == b;
    assert OWN[i] == OWN[j];
  }

  lemma {:induction false} OneAdded(e: Indexed, a: string, b: string)
    requires a in ADDED && b in e.control && b !in REPLACED && Canonical(b) == b && Canonical(a) == Canonical(b)
    ensures OwnDigest(e.control)
  {
    AddedAreOwn();
    NotReplaced();
    var i :| 0 <= i < 5 && ADDED[i] == a;
    assert b == OWN[i];
  }

  lemma {:induction false} BothPublished(e: Indexed, order: seq<string>, own: string, added: string)
    requires Lists(order, PublishedFields(e)) && own in e.control && own !in REPLACED && added in ADDED
    requires own != added && Lower(own) == Lower(added)
    ensures !DistinctNames(order)
  {
    PublishedName(e, own);
    PublishedName(e, added);
    assert own in order && added in order;
    var i :| 0 <= i < |order| && order[i] == own;
    var j :| 0 <= j < |order| && order[j] == added;
    assert i < j || j < i;
  }

  lemma {:induction false} OwnDigestCollides(e: Indexed, order: seq<string>)
    requires Lists(order, PublishedFields(e)) && OwnDigest(e.control)
    ensures !DistinctNames(order)
  {
    NotReplaced();
    assert ADDED[2] == "MD5sum" && ADDED[3] == "SHA1" && ADDED[4] == "SHA256";
    assert "Md5sum"[1] != "MD5sum"[1] && "Sha1"[1] != "SHA1"[1] && "Sha256"[1] != "SHA256"[1];
    if "Md5sum" in e.control {
      Md5Is();
      BothPublished(e, order, "Md5sum", "MD5sum");
    } else if "Sha1" in e.control {
      Sha1Is();
      BothPublished(e, order, "Sha1", "SHA1");
    } else {
      Sha256Is();
      BothPublished(e, order, "Sha256", "SHA256");
    }
  }

  /** For every control file the parser accepts: the published names differ ignoring case if
      and only if it carries none of the three digest fields. */
  lemma {:induction false} OwnDigestFieldCollides(e: Indexed, order: seq<string>)
    requires Readable(e.control) && Lists(order, PublishedFields(e))
    ensures DistinctNames(order) <==> !OwnDigest(e.control)
  {
    if OwnDigest(e.control) {
      OwnDigestCollides(e, order);
    } else {
      forall i, j | 0 <= i < j < |order| ensures Lower(order[i]) != Lower(order[j]) {
        assert order[i] in order && order[j] in order;
        if Lower(order[i]) == Lower(order[j]) {
          SameLettersMeansOwn(e, order[i], order[j]);
        }
      }
    }
  }

  ghost predicate AllFromControlFiles(entries: seq<Written>) {
    forall i | 0 <= i < |entries| :: Readable(entries[i].package.control)
  }

  /** No digest field of its own, at most 256 fields, and names of at most 64 characters. */
  predicate NoneIsRefused(entries: seq<Written>) {
    forall i | 0 <= i < |entries| :: !OwnDigest(entries[i].package.control) && Bounded(entries[i].order)
  }

  /** So an index of packages whose control files the parser accepted is read back, if and only
      if none of them carries a digest field of its own or exceeds the reader's bounds;
      otherwise it is refused. */
  lemma {:induction false} ControlFilesRoundTrip(safe: string -> bool, entries: seq<Written>)
    requires entries != [] && AllRenderable(safe, entries) && DistinctIdentities(entries) && AllFromControlFiles(entries)
    ensures AllListed(entries)
    ensures ParsePackages(safe, IndexText(entries)) ==
              if NoneIsRefused(entries) then Ok(PublishedAll(entries)) else Err(())
  {
    IndexRoundTrip(safe, entries);
    forall i | 0 <= i < |entries|
      ensures Takeable(entries[i].order) <==> !OwnDigest(entries[i].package.control) && Bounded(entries[i].order)
    {
      assert Renderable(safe, entries[i].package, entries[i].order);
      OwnDigestFieldCollides(entries[i].package, entries[i].order);
    }
  }
}
