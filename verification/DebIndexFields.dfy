/** What a stanza of a Packages index says to a reader that knows all its fields
    (formats/deb/render.go). */
module DebIndexFields {
  import opened Wrappers
  import opened Lines
  import opened Decimal
  import opened ControlText
  import opened ControlRoundTrip
  import opened DebPackages
  import opened DebPackagesRoundTrip
  import opened DebIndexRoundTrip

  /** The control file's field is published as it is: it is not the status of an installed package,
      and says nothing of the published file. */
  predicate IsOwn(name: string) {
    name != "Status" && name != "Filename" && name != "Size" && name != "MD5sum" && name != "SHA1" && name != "SHA256"
  }

  /** A plain value is found under the name, in lower case. */
  predicate Tells(fields: map<string, string>, name: string, value: string) {
    Plain(value) ==> Lower(name) in fields && fields[Lower(name)] == value
  }

  /** The digest fields of a published package. */
  lemma {:induction false} DigestValues(e: Indexed)
    ensures var fields := PublishedFields(e);
            "MD5sum" in fields && fields["MD5sum"] == e.md5 && "SHA1" in fields && fields["SHA1"] == e.sha1
  {
    assert |"Filename"| == 8 && |"Size"| == 4 && |"MD5sum"| == 6 && |"SHA1"| == 4 && |"SHA256"| == 6;
    assert "Size"[1] != "SHA1"[1] && "MD5sum"[0] != "SHA256"[0];
  }

  lemma {:induction false} OwnValue(e: Indexed, name: string)
    requires name in e.control && IsOwn(name)
    ensures name in PublishedFields(e) && PublishedFields(e)[name] == e.control[name]
  {
  }

  lemma {:induction false} OnlyOwn(e: Indexed, name: string)
    requires name in PublishedFields(e)
    ensures name != "Status" && (IsOwn(name) ==> name in e.control)
  {
    assert |"Status"| == 6 && |"Filename"| == 8 && |"Size"| == 4 && |"MD5sum"| == 6 && |"SHA1"| == 4 && |"SHA256"| == 6;
    assert "Status"[1] != "SHA256"[1] && "Status"[0] != "MD5sum"[0];
  }

  lemma {:induction false} FieldIsTold(st: State, order: seq<string>, fields: map<string, string>, name: string)
    requires Lists(order, fields) && Writable(order, fields) && HasRead(st, order, fields, |order|) && name in fields
    ensures Tells(st.fields, name, fields[name])
  {
    if Plain(fields[name]) {
      assert name in order;
      var i :| 0 <= i < |order| && order[i] == name;
    }
  }

  lemma {:induction false} NameIsKnown(st: State, order: seq<string>, fields: map<string, string>, lower: string) returns (name: string)
    requires Lists(order, fields) && Writable(order, fields) && HasRead(st, order, fields, |order|) && lower in st.fields
    ensures name in fields && Lower(name) == lower
  {
    assert lower in st.seen;
    var i :| 0 <= i < |order| && Lower(order[i]) == lower;
    name := order[i];
  }

  /** Where the package lies, its size and its three digests. */
  predicate TellsFile(told: map<string, string>, e: Indexed) {
    && Tells(told, "Filename", e.poolPath) && Tells(told, "Size", Format(e.size))
    && Tells(told, "MD5sum", e.md5) && Tells(told, "SHA1", e.sha1) && Tells(told, "SHA256", e.sha256)
  }

  predicate TellsOwn(told: map<string, string>, e: Indexed) {
    forall name | name in e.control && IsOwn(name) :: Tells(told, name, e.control[name])
  }

  /** The name of a field that a stanza may have. */
  predicate MayHave(e: Indexed, name: string) { name != "Status" && (IsOwn(name) ==> name in e.control) }

  ghost predicate TellsNoMore(told: map<string, string>, e: Indexed) {
    forall lower | lower in told :: exists name :: Lower(name) == lower && MayHave(e, name)
  }

  lemma {:induction false} FileIsTold(e: Indexed, order: seq<string>, st: State)
    requires var fields := PublishedFields(e);
             Lists(order, fields) && Writable(order, fields) && HasRead(st, order, fields, |order|)
    ensures TellsFile(st.fields, e)
  {
    var fields := PublishedFields(e);
    PublishedValues(e);
    DigestValues(e);
    FieldIsTold(st, order, fields, "Filename");
    FieldIsTold(st, order, fields, "Size");
    FieldIsTold(st, order, fields, "MD5sum");
    FieldIsTold(st, order, fields, "SHA1");
    FieldIsTold(st, order, fields, "SHA256");
  }

  lemma {:induction false} OwnIsTold(e: Indexed, order: seq<string>, st: State)
    requires var fields := PublishedFields(e);
             Lists(order, fields) && Writable(order, fields) && HasRead(st, order, fields, |order|)
    ensures TellsOwn(st.fields, e) && TellsNoMore(st.fields, e)
  {
    var fields := PublishedFields(e);
    forall name | name in e.control && IsOwn(name) ensures Tells(st.fields, name, e.control[name]) {
      OwnValue(e, name);
      FieldIsTold(st, order, fields, name);
    }
    forall lower | lower in st.fields ensures exists name :: Lower(name) == lower && MayHave(e, name) {
      var name := NameIsKnown(st, order, fields, lower);
      OnlyOwn(e, name);
    }
  }

  /** A stanza tells, under their own names, where the package lies, its size and its three digests,
      and every field of its control file but those; and nothing else: no status of an
      installed package is published. */
  lemma {:induction false} StanzaTells(e: Indexed, order: seq<string>) returns (told: map<string, string>)
    requires Lists(order, PublishedFields(e)) && Writable(order, PublishedFields(e)) && Takeable(order) && |order| >= 2
    ensures ParseFields(Repository, TrimSpace(Body(order, PublishedFields(e)))) == Ok(told)
    ensures TellsFile(told, e) && TellsOwn(told, e) && TellsNoMore(told, e)
  {
    var st := StanzaReads(order, PublishedFields(e));
    told := st.fields;
    FileIsTold(e, order, st);
    OwnIsTold(e, order, st);
  }
}
