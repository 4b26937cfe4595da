/** What becomes of the event that a record maps to: how large it is, and exactly when a batch refuses it. */
module MappedEvents {
  import opened Exceptions
  import opened Octets
  import opened Json
  import opened Contract
  import opened Foreign
  import opened RawEvents
  import opened Serialization
  import opened Utf8
  import opened Nesting
  import FileReader
  import BaselineMapper
  import BatchAssembler
  import BoundedEventQueue
  import JsonReader

  /** Device and inode number of a file, printed. */
  const IDENTITY_LIMIT := 64

  /** A raw record as a reader hands it over. */
  ghost predicate AsRead(library: Library, raw: RawEvent) {
    && |raw.rawPayload| <= MAXIMUM_EVENT_BYTES && IsUtf8(raw.rawPayload)
    && raw.decoded.Obj? && library.parseStrict(raw.rawPayload) == Document(raw.decoded)
    && FileReader.EnvelopeVerdict(raw.decoded)
       == FileReader.Accepted(raw.decoded, raw.upstreamEventId, raw.endpointId, raw.eventTime)
    && IsInstant(raw.receivedTime) && raw.adapterType == FileReader.FileText()
    && raw.contentType == FileReader.JsonTypeText() && raw.upstreamSenderId == raw.source.source
    && MatchesIdentifier(raw.source.source, true)
    && IsUtf8(raw.source.identity) && |raw.source.identity| <= IDENTITY_LIMIT
    && raw.source.start <= raw.source.end <= MAXIMUM_SAFE_INTEGER
  }

  // ---------------------------------------------------------------- strings of the record

  lemma {:induction false} LookupIsMember(members: seq<Member>, key: Text)
    ensures Lookup(members, key) != [] ==> exists m :: m in members && m.value == Lookup(members, key)[0]
    decreases |members|
  {
    if members != [] {
      if members[0].key == key {
        assert members[0] in members;
      } else {
        LookupIsMember(members[1..], key);
      }
    }
  }

  /** A string of the record is valid text, and its escaped form is no longer than the record. */
  ghost predicate Within(text: Text, raw: RawEvent) {
    IsUtf8(text) && |EscapeBytes(text)| <= |raw.rawPayload|
  }

  lemma FieldWithin(library: Library, raw: RawEvent, name: Text, absent: Text, wrongType: Text, empty: Text)
    requires Lawful(library) && AsRead(library, raw)
    ensures var field := StringField(raw.decoded.members, name, absent, wrongType, empty);
            field.Value? ==> field.text != [] && Within(field.text, raw)
  {
    hide IsUtf8, Lookup, EscapeBytes, Dump, FileReader.EnvelopeVerdict, MatchesIdentifier;
    var members := raw.decoded.members;
    assert ParsesStrictly(library, raw.rawPayload);
    LookupIsMember(members, name);
    if StringField(members, name, absent, wrongType, empty).Value? {
      var m :| m in members && m.value == Lookup(members, name)[0];
      assert TextOk(m.value);
    }
  }

  lemma {:induction false} EscapesCover(s: Text)
    ensures |s| <= |EscapeBytes(s)|
    decreases |s|
  {
    if s != [] {
      EscapesCover(s[1..]);
    }
  }

  lemma {:induction false} EscapesConcat(a: Text, b: Text)
    ensures EscapeBytes(a + b) == EscapeBytes(a) + EscapeBytes(b)
    decreases |a|
  {
    hide EscapeByte;
    if a == [] {
      assert a + b == b;
    } else {
      EscapesConcat(a[1..], b);
      assert (a + b)[0] == a[0] && (a + b)[1..] == a[1..] + b;
      assert EscapeByte(a[0]) + (EscapeBytes(a[1..]) + EscapeBytes(b))
          == EscapeByte(a[0]) + EscapeBytes(a[1..]) + EscapeBytes(b);
    }
  }

  lemma {:induction false} EncodeConcat(a: seq<Scalar>, b: seq<Scalar>)
    ensures Encode(a + b) == Encode(a) + Encode(b)
    decreases |a|
  {
    hide EncodeScalar;
    if a == [] {
      assert a + b == b;
    } else {
      EncodeConcat(a[1..], b);
      assert (a + b)[0] == a[0] && (a + b)[1..] == a[1..] + b;
      assert EncodeScalar(a[0]) + (Encode(a[1..]) + Encode(b)) == EncodeScalar(a[0]) + Encode(a[1..]) + Encode(b);
    }
  }

  lemma Utf8Concat(a: Text, b: Text)
    requires IsUtf8(a) && IsUtf8(b)
    ensures IsUtf8(a + b)
  {
    hide Decode, Encode;
    EncodeInvertsDecode(a);
    EncodeInvertsDecode(b);
    EncodeConcat(Decode(a).value, Decode(b).value);
    DecodeInvertsEncode(Decode(a).value + Decode(b).value);
  }

  // ---------------------------------------------------------------- the members that are not mapped

  /** Dropping members makes no document longer. */
  lemma {:induction false} UnmappedSize(members: seq<Member>)
    ensures |DumpMembers(BaselineMapper.Unmapped(members))| <= |DumpMembers(members)|
    decreases |members|
  {
    hide DumpMember, BaselineMapper.MappedNames;
    if members != [] {
      var front, last := members[..|members| - 1], members[|members| - 1];
      assert members == front + [last];
      UnmappedSize(front);
      DumpMembersSnoc(front, last);
      DumpMembersSnoc(BaselineMapper.Unmapped(front), last);
      DumpsNothing();
    }
  }

  lemma DumpsNothing()
    ensures DumpMembers([]) == []
  {
  }

  lemma {:induction false} UnmappedIsAmong(members: seq<Member>)
    ensures forall m | m in BaselineMapper.Unmapped(members) :: m in members
    decreases |members|
  {
    hide BaselineMapper.MappedNames;
    if members != [] {
      UnmappedIsAmong(members[..|members| - 1]);
    }
  }

  /** The members that are not mapped, as a document of their own. */
  function Rest(raw: RawEvent): Json
    requires raw.decoded.Obj?
  {
    Obj(BaselineMapper.Unmapped(raw.decoded.members))
  }

  lemma RestIsPart(raw: RawEvent)
    requires raw.decoded.Obj?
    ensures TreeOk(raw.decoded, 0) ==> TreeOk(Rest(raw), 0)
    ensures TextOk(raw.decoded) ==> TextOk(Rest(raw))
    ensures forall n | Shallow(raw.decoded, n) :: Shallow(Rest(raw), n)
    ensures |Dump(Rest(raw))| <= |Dump(raw.decoded)|
  {
    hide DumpMembers, IsUtf8, BaselineMapper.Unmapped;
    UnmappedIsAmong(raw.decoded.members);
    UnmappedSize(raw.decoded.members);
    var rest := BaselineMapper.Unmapped(raw.decoded.members);
    forall i | 0 <= i < |rest| ensures exists k :: 0 <= k < |raw.decoded.members| && raw.decoded.members[k] == rest[i] {
      assert rest[i] in rest;
    }
  }

  // ---------------------------------------------------------------- sizes

  lemma SizeCons(member: Member, rest: seq<Member>)
    ensures |DumpMembers([member] + rest)| <= |DumpMember(member)| + 1 + |DumpMembers(rest)|
  {
    hide DumpMember;
    assert ([member] + rest)[0] == member && ([member] + rest)[1..] == rest;
  }

  lemma MemberSize(key: Text, value: Json)
    ensures |DumpMember(Member(key, value))| <= 6 * |key| + 3 + |Dump(value)|
  {
    hide Dump;
    BatchAssembler.EscapesAreShort(key);
  }

  lemma TextMember(key: Text, text: Text)
    ensures |DumpMember(Member(key, Str(text)))| <= 6 * |key| + 5 + |EscapeBytes(text)|
    ensures |EscapeBytes(text)| <= 6 * |text|
  {
    hide EscapeBytes;
    MemberSize(key, Str(text));
    BatchAssembler.EscapesAreShort(text);
  }

  lemma ObjectOfOne(member: Member)
    ensures |Dump(Obj([member]))| == |DumpMember(member)| + 2
  {
    hide DumpMember;
  }

  lemma ObjectSize(members: seq<Member>)
    ensures |Dump(Obj(members))| == |DumpMembers(members)| + 2
  {
    hide DumpMembers;
  }

  lemma {:induction false} DigitsOf(n: nat, digits: nat)
    requires n < Power(digits) && digits > 0
    ensures |NatText(n)| <= digits
    decreases digits
  {
    if n >= 10 {
      DigitsOf(n / 10, digits - 1);
    }
  }

  function Power(digits: nat): nat {
    if digits == 0 then 1 else 10 * Power(digits - 1)
  }

  lemma SafeText(number: int)
    requires IsSafe(number)
    ensures |Dump(Int(number))| <= 17
  {
    assert Power(4) == 10000;
    assert Power(8) == 100000000 by {
      assert Power(6) == 1000000;
    }
    assert Power(12) == 1000000000000 by {
      assert Power(10) == 10000000000;
    }
    assert Power(16) == 10000000000000000 by {
      assert Power(14) == 100000000000000;
    }
    DigitsOf(if number < 0 then -number else number, 16);
  }

  /** The parts of an OCSF document whose size depends on the record. */
  lemma OcsfSize(raw: RawEvent, failed: bool, username: Text, address: Text, time: int, unmapped: Json)
    requires IsSafe(time)
    ensures |Dump(BaselineMapper.OcsfOf(raw, failed, username, address, time, unmapped))|
         <= |EscapeBytes(raw.endpointId)| + 2 * |EscapeBytes(username)| + |EscapeBytes(address)|
            + |Dump(unmapped)| + 3300
  {
    hide DumpMember, EscapeBytes, Dump, DumpMembers, BaselineMapper.OcsfOf, IsSafe;
    OcsfParts(raw, failed, username, address, time, unmapped);
    var ms := BaselineMapper.OcsfOf(raw, failed, username, address, time, unmapped).members;
    SumOfThirteen(ms);
    ObjectSize(ms);
  }

  lemma SumOfThirteen(ms: seq<Member>)
    requires |ms| == 13
    ensures |DumpMembers(ms)| <= 13
              + |DumpMember(ms[0])| + |DumpMember(ms[1])| + |DumpMember(ms[2])| + |DumpMember(ms[3])|
              + |DumpMember(ms[4])| + |DumpMember(ms[5])| + |DumpMember(ms[6])| + |DumpMember(ms[7])|
              + |DumpMember(ms[8])| + |DumpMember(ms[9])|
              + |DumpMember(ms[10])| + |DumpMember(ms[11])| + |DumpMember(ms[12])|
  {
    hide DumpMember, DumpMembers;
    DumpsNothing();
    assert ms[13..] == [] && ms[0..] == ms;
    SizeFrom(ms, 12);
    SizeFrom(ms, 11);
    SizeFrom(ms, 10);
    SizeFrom(ms, 9);
    SizeFrom(ms, 8);
    SizeFrom(ms, 7);
    SizeFrom(ms, 6);
    SizeFrom(ms, 5);
    SizeFrom(ms, 4);
    SizeFrom(ms, 3);
    SizeFrom(ms, 2);
    SizeFrom(ms, 1);
    SizeFrom(ms, 0);
  }

  lemma SizeFrom(members: seq<Member>, i: nat)
    requires i < |members|
    ensures |DumpMembers(members[i..])| <= |DumpMember(members[i])| + 1 + |DumpMembers(members[i + 1..])|
  {
    hide DumpMember, DumpMembers;
    assert members[i..] == [members[i]] + members[i + 1..];
    SizeCons(members[i], members[i + 1..]);
  }

  lemma OcsfParts(raw: RawEvent, failed: bool, username: Text, address: Text, time: int, unmapped: Json)
    requires IsSafe(time)
    ensures BaselineMapper.OcsfOf(raw, failed, username, address, time, unmapped).Obj?
    ensures var ms := BaselineMapper.OcsfOf(raw, failed, username, address, time, unmapped).members;
            && |ms| == 13
            && (forall i | i in {0, 1, 2, 6, 8, 9, 10} :: |DumpMember(ms[i])| <= 230) && |DumpMember(ms[5])| <= 470
            && |DumpMember(ms[3])| <= 230 + |EscapeBytes(raw.endpointId)|
            && |DumpMember(ms[4])| <= 230 + |EscapeBytes(username)|
            && |DumpMember(ms[7])| <= 230 + |EscapeBytes(address)| && |DumpMember(ms[11])| <= 230 + |Dump(unmapped)|
            && |DumpMember(ms[12])| <= 230 + |EscapeBytes(username)|
  {
    hide DumpMember, Ascii, EscapeBytes, Dump, DumpMembers, BaselineMapper.Unmapped;
    var ms := BaselineMapper.OcsfOf(raw, failed, username, address, time, unmapped).members;
    forall i | i in {0, 1, 2, 6, 8, 9, 10} ensures |DumpMember(ms[i])| <= 230 {
      SafeText(ms[i].value.number);
      MemberSize(ms[i].key, ms[i].value);
    }
    var intro := if failed then Ascii("Failed login for ") else Ascii("Successful login for ");
    EscapesConcat(intro, username);
    BatchAssembler.EscapesAreShort(intro);
    TextMember(ms[4].key, intro + username);
    TextMember(Ascii("hostname"), raw.endpointId);
    ObjectOfOne(ms[3].value.members[0]);
    MemberSize(ms[3].key, ms[3].value);
    TextMember(Ascii("ip"), address);
    ObjectOfOne(ms[7].value.members[0]);
    MemberSize(ms[7].key, ms[7].value);
    TextMember(Ascii("name"), username);
    ObjectOfOne(ms[12].value.members[0]);
    MemberSize(ms[12].key, ms[12].value);
    MemberSize(ms[11].key, unmapped);
    MetadataSize();
    assert ms[5].key == Ascii("metadata");
  }

  lemma MetadataSize()
    ensures |DumpMember(Member(Ascii("metadata"), BaselineMapper.Metadata()))| <= 470
  {
    hide DumpMember, Ascii, EscapeBytes, Dump, DumpMembers;
    var name, vendor := Member(Ascii("name"), Str(Ascii("Trivikrama Collector"))),
        Member(Ascii("vendor_name"), Str(Ascii("Trivikrama")));
    var version := Member(Ascii("version"), Str(Ascii("1.1.0")));
    var product := Member(Ascii("product"), Obj([name, vendor]));
    TextMember(name.key, Ascii("Trivikrama Collector"));
    TextMember(vendor.key, Ascii("Trivikrama"));
    TextMember(version.key, Ascii("1.1.0"));
    PairSize(name, vendor);
    MemberSize(product.key, product.value);
    PairSize(product, version);
    MemberSize(Ascii("metadata"), Obj([product, version]));
  }

  lemma PairSize(a: Member, b: Member)
    ensures |Dump(Obj([a, b]))| == |DumpMember(a)| + |DumpMember(b)| + 3
  {
    hide DumpMember;
    assert [a, b][1..] == [b] && DumpMembers([b]) == DumpMember(b);
    assert DumpMembers([a, b]) == DumpMember(a) + [COMMA] + DumpMembers([a, b][1..]);
  }

  lemma SumOfEight(ms: seq<Member>)
    requires |ms| == 8
    ensures |DumpMembers(ms)| <= 8
              + |DumpMember(ms[0])| + |DumpMember(ms[1])| + |DumpMember(ms[2])| + |DumpMember(ms[3])|
              + |DumpMember(ms[4])| + |DumpMember(ms[5])| + |DumpMember(ms[6])| + |DumpMember(ms[7])|
  {
    hide DumpMember, DumpMembers;
    DumpsNothing();
    assert ms[8..] == [] && ms[0..] == ms;
    SizeFrom(ms, 7);
    SizeFrom(ms, 6);
    SizeFrom(ms, 5);
    SizeFrom(ms, 4);
    SizeFrom(ms, 3);
    SizeFrom(ms, 2);
    SizeFrom(ms, 1);
    SizeFrom(ms, 0);
  }

  lemma SumOfSix(ms: seq<Member>)
    requires |ms| == 6
    ensures |DumpMembers(ms)| <= 6
              + |DumpMember(ms[0])| + |DumpMember(ms[1])| + |DumpMember(ms[2])| + |DumpMember(ms[3])|
              + |DumpMember(ms[4])| + |DumpMember(ms[5])|
  {
    hide DumpMember, DumpMembers;
    DumpsNothing();
    assert ms[6..] == [] && ms[0..] == ms;
    SizeFrom(ms, 5);
    SizeFrom(ms, 4);
    SizeFrom(ms, 3);
    SizeFrom(ms, 2);
    SizeFrom(ms, 1);
    SizeFrom(ms, 0);
  }

  lemma SumOfThree(ms: seq<Member>)
    requires |ms| == 3
    ensures |DumpMembers(ms)| <= 3
              + |DumpMember(ms[0])| + |DumpMember(ms[1])| + |DumpMember(ms[2])|
  {
    hide DumpMember, DumpMembers;
    DumpsNothing();
    assert ms[3..] == [] && ms[0..] == ms;
    SizeFrom(ms, 2);
    SizeFrom(ms, 1);
    SizeFrom(ms, 0);
  }

  // ---------------------------------------------------------------- the event

  /** What mapping makes of a record, part by part. */
  lemma OcsfOfMapped(library: Library, raw: RawEvent, event: ContractEvent)
    requires Lawful(library) && AsRead(library, raw) && BaselineMapper.EventFrom(library, raw) == Some(event)
    ensures |Dump(event.ocsf)| <= 10 * |raw.rawPayload| + 3300
    ensures event.ocsf.Obj? && TextOk(event.ocsf)
    ensures TreeOk(event.ocsf, 3) <==> TreeOk(Rest(raw), 4)
    ensures Shallow(event.ocsf, MAXIMUM_NESTING - 3) <==> Shallow(Rest(raw), MAXIMUM_NESTING - 4)
  {
    hide Ascii, EscapeBytes, Dump, DumpMembers, IsUtf8, BaselineMapper.Unmapped, BaselineMapper.OcsfOf, StringField,
      BaselineMapper.EventOf, MatchesIdentifier, BaselineMapper.AbsentText, BaselineMapper.WrongTypeText,
      BaselineMapper.EmptyText, Shallow, TreeOk, TextOk;
    var members := raw.decoded.members;
    var username := BaselineMapper.RequiredString(members, Ascii("username"));
    var address := BaselineMapper.RequiredString(members, Ascii("source_ip"));
    var failed := BaselineMapper.RequiredString(members, Ascii("event_type")).text == Ascii("login_failed");
    var time := library.rfc3339Milliseconds(raw.eventTime).value;
    OcsfIs(library, raw, event);
    EnvelopeWithin(library, raw);
    RequiredWithin(library, raw, Ascii("username"));
    RequiredWithin(library, raw, Ascii("source_ip"));
    assert CountsTime(library, raw.eventTime) && ParsesStrictly(library, raw.rawPayload);
    RestIsPart(raw);
    OcsfSize(raw, failed, username.text, address.text, time, Rest(raw));
    OcsfShape(raw, failed, username.text, address.text, time, Rest(raw));
  }

  lemma RequiredWithin(library: Library, raw: RawEvent, name: Text)
    requires Lawful(library) && AsRead(library, raw)
    ensures var field := BaselineMapper.RequiredString(raw.decoded.members, name);
            field.Value? ==> field.text != [] && Within(field.text, raw)
  {
    hide Lawful, AsRead, Within;
    FieldWithin(library, raw, name, BaselineMapper.AbsentText(), BaselineMapper.WrongTypeText(),
        BaselineMapper.EmptyText());
  }

  lemma EnvelopeWithin(library: Library, raw: RawEvent)
    requires Lawful(library) && AsRead(library, raw)
    ensures raw.endpointId != [] && Within(raw.endpointId, raw) && raw.upstreamEventId != []
            && Within(raw.upstreamEventId, raw)
  {
    hide Lawful, Within, Ascii, StringField, IsUtf8, MatchesIdentifier, FileReader.AbsentText, FileReader.WrongTypeText,
      FileReader.EmptyText;
    FieldWithin(library, raw, FileReader.EventIdText(), FileReader.AbsentText(), FileReader.WrongTypeText(),
        FileReader.EmptyText());
    FieldWithin(library, raw, FileReader.EndpointIdText(), FileReader.AbsentText(), FileReader.WrongTypeText(),
        FileReader.EmptyText());
  }

  lemma OcsfIs(library: Library, raw: RawEvent, event: ContractEvent)
    requires raw.decoded.Obj? && BaselineMapper.EventFrom(library, raw) == Some(event)
    ensures BaselineMapper.Mappable(library, raw) && library.rfc3339Milliseconds(raw.eventTime).Some?
    ensures var members := raw.decoded.members;
            && BaselineMapper.RequiredString(members, Ascii("username")).Value?
            && BaselineMapper.RequiredString(members, Ascii("source_ip")).Value?
            && BaselineMapper.RequiredString(members, Ascii("event_type")).Value?
            && var failed := BaselineMapper.RequiredString(members, Ascii("event_type")).text == Ascii("login_failed");
               event.ocsf == BaselineMapper.OcsfOf(
                               raw, failed, BaselineMapper.RequiredString(members, Ascii("username")).text,
                               BaselineMapper.RequiredString(members, Ascii("source_ip")).text,
                               library.rfc3339Milliseconds(raw.eventTime).value, Rest(raw))
  {
    hide Ascii, StringField, BaselineMapper.Unmapped, BaselineMapper.OcsfOf;
    var names := [Ascii("event_type"), Ascii("username"), Ascii("source_ip")];
    assert names[0] in names && names[1] in names && names[2] in names;
  }

  lemma AsciiTexts()
    ensures forall s: string {:trigger Ascii(s)} :: IsUtf8(Ascii(s))
  {
    forall s: string ensures IsUtf8(Ascii(s)) {
      AsciiIsUtf8(Ascii(s));
    }
  }

  /** Neither the depth nor the text of this value can be objected to within an OCSF document. */
  predicate Flat(value: Json) {
    TextOk(value) && TreeOk(value, 4) && Shallow(value, MAXIMUM_NESTING - 4)
  }

  /** A document of strings. */
  lemma StringsShape(members: seq<Member>, depth: nat, containers: nat)
    requires forall m | m in members :: IsUtf8(m.key) && m.value.Str? && IsUtf8(m.value.text)
    requires depth < MAXIMUM_NESTING && containers > 0
    ensures TextOk(Obj(members)) && TreeOk(Obj(members), depth) && Shallow(Obj(members), containers)
  {
    hide IsUtf8;
    assert forall i | 0 <= i < |members| :: members[i] in members;
  }

  lemma OneString(key: Text, text: Text)
    requires IsUtf8(key) && IsUtf8(text)
    ensures Flat(Obj([Member(key, Str(text))]))
  {
    hide IsUtf8, TextOk, TreeOk, Shallow;
    StringsShape([Member(key, Str(text))], 4, MAXIMUM_NESTING - 4);
  }

  /** The shape of a document is that of its one member that is not flat. */
  lemma ShapeOf(members: seq<Member>, k: nat)
    requires k < |members| && TextOk(members[k].value) && forall i | 0 <= i < |members| :: IsUtf8(members[i].key)
    requires forall i | 0 <= i < |members| && i != k :: Flat(members[i].value)
    ensures TextOk(Obj(members))
    ensures TreeOk(Obj(members), 3) <==> TreeOk(members[k].value, 4)
    ensures Shallow(Obj(members), MAXIMUM_NESTING - 3) <==> Shallow(members[k].value, MAXIMUM_NESTING - 4)
  {
    hide IsUtf8;
  }

  function MessageOf(failed: bool, username: Text): Text {
    (if failed then Ascii("Failed login for ") else Ascii("Successful login for ")) + username
  }

  lemma OcsfValues(raw: RawEvent, failed: bool, username: Text, address: Text, time: int, unmapped: Json)
    ensures BaselineMapper.OcsfOf(raw, failed, username, address, time, unmapped).Obj?
    ensures var ms := BaselineMapper.OcsfOf(raw, failed, username, address, time, unmapped).members;
            && |ms| == 13
            && ms[0].value == Int(1) && ms[1].value == Int(3) && ms[2].value == Int(3002)
            && ms[3].value == Obj([Member(Ascii("hostname"), Str(raw.endpointId))])
            && ms[4].value == Str(MessageOf(failed, username)) && ms[5].value == BaselineMapper.Metadata()
            && ms[6].value == Int(if failed then 3 else 1) && ms[7].value == Obj([Member(Ascii("ip"), Str(address))])
            && ms[8].value == Int(if failed then 2 else 1) && ms[9].value == Int(time) && ms[10].value == Int(300201)
            && ms[11].value == unmapped && ms[12].value == Obj([Member(Ascii("name"), Str(username))])
  {
    hide Ascii, BaselineMapper.Metadata;
  }

  lemma OcsfShape(raw: RawEvent, failed: bool, username: Text, address: Text, time: int, unmapped: Json)
    requires IsSafe(time) && IsUtf8(username) && IsUtf8(address) && IsUtf8(raw.endpointId) && TextOk(unmapped)
    ensures var ocsf := BaselineMapper.OcsfOf(raw, failed, username, address, time, unmapped);
            && ocsf.Obj? && TextOk(ocsf)
            && (TreeOk(ocsf, 3) <==> TreeOk(unmapped, 4))
            && (Shallow(ocsf, MAXIMUM_NESTING - 3) <==> Shallow(unmapped, MAXIMUM_NESTING - 4))
  {
    hide Ascii, IsUtf8, TextOk, TreeOk, Shallow, Flat, IsSafe, MessageOf, BaselineMapper.Metadata,
      BaselineMapper.OcsfOf;
    AsciiTexts();
    MessageIsText(failed, username);
    OcsfValues(raw, failed, username, address, time, unmapped);
    var ms := BaselineMapper.OcsfOf(raw, failed, username, address, time, unmapped).members;
    MetadataShape();
    OneString(Ascii("hostname"), raw.endpointId);
    OneString(Ascii("ip"), address);
    OneString(Ascii("name"), username);
    ScalarsShape(MessageOf(failed, username), time);
    KeysAreText(ms, raw, failed, username, address, time, unmapped);
    ShapeOf(ms, 11);
  }

  lemma MessageIsText(failed: bool, username: Text)
    requires IsUtf8(username)
    ensures IsUtf8(MessageOf(failed, username))
  {
    hide Ascii, IsUtf8;
    AsciiTexts();
    Utf8Concat(if failed then Ascii("Failed login for ") else Ascii("Successful login for "), username);
  }

  lemma KeysAreText(ms: seq<Member>, raw: RawEvent, failed: bool, username: Text, address: Text, time: int,
          unmapped: Json)
    requires Obj(ms) == BaselineMapper.OcsfOf(raw, failed, username, address, time, unmapped)
    ensures forall i | 0 <= i < |ms| :: IsUtf8(ms[i].key)
  {
    hide Ascii, IsUtf8, BaselineMapper.Metadata;
    AsciiTexts();
  }

  lemma ScalarsShape(text: Text, time: int)
    requires IsSafe(time) && IsUtf8(text)
    ensures Flat(Str(text)) && Flat(Int(time))
    ensures forall n: nat {:trigger Int(n)} | n < 1000000 :: Flat(Int(n))
  {
    hide IsUtf8;
  }

  lemma MetadataShape()
    ensures Flat(BaselineMapper.Metadata())
  {
    hide Ascii, IsUtf8, TextOk, TreeOk, Shallow;
    AsciiTexts();
    var strings := [Member(Ascii("name"), Str(Ascii("Trivikrama Collector"))),
        Member(Ascii("vendor_name"), Str(Ascii("Trivikrama")))];
    StringsShape(strings, 5, MAXIMUM_NESTING - 5);
    PairShape(Ascii("product"), Obj(strings), Ascii("version"), Str(Ascii("1.1.0")));
  }

  lemma PairShape(first: Text, inner: Json, second: Text, text: Json)
    requires IsUtf8(first) && IsUtf8(second) && text.Str? && IsUtf8(text.text)
    requires TextOk(inner) && TreeOk(inner, 5) && Shallow(inner, MAXIMUM_NESTING - 5)
    ensures Flat(Obj([Member(first, inner), Member(second, text)]))
  {
    hide IsUtf8;
    var members := [Member(first, inner), Member(second, text)];
    assert members[0].value == inner && members[1].value == text;
    assert forall i | 0 <= i < 2 :: IsUtf8(members[i].key) && TextOk(members[i].value);
    assert forall i | 0 <= i < 2 :: TreeOk(members[i].value, 5);
    assert forall i | 0 <= i < 2 :: Shallow(members[i].value, MAXIMUM_NESTING - 5);
    assert TextOk(Obj(members)) && TreeOk(Obj(members), 4) && Shallow(Obj(members), MAXIMUM_NESTING - 4);
  }

  // ---------------------------------------------------------------- the whole event

  lemma EventFields(library: Library, raw: RawEvent, event: ContractEvent)
    requires raw.decoded.Obj? && BaselineMapper.EventFrom(library, raw) == Some(event)
    ensures event.eventId == Ascii("sha256:") + library.sha256Hex(BaselineMapper.IdentityInput(raw.source))
    ensures event.source
            == EventSource(raw.source.source, raw.adapterType, raw.upstreamSenderId, raw.endpointId,
                raw.upstreamEventId,
                                        FilePosition(raw.source.identity, raw.source.start, raw.source.end))
    ensures event.receivedTime == raw.receivedTime && event.contentType == raw.contentType
            && event.rawPayload == raw.rawPayload
    ensures event.mapping == BaselineMapper.MappingJson()
  {
    hide Ascii, StringField, BaselineMapper.Unmapped, BaselineMapper.OcsfOf, BaselineMapper.IdentityInput,
      BaselineMapper.MappingJson;
  }

  /** The printed time is short. */
  lemma TimeIsShort(library: Library, milliseconds: int)
    requires Lawful(library) && BaselineMapper.UtcTimestamp(library, milliseconds).Some?
    ensures var time := BaselineMapper.UtcTimestamp(library, milliseconds).value;
            |time.text| <= 60 && IsAscii(time.text)
  {
    var seconds := BaselineMapper.SecondsOf(milliseconds);
    assert PrintsTime(library, seconds);
    var fraction := milliseconds - 1000 * seconds;
    assert -1000 < fraction < 1000;
    ShortNumber(fraction);
  }

  lemma ShortNumber(number: int)
    requires -1000 < number < 1000
    ensures |BaselineMapper.Padded(number)| <= 4 && IsAscii(BaselineMapper.Padded(number))
  {
    var magnitude := if number < 0 then -number else number;
    assert Power(3) == 1000;
    DigitsOf(magnitude, 3);
    JsonReader.NatOfText(magnitude);
  }

  const EVENT_OVERHEAD := 12000

  /** How long the texts of the event are, besides those of the record. */
  lemma EventTexts(library: Library, raw: RawEvent, event: ContractEvent)
    requires Lawful(library) && AsRead(library, raw) && BaselineMapper.EventFrom(library, raw) == Some(event)
    ensures |event.eventId| == 71 && IsAscii(event.eventId)
    ensures |event.eventTime.text| <= 60 && IsAscii(event.eventTime.text)
    ensures |event.receivedTime.text| == 24 && |event.contentType| == 16
    ensures |event.source.sourceId| <= 64 && IsAscii(event.source.sourceId) && event.source.sourceId != []
    ensures |DumpMember(Member(Ascii("source"), SourceJson(event.source)))| <= 2 * |raw.rawPayload| + 2900
    ensures |Dump(PositionJson(event.source.position))| <= 900
  {
    hide EscapeBytes, Dump, DumpMembers, DumpMember, IsUtf8, StringField, BaselineMapper.Unmapped,
      BaselineMapper.EventFrom, MatchesIdentifier, SourceJson, PositionJson, BaselineMapper.MappingJson, IsAscii,
      Lawful;
    EventFields(library, raw, event);
    TimeIsShort(library, library.rfc3339Milliseconds(raw.eventTime).value);
    EnvelopeWithin(library, raw);
    IsHex(library, BaselineMapper.IdentityInput(raw.source));
    AsciiConcat(Ascii("sha256:"), library.sha256Hex(BaselineMapper.IdentityInput(raw.source)));
    IdentifierFacts(raw.source.source);
    SourceSize(raw, event.source);
    MemberSize(Ascii("source"), SourceJson(event.source));
  }

  lemma AsciiConcat(a: Text, b: Text)
    requires IsAscii(a) && IsAscii(b)
    ensures IsAscii(a + b)
  {
  }

  lemma IdentifierFacts(value: Text)
    requires MatchesIdentifier(value, true)
    ensures IsAscii(value) && 1 <= |value| <= 64
  {
  }

  /** Mapping a record makes an event at most fourteen times as long, and a little. */
  lemma EventSize(library: Library, raw: RawEvent, event: ContractEvent)
    requires Lawful(library) && AsRead(library, raw) && BaselineMapper.EventFrom(library, raw) == Some(event)
    ensures |Dump(EventJson(event))| <= 14 * |raw.rawPayload| + EVENT_OVERHEAD
  {
    hide Ascii, EscapeBytes, Dump, DumpMembers, DumpMember, IsUtf8, BaselineMapper.EventFrom, AsRead, SourceJson,
      EventJson, BaselineMapper.MappingJson;
    OcsfOfMapped(library, raw, event);
    EventFields(library, raw, event);
    EventTexts(library, raw, event);
    EventMembers(event);
    var ms := EventJson(event).members;
    TextMember(ms[0].key, event.contentType);
    TextMember(ms[1].key, event.eventId);
    TextMember(ms[2].key, event.eventTime.text);
    MappingSize();
    MemberSize(ms[4].key, event.ocsf);
    PayloadSize(library, raw);
    TextMember(ms[5].key, event.rawPayload);
    TextMember(ms[6].key, event.receivedTime.text);
    SumOfEight(ms);
    ObjectSize(ms);
  }

  lemma PayloadSize(library: Library, raw: RawEvent)
    requires Lawful(library) && AsRead(library, raw)
    ensures |EscapeBytes(raw.rawPayload)| <= 2 * |raw.rawPayload| && |raw.rawPayload| <= MAXIMUM_EVENT_BYTES
  {
    hide EscapeBytes;
    assert ParsesStrictly(library, raw.rawPayload);
  }

  lemma IsHex(library: Library, text: Text)
    requires Lawful(library)
    ensures |library.sha256Hex(text)| == 64 && IsAscii(library.sha256Hex(text))
  {
  }

  lemma EventMembers(event: ContractEvent)
    requires event.mapping == BaselineMapper.MappingJson()
    ensures EventJson(event).Obj? && EventJson(event).members ==
              [Member(Ascii("content_type"), Str(event.contentType)), Member(Ascii("event_id"), Str(event.eventId)),
               Member(Ascii("event_time"), Str(event.eventTime.text)), Member(Ascii("mapping"), event.mapping),
               Member(Ascii("ocsf"), event.ocsf), Member(Ascii("raw_payload"), Str(event.rawPayload)),
               Member(Ascii("received_time"), Str(event.receivedTime.text)),
               Member(Ascii("source"), SourceJson(event.source))]
  {
    hide Ascii, SourceJson;
  }

  lemma MappingSize()
    ensures |DumpMember(Member(Ascii("mapping"), BaselineMapper.MappingJson()))| <= 400
  {
    hide Ascii, EscapeBytes, Dump, DumpMembers, DumpMember;
    TextMember(Ascii("name"), Ascii("trivikrama.simulated-auth"));
    TextMember(Ascii("version"), Ascii("1.0.0"));
    PairSize(Member(Ascii("name"), Str(Ascii("trivikrama.simulated-auth"))),
        Member(Ascii("version"), Str(Ascii("1.0.0"))));
    MemberSize(Ascii("mapping"), BaselineMapper.MappingJson());
  }

  lemma SourceSize(raw: RawEvent, source: EventSource)
    requires source
          == EventSource(raw.source.source, raw.adapterType, raw.upstreamSenderId, raw.endpointId, raw.upstreamEventId,
                         FilePosition(raw.source.identity, raw.source.start, raw.source.end))
    requires |raw.source.source| <= 64 && raw.upstreamSenderId == raw.source.source
             && |raw.source.identity| <= IDENTITY_LIMIT
    requires raw.adapterType == FileReader.FileText() && raw.source.start <= raw.source.end <= MAXIMUM_SAFE_INTEGER
    ensures |Dump(SourceJson(source))| <= |EscapeBytes(raw.endpointId)| + |EscapeBytes(raw.upstreamEventId)| + 2800
    ensures |Dump(PositionJson(source.position))| <= 900
  {
    hide Ascii, EscapeBytes, Dump, DumpMembers, DumpMember;
    PositionSize(source.position);
    var ms := SourceJson(source).members;
    assert |FileReader.FileText()| == 4;
    TextMember(ms[0].key, source.adapterType);
    TextMember(ms[1].key, source.originalEndpointId);
    MemberSize(ms[2].key, PositionJson(source.position));
    TextMember(ms[3].key, source.sourceId);
    TextMember(ms[4].key, source.upstreamEventId);
    TextMember(ms[5].key, source.upstreamSenderId);
    SumOfSix(ms);
    ObjectSize(ms);
  }

  lemma PositionSize(position: Position)
    requires position.FilePosition? && |position.identity| <= IDENTITY_LIMIT
    requires position.start <= position.end <= MAXIMUM_SAFE_INTEGER
    ensures |Dump(PositionJson(position))| <= 900
  {
    hide Ascii, EscapeBytes, Dump, DumpMembers, DumpMember;
    var ms := PositionJson(position).members;
    TextMember(ms[0].key, position.identity);
    SafeText(position.end);
    MemberSize(ms[1].key, Int(position.end));
    SafeText(position.start);
    MemberSize(ms[2].key, Int(position.start));
    SumOfThree(ms);
    ObjectSize(ms);
  }

  // ---------------------------------------------------------------- the queue

  lemma SumCons(sizes: seq<nat>, i: nat)
    requires i < |sizes|
    ensures BoundedEventQueue.SumOf(sizes[i..]) == sizes[i] + BoundedEventQueue.SumOf(sizes[i + 1..])
  {
    assert sizes[i..][0] == sizes[i] && sizes[i..][1..] == sizes[i + 1..];
  }

  lemma SumOfTwelve(sizes: seq<nat>)
    requires |sizes| == 12
    ensures BoundedEventQueue.SumOf(sizes)
         == sizes[0] + sizes[1] + sizes[2] + sizes[3] + sizes[4] + sizes[5] + sizes[6] + sizes[7] + sizes[8] + sizes[9]
             + sizes[10]
            + sizes[11]
  {
    hide BoundedEventQueue.SumOf;
    NoSum();
    assert sizes[0..] == sizes && sizes[12..] == [];
    SumCons(sizes, 0);
    SumCons(sizes, 1);
    SumCons(sizes, 2);
    SumCons(sizes, 3);
    SumCons(sizes, 4);
    SumCons(sizes, 5);
    SumCons(sizes, 6);
    SumCons(sizes, 7);
    SumCons(sizes, 8);
    SumCons(sizes, 9);
    SumCons(sizes, 10);
    SumCons(sizes, 11);
  }

  lemma NoSum()
    ensures BoundedEventQueue.SumOf([]) == 0
  {
  }

  /** Half of what the configuration grants a queue at the least. */
  const EVENT_WEIGHT := MAXIMUM_BATCH_BYTES

  /** Two mapped events fit any queue that the configuration allows. */
  lemma EventWeighs(library: Library, raw: RawEvent, event: ContractEvent)
    requires Lawful(library) && AsRead(library, raw) && BaselineMapper.EventFrom(library, raw) == Some(event)
    ensures BoundedEventQueue.EventBytes(event) <= EVENT_WEIGHT && |event.rawPayload| <= MAXIMUM_EVENT_BYTES
  {
    hide Ascii, Dump, IsUtf8, BaselineMapper.EventFrom, Lawful, MatchesIdentifier, PositionJson, StringField,
      BoundedEventQueue.SumOf, EscapeBytes;
    OcsfOfMapped(library, raw, event);
    EventFields(library, raw, event);
    EventTexts(library, raw, event);
    EnvelopeWithin(library, raw);
    EscapesCover(raw.endpointId);
    EscapesCover(raw.upstreamEventId);
    assert |FileReader.FileText()| == 4;
    var sizes := BoundedEventQueue.Lengths(BoundedEventQueue.AccountedTexts(event));
    SumOfTwelve(sizes);
  }

  // ---------------------------------------------------------------- when a batch refuses the event

  lemma MappingShape()
    ensures TextOk(BaselineMapper.MappingJson()) && TreeOk(BaselineMapper.MappingJson(), 3)
            && Shallow(BaselineMapper.MappingJson(), 1)
  {
    hide Ascii, IsUtf8;
    AsciiTexts();
    StringsShape(BaselineMapper.MappingJson().members, 3, 1);
  }

  lemma SourceShape(raw: RawEvent, source: EventSource)
    requires source
          == EventSource(raw.source.source, raw.adapterType, raw.upstreamSenderId, raw.endpointId, raw.upstreamEventId,
                         FilePosition(raw.source.identity, raw.source.start, raw.source.end))
    requires IsUtf8(raw.source.source) && raw.upstreamSenderId == raw.source.source && IsUtf8(raw.source.identity)
    requires IsUtf8(raw.adapterType) && IsUtf8(raw.endpointId) && IsUtf8(raw.upstreamEventId)
    requires raw.source.start <= raw.source.end <= MAXIMUM_SAFE_INTEGER
    ensures TextOk(SourceJson(source)) && TreeOk(SourceJson(source), 3) && TreeOk(PositionJson(source.position), 0)
  {
    hide Ascii, IsUtf8, PositionJson, SourceJson;
    PositionShape(source.position);
    SourceMembers(source);
    var ms := SourceJson(source).members;
    assert forall i | 0 <= i < 6 && i != 2 :: ms[i].value.Str? && IsUtf8(ms[i].value.text);
    assert forall i | 0 <= i < 6 :: TreeOk(ms[i].value, 4);
    assert forall i | 0 <= i < 6 :: TextOk(ms[i].value);
  }

  lemma SourceMembers(source: EventSource)
    ensures SourceJson(source).Obj? && |SourceJson(source).members| == 6
    ensures var ms := SourceJson(source).members;
            && ms[0].value == Str(source.adapterType) && ms[1].value == Str(source.originalEndpointId)
            && ms[2].value == PositionJson(source.position) && ms[3].value == Str(source.sourceId)
            && ms[4].value == Str(source.upstreamEventId) && ms[5].value == Str(source.upstreamSenderId)
            && forall i | 0 <= i < 6 :: IsUtf8(ms[i].key)
  {
    hide Ascii, IsUtf8, PositionJson;
    AsciiTexts();
  }

  lemma PositionShape(position: Position)
    requires position.FilePosition? && IsUtf8(position.identity)
             && position.start <= position.end <= MAXIMUM_SAFE_INTEGER
    ensures TextOk(PositionJson(position)) && TreeOk(PositionJson(position), 4) && TreeOk(PositionJson(position), 0)
  {
    hide Ascii, IsUtf8;
    AsciiTexts();
    var ms := PositionJson(position).members;
    assert forall i | 0 <= i < 3 :: TreeOk(ms[i].value, 5) && TreeOk(ms[i].value, 1);
    assert forall i | 0 <= i < 3 :: IsUtf8(ms[i].key) && TextOk(ms[i].value);
  }

  /** The shape of the event document is that of its OCSF document. */
  lemma EventShape(event: ContractEvent)
    requires event.mapping == BaselineMapper.MappingJson() && TextOk(SourceJson(event.source))
             && TreeOk(SourceJson(event.source), 3)
    requires IsUtf8(event.contentType) && IsUtf8(event.eventId) && IsUtf8(event.eventTime.text)
             && IsUtf8(event.rawPayload)
    requires IsUtf8(event.receivedTime.text) && TextOk(event.ocsf)
    ensures TextOk(EventJson(event))
    ensures TreeOk(EventJson(event), 2) <==> TreeOk(event.ocsf, 3)
  {
    hide Ascii, IsUtf8, EventJson, SourceJson, BaselineMapper.MappingJson;
    AsciiTexts();
    MappingShape();
    EventMembers(event);
    var ms := EventJson(event).members;
    assert ms[4].value == event.ocsf && ms[3].value == event.mapping && ms[7].value == SourceJson(event.source);
    assert forall i | 0 <= i < 8 && i != 3 && i != 4 && i != 7 :: ms[i].value.Str? && IsUtf8(ms[i].value.text);
    assert forall i | 0 <= i < 8 :: TextOk(ms[i].value) && IsUtf8(ms[i].key);
    assert forall i | 0 <= i < 8 && i != 4 :: TreeOk(ms[i].value, 3);
  }

  lemma EventHasNoFault(library: Library, raw: RawEvent, event: ContractEvent)
    requires Lawful(library) && AsRead(library, raw) && BaselineMapper.EventFrom(library, raw) == Some(event)
    requires TreeOk(event.ocsf, 3) && TreeOk(PositionJson(event.source.position), 0)
    ensures EventFault(event).None? <==> event.eventTime.Rfc3339?
  {
    hide Ascii, IsAscii, IsUtf8, BaselineMapper.EventFrom, Lawful, MatchesIdentifier, FileReader.EnvelopeVerdict,
      TreeOk, TextOk, BaselineMapper.MappingJson, Dump, BaselineMapper.IdentityInput, Rest, Shallow, SourceJson;
    OcsfOfMapped(library, raw, event);
    EventFields(library, raw, event);
    EventTexts(library, raw, event);
    EnvelopeWithin(library, raw);
    MappingShape();
    MappingIsObject();
    TreeHigher(event.ocsf, 3, 0);
    TreeHigher(event.mapping, 3, 0);
    assert |FileReader.FileText()| == 4;
  }

  lemma MappingIsObject()
    ensures BaselineMapper.MappingJson().Obj?
  {
  }

  /**
   * Exactly when a batch refuses the event of a record: its time cannot be printed, or the members that are not mapped
   * nest too deep. Nothing else is refused, and an event that is not refused fits every batch.
   */
  lemma RefusedWhen(library: Library, raw: RawEvent, event: ContractEvent)
    requires Lawful(library) && AsRead(library, raw) && BaselineMapper.EventFrom(library, raw) == Some(event)
    ensures BatchAssembler.EventOk(event) <==> event.eventTime.Rfc3339? && TreeOk(Rest(raw), 4)
    ensures BatchAssembler.EventOk(event) <==> BatchAssembler.Representable(event, MAXIMUM_BATCH_BYTES)
  {
    hide Ascii, IsUtf8, BaselineMapper.EventFrom, Lawful, MatchesIdentifier, StringField, TreeOk, TextOk,
      BaselineMapper.MappingJson, Rest, SourceJson, EventJson, PositionJson, EventFault, Dump,
      FileReader.EnvelopeVerdict, IsAscii;
    OcsfOfMapped(library, raw, event);
    EventFields(library, raw, event);
    EventTexts(library, raw, event);
    EnvelopeWithin(library, raw);
    TextsAreValid(library, raw, event);
    SourceShape(raw, event.source);
    EventShape(event);
    if TreeOk(event.ocsf, 3) {
      EventHasNoFault(library, raw, event);
    }
    EventSize(library, raw, event);
  }

  lemma TextsAreValid(library: Library, raw: RawEvent, event: ContractEvent)
    requires Lawful(library) && AsRead(library, raw) && BaselineMapper.EventFrom(library, raw) == Some(event)
    ensures IsUtf8(event.contentType) && IsUtf8(event.eventId) && IsUtf8(event.eventTime.text)
            && IsUtf8(event.rawPayload)
    ensures IsUtf8(event.receivedTime.text) && IsUtf8(raw.source.source) && IsUtf8(raw.adapterType)
  {
    hide Ascii, IsAscii, IsUtf8, BaselineMapper.EventFrom, Lawful, MatchesIdentifier, FileReader.EnvelopeVerdict,
      FileReader.FileText, FileReader.JsonTypeText, BaselineMapper.MappingJson, SourceJson, PositionJson, Dump,
      BaselineMapper.IdentityInput;
    EventFields(library, raw, event);
    EventTexts(library, raw, event);
    AsciiIsUtf8(FileReader.FileText());
    AsciiIsUtf8(FileReader.JsonTypeText());
    AsciiIsUtf8(event.eventId);
    AsciiIsUtf8(event.eventTime.text);
    AsciiIsUtf8(event.receivedTime.text);
    AsciiIsUtf8(event.source.sourceId);
  }

  // ---------------------------------------------------------------- when a batch can be read back

  /**
   * A batch of mapped events can be read back exactly when no record's unmapped members nest more than 124 containers.
   */
  lemma MappedNests(library: Library, raw: RawEvent, event: ContractEvent)
    requires Lawful(library) && AsRead(library, raw) && BaselineMapper.EventFrom(library, raw) == Some(event)
    ensures Shallow(EventJson(event), MAXIMUM_NESTING - 2) <==> Shallow(Rest(raw), MAXIMUM_NESTING - 4)
    ensures Shallow(raw.decoded, MAXIMUM_NESTING - 4) ==> Shallow(EventJson(event), MAXIMUM_NESTING - 2)
  {
    hide BaselineMapper.EventFrom, Lawful, StringField, Shallow, BaselineMapper.MappingJson, Rest, EventJson, Dump,
      TextOk, TreeOk, FileReader.EnvelopeVerdict, MatchesIdentifier, IsUtf8;
    OcsfOfMapped(library, raw, event);
    EventFields(library, raw, event);
    MappingShape();
    EventNests(event);
    RestIsPart(raw);
  }

  /**
   * With a member of 124 arrays within one another outside the mapping, the event is accepted into batches, and no
   * batch that holds it can be read back.
   */
  lemma DeepRest(library: Library, raw: RawEvent, event: ContractEvent, name: Text, batch: EventBatch)
    requires Lawful(library) && AsRead(library, raw) && BaselineMapper.EventFrom(library, raw) == Some(event)
    requires Rest(raw) == Obj([Member(name, Nested(MAXIMUM_NESTING - 4))]) && event.eventTime.Rfc3339?
    ensures BatchAssembler.Representable(event, MAXIMUM_BATCH_BYTES)
    ensures event in batch.events ==> !Reparsable(batch)
  {
    hide BaselineMapper.EventFrom, BaselineMapper.Unmapped, StringField, BaselineMapper.MappingJson, EventJson, Dump,
      TextOk, Nested, FileReader.EnvelopeVerdict, MatchesIdentifier, IsUtf8, Reparsable, BatchAssembler.EventOk;
    var deep := Nested(MAXIMUM_NESTING - 4);
    var members := [Member(name, deep)];
    assert members[0].value == deep;
    NestedIs(MAXIMUM_NESTING - 4, MAXIMUM_NESTING - 5, 5);
    assert !Shallow(Obj(members), MAXIMUM_NESTING - 4) && TreeOk(Obj(members), 4);
    RefusedWhen(library, raw, event);
    MappedNests(library, raw, event);
    BatchNests(batch);
  }
}
