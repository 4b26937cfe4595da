/** A record on which the two depth checks disagree: the reader and the batches take it, and no batch reads back. */
module DeepRecords {
  import opened Exceptions
  import opened Octets
  import opened Json
  import opened Contract
  import opened Foreign
  import opened Lines
  import opened Nesting
  import opened RawEvents
  import opened Serialization
  import opened FileReader
  import opened SourceLogs
  import opened MappedEvents
  import opened Origins
  import opened Utf8
  import BaselineMapper
  import BatchAssembler

  /** What a login record says. */
  datatype Login = Login(eventId: Text, endpointId: Text, time: Text, username: Text, address: Text)

  function ExtraText(): Text {
    Ascii("extra")
  }

  /** The seven members of the record: six strings that are mapped, and arrays within arrays. */
  function Members(login: Login, depth: nat): seq<Member>
    requires depth > 0
  {
    [Member(EventIdText(), Str(login.eventId)),
     Member(EndpointIdText(), Str(login.endpointId)),
     Member(EventTypeText(), Str(Ascii("login_success"))),
     Member(TimestampText(), Str(login.time)),
     Member(Ascii("username"), Str(login.username)),
     Member(Ascii("source_ip"), Str(login.address)),
     Member(ExtraText(), Nested(depth))]
  }

  function LoginJson(login: Login, depth: nat): Json
    requires depth > 0
  {
    Obj(Members(login, depth))
  }

  /** Every string is there, the address is one, and the time can be read and printed. */
  predicate Loggable(library: Library, login: Login) {
    && login.eventId != [] && login.endpointId != [] && login.time != [] && login.username != [] && login.address != []
    && library.validIpAddress(login.address)
    && library.rfc3339Milliseconds(login.time).Some?
    && var time := BaselineMapper.UtcTimestamp(library, library.rfc3339Milliseconds(login.time).value);
       time.Some? && time.value.Rfc3339?
  }

  // ---------------------------------------------------------------- the members

  lemma Letter(s: string, i: nat)
    requires i < |s| && s[i] < 128 as char
    ensures Ascii(s)[i] == s[i] as int
  {
  }

  /** No two keys agree. */
  lemma KeysDiffer(login: Login, depth: nat)
    requires depth > 0
    ensures forall i, j | 0 <= i < j < 7 :: Members(login, depth)[i].key != Members(login, depth)[j].key
  {
    hide Ascii, Nested;
    Letter("event_id", 0);
    Letter("username", 0);
    Letter("timestamp", 0);
    Letter("source_ip", 0);
    var keys := [EventIdText(), EndpointIdText(), EventTypeText(), TimestampText(), Ascii("username"),
                 Ascii("source_ip"), ExtraText()];
    assert forall i | 0 <= i < 7 :: Members(login, depth)[i].key == keys[i];
    assert |keys[0]| == |keys[4]| == 8 && |keys[3]| == |keys[5]| == 9;
    assert |keys[1]| == 11 && |keys[2]| == 10 && |keys[6]| == 5;
  }

  lemma {:induction false} LookupAt(members: seq<Member>, i: nat)
    requires i < |members| && forall j | 0 <= j < i :: members[j].key != members[i].key
    ensures Lookup(members, members[i].key) == [members[i].value]
    decreases i
  {
    if i > 0 {
      assert members[0].key != members[i].key && members[1..][i - 1] == members[i];
      LookupAt(members[1..], i - 1);
    }
  }

  /** A string of the record is what the reader and the mapper find under its key. */
  lemma FieldIs(login: Login, depth: nat, i: nat, absent: Text, wrongType: Text, empty: Text)
    requires depth > 0 && i < 7 && Members(login, depth)[i].value.Str? && Members(login, depth)[i].value.text != []
    ensures var members := Members(login, depth);
            StringField(members, members[i].key, absent, wrongType, empty) == Value(members[i].value.text)
  {
    hide Ascii, Nested, Lookup;
    KeysDiffer(login, depth);
    LookupAt(Members(login, depth), i);
  }

  lemma {:induction false} AllMapped(members: seq<Member>)
    requires forall m | m in members :: m.key in BaselineMapper.MappedNames()
    ensures BaselineMapper.Unmapped(members) == []
    decreases |members|
  {
    hide BaselineMapper.MappedNames;
    if members != [] {
      assert members[|members| - 1] in members;
      AllMapped(members[..|members| - 1]);
    }
  }

  /** Only the nested arrays are not mapped. */
  lemma ExtraIsRest(login: Login, depth: nat)
    requires depth > 0
    ensures BaselineMapper.Unmapped(Members(login, depth)) == [Member(ExtraText(), Nested(depth))]
  {
    hide Ascii, Nested;
    var members := Members(login, depth);
    assert |ExtraText()| == 5;
    assert members[..6] + [members[6]] == members;
    AllMapped(members[..6]);
  }

  lemma LoginNests(login: Login, depth: nat, containers: nat)
    requires depth > 0
    ensures Shallow(LoginJson(login, depth), containers) <==> depth + 1 <= containers
  {
    hide Ascii, Nested;
    var members := Members(login, depth);
    if containers > 0 {
      NestedIs(depth, containers - 1, 0);
      assert Shallow(LoginJson(login, depth), containers) <==>
          forall i | 0 <= i < 7 :: Shallow(members[i].value, containers - 1);
      assert forall i | 0 <= i < 6 :: members[i].value.Str? && Shallow(members[i].value, containers - 1);
      assert members[6].value == Nested(depth);
    }
  }

  // ---------------------------------------------------------------- what becomes of the record

  lemma ReaderAccepts(login: Login, depth: nat)
    requires depth > 0 && login.eventId != [] && login.endpointId != [] && login.time != []
    ensures EnvelopeVerdict(LoginJson(login, depth))
         == Accepted(LoginJson(login, depth), login.eventId, login.endpointId, login.time)
  {
    hide Ascii, Nested, StringField, AbsentText, WrongTypeText, EmptyText;
    forall i: nat | i < 4 {
      FieldIs(login, depth, i, AbsentText(), WrongTypeText(), EmptyText());
    }
    var members := Members(login, depth);
    assert members[0].key == EventIdText() && members[1].key == EndpointIdText();
    assert members[2].key == EventTypeText() && members[3].key == TimestampText();
    assert RequiredField(members, EventTypeText()).Value?;
  }

  lemma MapperMaps(library: Library, login: Login, depth: nat, raw: RawEvent)
    requires depth > 0 && Loggable(library, login)
    requires raw.decoded == LoginJson(login, depth) && raw.eventTime == login.time
    ensures BaselineMapper.EventFrom(library, raw).Some?
    ensures BaselineMapper.EventFrom(library, raw).value.eventTime.Rfc3339?
  {
    hide Ascii, Nested, StringField, BaselineMapper.UtcTimestamp, BaselineMapper.OcsfOf, BaselineMapper.EventOf,
      BaselineMapper.AbsentText, BaselineMapper.WrongTypeText, BaselineMapper.EmptyText;
    forall i: nat | i < 6 {
      FieldIs(login, depth, i, BaselineMapper.AbsentText(), BaselineMapper.WrongTypeText(), BaselineMapper.EmptyText());
    }
    var members := Members(login, depth);
    assert members[2].key == Ascii("event_type") && members[4].key == Ascii("username");
    assert members[5].key == Ascii("source_ip");
    assert BaselineMapper.Mappable(library, raw);
  }

  /**
   * The two checks disagree on a record that a file may hold: a login with 124 arrays within one another nests 125
   * containers, three fewer than the reader's parser takes. The reader hands it over, the mapper maps it, the batches
   * take its event, and no batch that holds the event can be read back.
   */
  lemma DeepRecord(library: Library, files: Files, source: SourceId, line: Line, at: Timestamp, login: Login,
          batch: EventBatch)
    requires Lawful(library) && NamedFiles(files) && source in files && IsInstant(at) && Loggable(library, login)
    requires line in Records(files[source].content, 0, |files[source].content|) && line.end <= MAXIMUM_SAFE_INTEGER
    requires |line.text| <= MAXIMUM_EVENT_BYTES && IsUtf8(line.text)
    requires library.parseStrict(line.text) == Foreign.Document(LoginJson(login, MAXIMUM_NESTING - 4))
    ensures Shallow(LoginJson(login, MAXIMUM_NESTING - 4), MAXIMUM_NESTING - 3)
            && !Shallow(LoginJson(login, MAXIMUM_NESTING - 4), MAXIMUM_NESTING - 4)
    ensures var item := ItemOf(library, OptionsOf(source, Oldest, None), files[source].identity, line, at);
            && item.RawItem? && ReadsAs(library, files, line, item.raw)
            && BaselineMapper.EventFrom(library, item.raw).Some?
            && var event := BaselineMapper.EventFrom(library, item.raw).value;
               && BatchAssembler.Representable(event, MAXIMUM_BATCH_BYTES)
               && (event in batch.events ==> !Reparsable(batch))
  {
    hide Ascii, Nested, Lawful, NamedFiles, Records, EnvelopeVerdict, IsUtf8, BaselineMapper.EventFrom, EventJson,
      BatchAssembler.Representable, Reparsable, Shallow, Loggable;
    var depth := MAXIMUM_NESTING - 4;
    LoginNests(login, depth, depth);
    LoginNests(login, depth, depth + 1);
    LoggableIs(library, login);
    ReaderAccepts(login, depth);
    var raw := ItemOf(library, OptionsOf(source, Oldest, None), files[source].identity, line, at).raw;
    MapperMaps(library, login, depth, raw);
    assert ReadsAs(library, files, line, raw);
    SpringsAsRead(library, files, raw);
    ExtraIsRest(login, depth);
    DeepRest(library, raw, BaselineMapper.EventFrom(library, raw).value, ExtraText(), batch);
  }

  lemma LoggableIs(library: Library, login: Login)
    ensures Loggable(library, login) ==> login.eventId != [] && login.endpointId != [] && login.time != []
  {
  }
}
