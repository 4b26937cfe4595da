/** The mapping of login records to OCSF events, as far as the pipeline depends on it. */
module BaselineMapper {
  import opened Exceptions
  import opened Octets
  import opened Foreign
  import opened Json
  import opened Contract
  import opened RawEvents
  import opened Rejections
  import JsonReader

  datatype MappingResult = Mapped(event: ContractEvent) | Unmappable(rejection: InputRejection)

  function NotDecodedText(): (text: Text)
    ensures text != [] && IsAscii(text)
  {
    Ascii("decoded input must be a JSON object")
  }

  function AbsentText(): (text: Text)
    ensures text != [] && IsAscii(text)
  {
    Ascii("required mapping field is absent: ")
  }

  function WrongTypeText(): (text: Text)
    ensures text != [] && IsAscii(text)
  {
    Ascii("mapping field must be a string: ")
  }

  function EmptyText(): (text: Text)
    ensures text != [] && IsAscii(text)
  {
    Ascii("required mapping field must not be empty: ")
  }

  function UnsupportedText(): (text: Text)
    ensures text != [] && IsAscii(text)
  {
    Ascii("simulated mapper supports only login_success and login_failed")
  }

  function BadAddressText(): (text: Text)
    ensures text != [] && IsAscii(text)
  {
    Ascii("source_ip is not a valid IPv4 or IPv6 address")
  }

  function BadTimeText(): (text: Text)
    ensures text != [] && IsAscii(text)
  {
    Ascii("timestamp must be a valid RFC 3339 instant")
  }

  function Reject(library: Library, raw: RawEvent, code: RejectionCode, message: Text): InputRejection {
    RejectPayload(library, code, message, raw.source, raw.adapterType, raw.contentType, raw.rawPayload, CAPTURE_LIMIT)
  }

  function RequiredString(members: seq<Member>, name: Text): Field {
    StringField(members, name, AbsentText(), WrongTypeText(), EmptyText())
  }

  // ---------------------------------------------------------------- the event's time

  /** std::chrono's casts truncate towards zero. */
  function SecondsOf(milliseconds: int): int {
    if milliseconds >= 0 then milliseconds / 1000 else -(-milliseconds / 1000)
  }

  /** std::setw(3) with fill '0'. */
  function Padded(number: int): Text {
    var text := IntText(number);
    if |text| >= 3 then text else seq(3 - |text|, _ => ZERO) + text
  }

  /** utc_timestamp; None is the exception it throws. */
  function UtcTimestamp(library: Library, milliseconds: int): Option<Timestamp> {
    var calendar := library.calendarOf(SecondsOf(milliseconds));
    if calendar.None? then None
    else
      var fraction := milliseconds - 1000 * SecondsOf(milliseconds);
      var text := calendar.value.text + [0x2E] + Padded(fraction) + [0x5A];
      Some(if fraction >= 0 && calendar.value.fourDigitYear then Rfc3339(text) else Malformed(text))
  }

  /**
   * An instant before 1970 that is not a whole second is printed with a minus sign after the point; and RFC 3339 has
   * no year of other than four digits.
   */
  lemma FractionBeforeEpoch(library: Library, milliseconds: int)
    requires UtcTimestamp(library, milliseconds).Some?
    ensures UtcTimestamp(library, milliseconds).value.Malformed? <==>
              || !library.calendarOf(SecondsOf(milliseconds)).value.fourDigitYear
              || (milliseconds < 0 && milliseconds % 1000 != 0)
  {
    hide Padded;
    var whole := -milliseconds / 1000;
    assert milliseconds < 0 ==> -milliseconds == 1000 * whole + -milliseconds % 1000;
    assert milliseconds < 0 && -milliseconds % 1000 == 0 ==> milliseconds == 1000 * -whole && milliseconds % 1000 == 0;
    assert milliseconds < 0 && -milliseconds % 1000 != 0 ==>
        milliseconds == 1000 * (-whole - 1) + (1000 - -milliseconds % 1000)
        && milliseconds % 1000 == 1000 - -milliseconds % 1000;
  }

  // ---------------------------------------------------------------- the document

  function MappedNames(): set<Text> {
    {Ascii("endpoint_id"), Ascii("event_id"), Ascii("event_type"), Ascii("message"), Ascii("source_ip"),
     Ascii("timestamp"), Ascii("username")}
  }

  function Unmapped(members: seq<Member>): seq<Member> {
    if members == [] then []
    else
      var front, last := Unmapped(members[..|members| - 1]), members[|members| - 1];
      if last.key in MappedNames() then front else front + [last]
  }

  /** These places of the list, in order, are its members that are not mapped, and all of them. */
  ghost predicate Picks(members: seq<Member>, places: seq<nat>, kept: seq<Member>) {
    && |places| == |kept|
    && (forall i | 0 <= i < |places| ::
        places[i] < |members| && kept[i] == members[places[i]] && kept[i].key !in MappedNames())
    && (forall i, j | 0 <= i < j < |places| :: places[i] < places[j])
    && (forall k: nat | k < |members| && members[k].key !in MappedNames() :: k in places)
  }

  lemma PicksNothing()
    ensures Picks([], [], [])
  {
  }

  lemma PicksOneMore(members: seq<Member>, places: seq<nat>, kept: seq<Member>, last: Member)
    requires Picks(members, places, kept)
    ensures last.key in MappedNames() ==> Picks(members + [last], places, kept)
    ensures last.key !in MappedNames() ==> Picks(members + [last], places + [|members|], kept + [last])
  {
    hide MappedNames;
  }

  /** unmapped_fields: exactly the members that are not mapped, in their order. */
  method UnmappedFields(document: Json) returns (result: Json, ghost places: seq<nat>)
    requires document.Obj?
    ensures result.Obj? && Picks(document.members, places, result.members)
    ensures result == Obj(Unmapped(document.members))
  {
    hide MappedNames, Picks;
    var kept: seq<Member> := [];
    places := [];
    PicksNothing();
    for i := 0 to |document.members|
      invariant kept == Unmapped(document.members[..i])
      invariant Picks(document.members[..i], places, kept)
    {
      var member := document.members[i];
      PicksOneMore(document.members[..i], places, kept, member);
      assert document.members[..i + 1][..i] == document.members[..i];
      assert document.members[..i + 1] == document.members[..i] + [member];
      if member.key !in MappedNames() {
        kept, places := kept + [member], places + [i];
      }
    }
    assert document.members[..|document.members|] == document.members;
    return Obj(kept), places;
  }

  function Metadata(): Json {
    var product := Obj([Member(Ascii("name"), Str(Ascii("Trivikrama Collector"))),
                        Member(Ascii("vendor_name"), Str(Ascii("Trivikrama")))]);
    Obj([Member(Ascii("product"), product), Member(Ascii("version"), Str(Ascii("1.1.0")))])
  }

  function OcsfOf(raw: RawEvent, failed: bool, username: Text, address: Text, time: int, unmapped: Json): Json
  {
    var message := (if failed then Ascii("Failed login for ") else Ascii("Successful login for ")) + username;
    Obj([Member(Ascii("activity_id"), Int(1)),
         Member(Ascii("category_uid"), Int(3)),
         Member(Ascii("class_uid"), Int(3002)),
         Member(Ascii("dst_endpoint"), Obj([Member(Ascii("hostname"), Str(raw.endpointId))])),
         Member(Ascii("message"), Str(message)),
         Member(Ascii("metadata"), Metadata()),
         Member(Ascii("severity_id"), Int(if failed then 3 else 1)),
         Member(Ascii("src_endpoint"), Obj([Member(Ascii("ip"), Str(address))])),
         Member(Ascii("status_id"), Int(if failed then 2 else 1)),
         Member(Ascii("time"), Int(time)),
         Member(Ascii("type_uid"), Int(300201)),
         Member(Ascii("unmapped"), unmapped),
         Member(Ascii("user"), Obj([Member(Ascii("name"), Str(username))]))])
  }

  /** What the event id is the digest of. */
  function IdentityInput(source: Span): Text {
    source.source + [0x0A] + source.identity + [0x0A] + NatText(source.start)
  }

  /** What stands before the first separator is determined, and so is what stands after it. */
  lemma SplitsAtSeparator(a: Text, x: Text, b: Text, y: Text, separator: Byte)
    requires separator !in a && separator !in b && a + [separator] + x == b + [separator] + y
    ensures a == b && x == y
  {
    var whole := a + [separator] + x;
    assert whole[|a|] == separator && whole[|b|] == separator;
    assert forall i | 0 <= i < |a| :: whole[i] == a[i] && whole[i] != separator;
    assert forall i | 0 <= i < |b| :: whole[i] == b[i] && whole[i] != separator;
    assert |a| == |b|;
    assert a == whole[..|a|] && b == whole[..|b|] && x == whole[|a| + 1..] && y == whole[|b| + 1..];
  }

  /** Different records have different identities to digest: source and file identities hold no newline. */
  lemma IdentityInputInjective(a: Span, b: Span)
    requires 0x0A !in a.source && 0x0A !in b.source && 0x0A !in a.identity && 0x0A !in b.identity
    ensures IdentityInput(a) == IdentityInput(b) <==>
              a.source == b.source && a.identity == b.identity && a.start == b.start
  {
    if IdentityInput(a) == IdentityInput(b) {
      var x, y := a.identity + [0x0A] + NatText(a.start), b.identity + [0x0A] + NatText(b.start);
      assert IdentityInput(a) == a.source + [0x0A] + x && IdentityInput(b) == b.source + [0x0A] + y;
      SplitsAtSeparator(a.source, x, b.source, y, 0x0A);
      SplitsAtSeparator(a.identity, NatText(a.start), b.identity, NatText(b.start), 0x0A);
      JsonReader.NatOfText(a.start);
      JsonReader.NatOfText(b.start);
    }
  }

  function EventOf(library: Library, raw: RawEvent, ocsf: Json, time: Timestamp): ContractEvent {
    ContractEvent(
      Ascii("sha256:") + library.sha256Hex(IdentityInput(raw.source)),
      EventSource(raw.source.source, raw.adapterType, raw.upstreamSenderId, raw.endpointId, raw.upstreamEventId,
                  FilePosition(raw.source.identity, raw.source.start, raw.source.end)),
      time, raw.receivedTime, raw.contentType, raw.rawPayload, ocsf, MappingJson())
  }

  function MappingJson(): Json {
    Obj([Member(Ascii("name"), Str(Ascii("trivikrama.simulated-auth"))), Member(Ascii("version"), Str(Ascii("1.0.0")))])
  }

  /** Every check of map passes. */
  predicate Mappable(library: Library, raw: RawEvent) {
    && raw.decoded.Obj?
    && (forall name | name in [Ascii("event_type"), Ascii("username"), Ascii("source_ip")] ::
          RequiredString(raw.decoded.members, name).Value?)
    && RequiredString(raw.decoded.members, Ascii("event_type")).text in {Ascii("login_success"), Ascii("login_failed")}
    && library.validIpAddress(RequiredString(raw.decoded.members, Ascii("source_ip")).text)
    && library.rfc3339Milliseconds(raw.eventTime).Some?
  }

  /** The event a raw record stands for, when every check passes and its time can be printed. */
  function EventFrom(library: Library, raw: RawEvent): (event: Option<ContractEvent>)
    ensures event.Some? ==>
              && Mappable(library, raw) && SpanOf(event.value) == raw.source
              && event.value.source.position.FilePosition?
              && event.value.source.sourceId == raw.source.source && event.value.source.adapterType == raw.adapterType
              && event.value.rawPayload == raw.rawPayload && event.value.contentType == raw.contentType
              && library.rfc3339Milliseconds(raw.eventTime).Some?
              && UtcTimestamp(library, library.rfc3339Milliseconds(raw.eventTime).value) == Some(event.value.eventTime)
  {
    if !Mappable(library, raw) then None
    else
      var members := raw.decoded.members;
      var eventType := RequiredString(members, Ascii("event_type"));
      var username := RequiredString(members, Ascii("username"));
      var address := RequiredString(members, Ascii("source_ip"));
      assert forall name | name in [Ascii("event_type"), Ascii("username"), Ascii("source_ip")] ::
          RequiredString(members, name).Value?;
      var time := library.rfc3339Milliseconds(raw.eventTime).value;
      var timestamp := UtcTimestamp(library, time);
      if timestamp.None? then None
      else
        var failed := eventType.text == Ascii("login_failed");
        var ocsf := OcsfOf(raw, failed, username.text, address.text, time, Obj(Unmapped(members)));
        Some(EventOf(library, raw, ocsf, timestamp.value))
  }

  /** The first check that fails, and how its rejection is worded. */
  function Objection(library: Library, raw: RawEvent): (objection: Option<(RejectionCode, Text)>) {
    if !raw.decoded.Obj? then Some((InvalidFieldType, NotDecodedText()))
    else
      var members := raw.decoded.members;
      var eventType := RequiredString(members, Ascii("event_type"));
      var username := RequiredString(members, Ascii("username"));
      var address := RequiredString(members, Ascii("source_ip"));
      if eventType.Fault? then Some((eventType.code, eventType.message))
      else if username.Fault? then Some((username.code, username.message))
      else if address.Fault? then Some((address.code, address.message))
      else if eventType.text !in {Ascii("login_success"), Ascii("login_failed")} then
        Some((UnsupportedEventType, UnsupportedText()))
      else if !library.validIpAddress(address.text) then Some((InvalidIpAddress, BadAddressText()))
      else if library.rfc3339Milliseconds(raw.eventTime).None? then Some((InvalidTimestamp, BadTimeText()))
      else None
  }

  /** map; the failure is the exception of utc_timestamp. */
  method Map(library: Library, raw: RawEvent) returns (result: Result<MappingResult>)
    ensures result.Success? ==> (result.value.Mapped? <==> Mappable(library, raw))
    ensures result.Failure? ==> result.error == ClockFailure && Mappable(library, raw) && EventFrom(library, raw).None?
    ensures result.Success? && result.value.Mapped? ==> EventFrom(library, raw) == Some(result.value.event)
    ensures result.Success? && result.value.Unmappable? ==>
              && Objection(library, raw).Some?
              && var (code, message) := Objection(library, raw).value;
                 Worded(message) && result.value.rejection == Reject(library, raw, code, message)
  {
    hide MappedNames, Ascii, OcsfOf, NotDecodedText, AbsentText, WrongTypeText, EmptyText, UnsupportedText,
      BadAddressText, BadTimeText, StringField;
    if !raw.decoded.Obj? {
      return Refuse(library, raw, InvalidFieldType, NotDecodedText());
    }
    var members := raw.decoded.members;
    var eventType := RequiredString(members, Ascii("event_type"));
    var username := RequiredString(members, Ascii("username"));
    var address := RequiredString(members, Ascii("source_ip"));
    FieldsAreWorded(members, Ascii("event_type"));
    FieldsAreWorded(members, Ascii("username"));
    FieldsAreWorded(members, Ascii("source_ip"));
    if eventType.Fault? {
      return Refuse(library, raw, eventType.code, eventType.message);
    }
    if username.Fault? {
      return Refuse(library, raw, username.code, username.message);
    }
    if address.Fault? {
      return Refuse(library, raw, address.code, address.message);
    }
    if eventType.text != Ascii("login_success") && eventType.text != Ascii("login_failed") {
      return Refuse(library, raw, UnsupportedEventType, UnsupportedText());
    }
    if !library.validIpAddress(address.text) {
      return Refuse(library, raw, InvalidIpAddress, BadAddressText());
    }
    var time := library.rfc3339Milliseconds(raw.eventTime);
    if time.None? {
      return Refuse(library, raw, InvalidTimestamp, BadTimeText());
    }
    var unmapped, _ := UnmappedFields(raw.decoded);
    var ocsf := OcsfOf(raw, eventType.text == Ascii("login_failed"), username.text, address.text, time.value, unmapped);
    var timestamp := UtcTimestamp(library, time.value);
    if timestamp.None? {
      return Failure(ClockFailure);
    }
    return Success(Mapped(EventOf(library, raw, ocsf, timestamp.value)));
  }

  /** A rejection's message: nonempty ASCII. */
  predicate Worded(message: Text) {
    message != [] && IsAscii(message)
  }

  function Refuse(library: Library, raw: RawEvent, code: RejectionCode, message: Text): Result<MappingResult> {
    Success(Unmappable(Reject(library, raw, code, message)))
  }

  /** The declarative reading of the checks. */
  lemma MappableIsUnobjectionable(library: Library, raw: RawEvent)
    ensures Mappable(library, raw) <==> Objection(library, raw).None?
  {
    hide Ascii, NotDecodedText, UnsupportedText, BadAddressText, BadTimeText;
    var names := [Ascii("event_type"), Ascii("username"), Ascii("source_ip")];
    assert names[0] in names && names[1] in names && names[2] in names;
  }

  lemma FieldsAreWorded(members: seq<Member>, name: Text)
    requires IsAscii(name)
    ensures RequiredString(members, name).Fault? ==> Worded(RequiredString(members, name).message)
  {
    hide AbsentText, WrongTypeText, EmptyText;
  }
}
