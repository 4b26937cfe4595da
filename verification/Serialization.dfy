/** The batch document and its validation: what serialize() accepts and the text it writes. */
module Serialization {
  import opened Exceptions
  import opened Octets
  import opened Json
  import opened Contract
  import opened Utf8

  const MAXIMUM_EVENTS_PER_BATCH := 1000
  const MAXIMUM_BATCH_BYTES := 8388608
  const MAXIMUM_EVENT_BYTES := 524288
  const MAXIMUM_NESTING := 128
  const SIGNATURE_LENGTH := 43

  /** The two ContractError codes the batch assembler tells apart. */
  datatype Fault = RecordTooLargeFault | OtherFault

  datatype Encoding = Encoded(text: Text) | Refused(fault: Fault)

  predicate IsLower(b: Byte) { 0x61 <= b <= 0x7A }

  predicate IsUpper(b: Byte) { 0x41 <= b <= 0x5A }

  predicate MatchesIdentifier(value: Text, lowercaseOnly: bool) {
    && 1 <= |value| <= 64
    && forall i | 0 <= i < |value| ::
         IsLower(value[i]) || (!lowercaseOnly && IsUpper(value[i])) || IsDigit(value[i])
         || value[i] == 0x2E || value[i] == 0x5F || value[i] == 0x2D
  }

  predicate IsSignature(value: Text) {
    && |value| == SIGNATURE_LENGTH
    && forall i | 0 <= i < |value| ::
         IsUpper(value[i]) || IsLower(value[i]) || IsDigit(value[i]) || value[i] == 0x5F || value[i] == 0x2D
  }

  predicate IsSafe(number: int) {
    -MAXIMUM_SAFE_INTEGER <= number <= MAXIMUM_SAFE_INTEGER
  }

  /** validate_json_tree: bounded nesting and safe integers. */
  predicate TreeOk(value: Json, depth: nat)
    decreases value
  {
    && depth <= MAXIMUM_NESTING
    && match value
       case Int(number) => IsSafe(number)
       case Arr(items) => forall i | 0 <= i < |items| :: TreeOk(items[i], depth + 1)
       case Obj(members) => forall i | 0 <= i < |members| :: TreeOk(members[i].value, depth + 1)
       case _ => true
  }

  /** The strict dump refuses text that is not UTF-8. */
  predicate TextOk(value: Json)
    decreases value
  {
    match value
    case Str(text) => IsUtf8(text)
    case Arr(items) => forall i | 0 <= i < |items| :: TextOk(items[i])
    case Obj(members) => forall i | 0 <= i < |members| :: IsUtf8(members[i].key) && TextOk(members[i].value)
    case _ => true
  }

  function PositionJson(position: Position): Json {
    match position
    case FilePosition(identity, start, end) =>
      Obj([Member(Ascii("file_identity"), Str(identity)),
           Member(Ascii("record_end_offset"), Int(end)),
           Member(Ascii("record_start_offset"), Int(start))])
    case OtherPosition(document) => document
  }

  function SourceFault(source: EventSource): Option<Fault> {
    if || source.sourceId == [] || source.adapterType == [] || source.upstreamSenderId == []
       || source.originalEndpointId == [] || source.upstreamEventId == [] then Some(OtherFault)
    else
      var position := PositionJson(source.position);
      if !position.Obj? || position.members == [] || !TreeOk(position, 0) then Some(OtherFault) else None
  }

  /** validate_event, in the order it checks. */
  function EventFault(event: ContractEvent): Option<Fault> {
    if event.eventId == [] then Some(OtherFault)
    else if SourceFault(event.source).Some? then SourceFault(event.source)
    else if event.eventTime.Malformed? || event.receivedTime.Malformed? then Some(OtherFault)
    else if event.contentType == [] then Some(OtherFault)
    else if |event.rawPayload| > MAXIMUM_EVENT_BYTES then Some(RecordTooLargeFault)
    else if !event.ocsf.Obj? || !TreeOk(event.ocsf, 0) then Some(OtherFault)
    else if !(event.mapping.Null? || event.mapping.Obj?) || !TreeOk(event.mapping, 0) then Some(OtherFault)
    else None
  }

  function FirstFault(events: seq<ContractEvent>): Option<Fault> {
    if events == [] then None
    else if EventFault(events[0]).Some? then EventFault(events[0])
    else FirstFault(events[1..])
  }

  function SourceJson(source: EventSource): Json {
    Obj([Member(Ascii("adapter_type"), Str(source.adapterType)),
         Member(Ascii("original_endpoint_id"), Str(source.originalEndpointId)),
         Member(Ascii("position"), PositionJson(source.position)),
         Member(Ascii("source_id"), Str(source.sourceId)),
         Member(Ascii("upstream_event_id"), Str(source.upstreamEventId)),
         Member(Ascii("upstream_sender_id"), Str(source.upstreamSenderId))])
  }

  function EventJson(event: ContractEvent): Json {
    var mapping := if event.mapping.Null? then [] else [Member(Ascii("mapping"), event.mapping)];
    Obj([Member(Ascii("content_type"), Str(event.contentType)),
         Member(Ascii("event_id"), Str(event.eventId)),
         Member(Ascii("event_time"), Str(event.eventTime.text))]
        + mapping
        + [Member(Ascii("ocsf"), event.ocsf),
           Member(Ascii("raw_payload"), Str(event.rawPayload)),
           Member(Ascii("received_time"), Str(event.receivedTime.text)),
           Member(Ascii("source"), SourceJson(event.source))])
  }

  function EventsJson(events: seq<ContractEvent>): seq<Json> {
    seq(|events|, i requires 0 <= i < |events| => EventJson(events[i]))
  }

  /** The digits of a UUIDv4 at their 36 places. */
  function UuidText(id: Id): (text: Text)
    ensures |text| == 36
  {
    seq(36, i requires 0 <= i < 36 =>
      if i == 8 || i == 13 || i == 18 || i == 23 then 0x2D
      else if i == 14 then 0x34
      else if i == 19 then HexDigit(8 + id / Sixteen(i) % 4)
      else HexDigit(id / Sixteen(i) % 16))
  }

  function Sixteen(n: nat): (power: nat)
    ensures power > 0
  {
    if n == 0 then 1 else 16 * Sixteen(n - 1)
  }

  function IntegrityJson(integrity: Integrity, signed: bool): Json {
    var value := if signed && integrity.value.Some? then [Member(Ascii("value"), Str(integrity.value.value))] else [];
    Obj([Member(Ascii("algorithm"), Str(Ascii("HMAC-SHA256"))),
         Member(Ascii("key_id"), Str(integrity.keyId))] + value)
  }

  function BatchJson(batch: EventBatch, signed: bool): Json {
    Obj([Member(Ascii("batch_id"), Str(UuidText(batch.batchId))),
         Member(Ascii("collector_id"), Str(batch.collectorId)),
         Member(Ascii("contract_version"), Str(Ascii("1.0.0"))),
         Member(Ascii("created_at"), Str(batch.createdAt.text)),
         Member(Ascii("event_count"), Int(|batch.events|)),
         Member(Ascii("events"), Arr(EventsJson(batch.events))),
         Member(Ascii("integrity"), IntegrityJson(batch.integrity, signed)),
         Member(Ascii("message_type"), Str(Ascii("event_batch"))),
         Member(Ascii("ocsf_schema_version"), Str(Ascii("1.1.0")))])
  }

  function EnvelopeFault(batch: EventBatch, signed: bool): Option<Fault> {
    if !MatchesIdentifier(batch.collectorId, true) || batch.createdAt.Malformed?
       || |batch.events| > MAXIMUM_EVENTS_PER_BATCH
       || !MatchesIdentifier(batch.integrity.keyId, false)
       || (signed && batch.integrity.value.None?)
       || (batch.integrity.value.Some? && !IsSignature(batch.integrity.value.value)) then Some(OtherFault)
    else None
  }

  function Serialize(batch: EventBatch, signed: bool): Encoding {
    if EnvelopeFault(batch, signed).Some? then Refused(EnvelopeFault(batch, signed).value)
    else if FirstFault(batch.events).Some? then Refused(FirstFault(batch.events).value)
    else
      var document := BatchJson(batch, signed);
      if !TreeOk(document, 0) || !TextOk(document) then Refused(OtherFault)
      else
        var text := Dump(document);
        if |text| > MAXIMUM_BATCH_BYTES then Refused(OtherFault) else Encoded(text)
  }

  /** serialize(batch, true) succeeds. */
  predicate SerializableBatch(batch: EventBatch) {
    Serialize(batch, true).Encoded?
  }

  function EncodedBytes(batch: EventBatch): nat {
    match Serialize(batch, true)
    case Encoded(text) => |text|
    case Refused(_) => 0
  }

  /** At most this many containers are nested: what the strict scanner counts. */
  predicate Shallow(value: Json, containers: nat)
    decreases value
  {
    match value
    case Arr(items) => containers > 0 && forall i | 0 <= i < |items| :: Shallow(items[i], containers - 1)
    case Obj(members) => containers > 0 && forall i | 0 <= i < |members| :: Shallow(members[i].value, containers - 1)
    case _ => true
  }

  /**
   * parse_event_batch accepts the text that serialize wrote. The two count nesting differently: the tree check
   * counts the depth of values, from zero at the root, and the scanner counts open containers.
   */
  predicate Reparsable(batch: EventBatch) {
    Shallow(BatchJson(batch, true), MAXIMUM_NESTING)
  }
}
