/** The wire contract's entities, and the file records they stand for. */
module Contract {
  import opened Exceptions
  import opened Octets
  import opened Json

  /** A UUIDv4: the generator never repeats one. */
  type Id = nat

  type SourceId = Text

  /** One complete record of an input file. */
  datatype Span = Span(source: SourceId, identity: Text, start: nat, end: nat)

  /** source.position: the three members a file reader writes, or any other document. */
  datatype Position =
    | FilePosition(identity: Text, start: nat, end: nat)
    | OtherPosition(document: Json)

  datatype Timestamp = Rfc3339(text: Text) | Malformed(text: Text)

  datatype EventSource = EventSource(
    sourceId: SourceId, adapterType: Text, upstreamSenderId: Text,
    originalEndpointId: Text, upstreamEventId: Text, position: Position)

  datatype ContractEvent = ContractEvent(
    eventId: Text, source: EventSource, eventTime: Timestamp, receivedTime: Timestamp,
    contentType: Text, rawPayload: Text, ocsf: Json, mapping: Json)

  datatype Integrity = Integrity(keyId: Text, value: Option<Text>)

  datatype EventBatch = EventBatch(
    batchId: Id, collectorId: Text, createdAt: Timestamp,
    events: seq<ContractEvent>, integrity: Integrity)

  datatype RejectionCode =
    | InvalidJson
    | InvalidUtf8
    | MissingRequiredField
    | InvalidFieldType
    | InvalidTimestamp
    | InvalidIpAddress
    | UnsupportedEventType
    | RecordTooLarge
    | MappingFailed
    | OcsfValidationFailed

  datatype RejectedPayload = RejectedPayload(
    contentType: Text, byteLength: nat, sha256: Text, capture: Text, captureTruncated: bool)

  datatype RejectedEvent = RejectedEvent(
    rejectionId: Id, collectorId: Text, rejectedAt: Timestamp, source: Span,
    adapterType: Text, code: RejectionCode, message: Text,
    payload: RejectedPayload, integrity: Integrity)

  function SpanOf(event: ContractEvent): Span {
    match event.source.position
    case FilePosition(identity, start, end) => Span(event.source.sourceId, identity, start, end)
    case OtherPosition(_) => Span(event.source.sourceId, [], 0, 0)
  }

  function SpansOfEvents(events: seq<ContractEvent>): (spans: seq<Span>)
    ensures |spans| == |events|
  {
    seq(|events|, i requires 0 <= i < |events| => SpanOf(events[i]))
  }
}
