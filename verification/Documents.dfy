/** What the collector stores: paths, documents, and file contents that a crash may have torn. */
module Documents {
  import opened Exceptions
  import opened Octets
  import opened Json
  import opened Contract

  datatype Path =
    | SealedPath(id: Id)      // <outbox>/<id>.batch.json
    | ManifestPath(id: Id)    // <outbox>/<id>.manifest.json
    | HandoffPath(id: Id)     // <handoff>/incoming/batch_<id>.json
    | PendingPath(id: Id)     // <rejected>/pending/<id>.json
    | RecordPath(id: Id)      // <rejected>/records/<id>.json
    | CheckpointPath
    | SequencePath
    | HeartbeatPath

  /** A committed source position as the checkpoint stores it. */
  datatype Mark =
    | FileMark(identity: Text, endOffset: nat)
    | RejectionMark(identity: Text, startOffset: nat, endOffset: nat)
    | OtherMark(document: Json)

  type Marks = map<SourceId, Mark>

  datatype PublicationKind = EventBatchKind | RejectedEventKind

  datatype Manifest = Manifest(
    batchId: Id, collectorId: Text, createdAt: Timestamp, encodedBytes: nat, positions: Marks)

  datatype CheckpointState = CheckpointState(
    collectorId: Text, updatedAt: Timestamp, kind: PublicationKind,
    publicationId: Id, sources: Marks)

  datatype Document =
    | BatchDocument(batch: EventBatch)
    | RejectionDocument(rejected: RejectedEvent)
    | ManifestDocument(manifest: Manifest)
    | CheckpointDocument(checkpoint: CheckpointState)
    | SequenceDocument(collectorId: Text, nextSequence: nat)
    | HeartbeatDocument(sender: Text, sequence: nat)

  /** A proper prefix of a document is never a document: parsing it fails. */
  datatype Content = Whole(document: Document) | Torn(written: nat)

  predicate IsPublication(document: Document) {
    document.BatchDocument? || document.RejectionDocument?
  }

  function IdOf(document: Document): Id
    requires IsPublication(document)
  {
    if document.BatchDocument? then document.batch.batchId else document.rejected.rejectionId
  }

  /** The input records a publication carries. */
  function SpansOf(document: Document): seq<Span>
    requires IsPublication(document)
  {
    if document.BatchDocument? then SpansOfEvents(document.batch.events)
    else [document.rejected.source]
  }

  /** Where a publication waits until its checkpoint is committed. */
  function HoldPath(document: Document): Path
    requires IsPublication(document)
  {
    if document.BatchDocument? then SealedPath(IdOf(document)) else PendingPath(IdOf(document))
  }

  /** Where a publication becomes visible. */
  function ShowPath(document: Document): Path
    requires IsPublication(document)
  {
    if document.BatchDocument? then HandoffPath(IdOf(document)) else RecordPath(IdOf(document))
  }

  predicate IsHold(path: Path) {
    path.SealedPath? || path.PendingPath?
  }

  predicate IsShow(path: Path) {
    path.HandoffPath? || path.RecordPath?
  }

  function MarkOf(event: ContractEvent): Mark {
    match event.source.position
    case FilePosition(identity, _, end) => FileMark(identity, end)
    case OtherPosition(document) => OtherMark(document)
  }

  /** The last position of every source that occurs in the events. */
  function MarksOfEvents(events: seq<ContractEvent>): Marks {
    if events == [] then map[]
    else
      var last := events[|events| - 1];
      MarksOfEvents(events[..|events| - 1])[last.source.sourceId := MarkOf(last)]
  }

  function MarksOf(document: Document): Marks
    requires IsPublication(document)
  {
    if document.BatchDocument? then MarksOfEvents(document.batch.events)
    else
      var span := document.rejected.source;
      map[span.source := RejectionMark(span.identity, span.start, span.end)]
  }

  /** The file offset a mark stands at, when it has one. */
  function OffsetOf(mark: Mark): Option<(Text, nat)> {
    match mark
    case FileMark(identity, endOffset) => Some((identity, endOffset))
    case RejectionMark(identity, _, endOffset) => Some((identity, endOffset))
    case OtherMark(_) => None
  }

  /** Same file, lower offset. */
  predicate Regresses(previous: Mark, next: Mark) {
    OffsetOf(previous).Some? && OffsetOf(next).Some?
    && OffsetOf(previous).value.0 == OffsetOf(next).value.0
    && OffsetOf(next).value.1 < OffsetOf(previous).value.1
  }

  predicate AnyRegression(existing: Marks, positions: Marks) {
    exists s | s in positions :: s in existing && Regresses(existing[s], positions[s])
  }
}
