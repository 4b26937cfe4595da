/** The runtime: five holding places between the readers and the durable publications. */
module CollectorRuntime {
  import opened Exceptions
  import opened Octets
  import opened Foreign
  import opened Json
  import opened Contract
  import opened Documents
  import opened FileSystem
  import opened Protocol
  import opened Pipeline
  import opened Sequences
  import opened RawEvents
  import opened Rejections
  import opened RejectionDocuments
  import opened Serialization
  import opened ContractSigner
  import opened CheckpointStore
  import opened FileReader
  import opened SourceLogs
  import opened MappedEvents
  import opened Origins
  import opened Lines
  import OutboxPublisher
  import RejectedEventPublisher
  import BatchAssembler
  import BoundedEventQueue
  import BaselineMapper
  import CanonicalJson

  /** IIdentifierGenerator: it never repeats an identifier, across restarts too. */
  class Identifiers {
    var next: Id

    constructor ()
    {
      next := 0;
    }

    method NextUuid() returns (id: Id)
      modifies this
      ensures id == old(next) && next == id + 1
    {
      id := next;
      next := next + 1;
    }
  }

  function NotRepresentableText(): (text: Text)
    ensures BaselineMapper.Worded(text)
  {
    Ascii("mapped event cannot be represented in a contract batch")
  }

  function TooLargeText(): (text: Text)
    ensures BaselineMapper.Worded(text)
  {
    Ascii("mapped event exceeds the queue record limit")
  }

  /** One configured source. */
  datatype SourceSettings = SourceSettings(id: SourceId, enabled: bool, fileDrop: bool, startPosition: StartPosition)

  /** The configuration loader refuses repeated source ids. */
  predicate DistinctIds(settings: seq<SourceSettings>) {
    forall i, j | 0 <= i < j < |settings| :: settings[i].id != settings[j].id
  }

  /** What becomes of an event taken from the queue. */
  datatype Placement = Placed | Blocked | AsideSet

  class Runtime {
    const collectorId: Text
    const library: Library
    const signer: Signer
    const disk: Disk
    const checkpoints: Store
    const outbox: OutboxPublisher.Outbox
    const rejected: RejectedEventPublisher.Publisher
    const identifiers: Identifiers
    const settings: seq<SourceSettings>
    const batchSize: nat
    const queue: BoundedEventQueue.Queue
    const assembler: BatchAssembler.Assembler
    var readers: seq<Reader>
    var started: bool
    var stopping: bool
    var buffered: seq<PendingInput>
    var deferred: Option<ContractEvent>
    var pendingBatch: Option<EventBatch>
    var pendingRejection: Option<RejectedEvent>
    var eventsReceived: nat
    var eventsPublished: nat
    var eventsRejected: nat

    /** The front of the buffer is a refused event that came before everything in the queue. */
    ghost var ahead: bool
    /** An event was overtaken by a later one of its source. */
    ghost var inverted: bool

    constructor (collectorId: Text, library: Library, keyId: Text, key: Text, disk: Disk, identifiers: Identifiers,
                 settings: seq<SourceSettings>, batchSize: nat, batchTimeout: nat, queueEvents: nat, queueBytes: nat)
      requires Lawful(library) && Credentials(collectorId, keyId) && DistinctIds(settings)
      requires 1 <= batchSize <= MAXIMUM_EVENTS_PER_BATCH && 1 <= batchTimeout <= 5
      requires 1 <= queueEvents && 1 <= queueBytes <= BoundedEventQueue.MAXIMUM_U64
      ensures Valid() && fresh(queue) && fresh(assembler) && fresh(this)
      ensures this.collectorId == collectorId && this.library == library && this.disk == disk
              && this.identifiers == identifiers
      ensures this.settings == settings && this.batchSize == batchSize && readers == [] && !started && !stopping
      ensures buffered == [] && deferred == None && queue.Contents() == [] && assembler.batch == None
              && Pending() == None
      ensures queue.maximumEventsPerSource == queueEvents && queue.maximumBytesPerSource == queueBytes
      ensures !ahead && !inverted && eventsReceived == eventsPublished == eventsRejected == 0
    {
      this.collectorId, this.library, this.disk, this.identifiers := collectorId, library, disk, identifiers;
      this.settings, this.batchSize := settings, batchSize;
      readers, started, stopping := [], false, false;
      signer := new Signer(library, keyId, key);
      var store := new Store(disk);
      checkpoints := store;
      outbox := new OutboxPublisher.Outbox(collectorId, disk, store);
      rejected := new RejectedEventPublisher.Publisher(collectorId, disk, store);
      queue := new BoundedEventQueue.Queue(queueEvents, queueBytes, queueEvents, queueBytes);
      assembler := new BatchAssembler.Assembler(batchSize, MAXIMUM_BATCH_BYTES, batchTimeout);
      buffered, deferred, pendingBatch, pendingRejection := [], None, None, None;
      eventsReceived, eventsPublished, eventsRejected := 0, 0, 0;
      ahead, inverted := false, false;
    }

    // ---------------------------------------------------------------- the holding places

    ghost predicate Wired() {
      && outbox.collectorId == collectorId && outbox.disk == disk && outbox.checkpoints == checkpoints
      && rejected.collectorId == collectorId && rejected.disk == disk && rejected.checkpoints == checkpoints
      && checkpoints.disk == disk && signer.library == library && assembler.maximumBytes == MAXIMUM_BATCH_BYTES
      && Lawful(library) && Credentials(collectorId, signer.keyId)
      && DistinctIds(settings)
    }

    function Pending(): Option<Document>
      reads this`pendingBatch, this`pendingRejection
    {
      if pendingBatch.Some? then Some(BatchDocument(pendingBatch.value))
      else if pendingRejection.Some? then Some(RejectionDocument(pendingRejection.value))
      else None
    }

    /** The batch under construction is not empty. */
    ghost predicate Assembling()
      reads assembler
    {
      && assembler.Valid()
      && (assembler.batch.Some? ==>
            assembler.batch.value.events != [] && Enveloped(assembler.batch.value, assembler.emptyBytes))
    }

    ghost predicate Valid()
      reads this`ahead, this`buffered, this`deferred, this`pendingBatch, this`pendingRejection, queue, assembler
    {
      && Wired() && queue.Valid() && Assembling()
      && (pendingBatch.Some? ==> pendingRejection.None?)
      && (Pending().Some? ==> assembler.batch.None?)
      && (ahead ==>
            && buffered != [] && buffered[0].RejectedInput?
            && deferred.None? && assembler.batch.None? && Pending().None?)
    }

    /** A batch of this collector's, before it is signed. */
    predicate Enveloped(batch: EventBatch, emptyBytes: nat) {
      && batch.collectorId == collectorId && batch.integrity == Integrity(signer.keyId, None)
      && emptyBytes <= BatchAssembler.ENVELOPE_LIMIT
    }

    /** Records committed, then those of the pending publication. */
    ghost function Committing(): seq<Span>
      reads this`pendingBatch, this`pendingRejection, disk
    {
      if Pending().Some? then Outstanding(disk.View(), Pending().value) else disk.committed
    }

    ghost function Assembled(): seq<Span>
      reads assembler
    {
      SpansOfEvents(assembler.Events())
    }

    /** Everything from the commit to the queue. */
    ghost function Staged(): seq<Span>
      reads this`pendingBatch, this`pendingRejection, this`deferred, disk, queue, assembler
    {
      Committing() + Assembled() + SpansOfOption(deferred) + SpansOfEvents(queue.Contents())
    }

    /** Everything from the commit to the queue, with the refused event where its turn is. */
    ghost function Flow(): seq<Span>
      reads this`ahead, this`buffered, this`deferred, this`pendingBatch, this`pendingRejection, disk, queue, assembler
    {
      if ahead && buffered != [] then Committing() + [SpanOfInput(buffered[0])] + SpansOfEvents(queue.Contents())
      else Staged()
    }

    /** The buffered inputs that come after the queue. */
    ghost function Rest(): seq<Span>
      reads this`ahead, this`buffered
    {
      if ahead && buffered != [] then SpansOfInputs(buffered[1..]) else SpansOfInputs(buffered)
    }

    /** Everything read, in the order in which it will be committed. */
    ghost function Ledger(): seq<Span>
      reads this`ahead, this`buffered, this`deferred, this`pendingBatch, this`pendingRejection, disk, queue, assembler
    {
      Flow() + Rest()
    }

    // ---------------------------------------------------------------- the invariant

    /** The durable state is sound, and the pending publication may be published. */
    ghost predicate Safe(log: Log)
      reads this`pendingBatch, this`pendingRejection, disk
    {
      if Pending().Some? then Ready(collectorId, log, disk.View(), Pending().value)
      else Sound(collectorId, log, disk.View(), None)
    }

    ghost predicate Numbered()
      reads this`pendingBatch, this`pendingRejection, disk, assembler, identifiers
    {
      && Issued(identifiers.next, disk.View())
      && (Pending().Some? ==> IdOf(Pending().value) < identifiers.next)
      && (assembler.batch.Some? ==>
            assembler.batch.value.batchId < identifiers.next && Unused(assembler.batch.value.batchId, disk.View()))
    }

    function PendingCount(): nat
      reads this`pendingBatch
    {
      if pendingBatch.Some? then |pendingBatch.value.events| else 0
    }

    /** Events held and not in the pending batch. */
    function StoredCount(): nat
      reads this`buffered, this`deferred, queue, assembler
    {
      |buffered| + |queue.Contents()| + (if deferred.Some? then 1 else 0) + |assembler.Events()|
    }

    /** Events received and neither published nor counted as rejected. */
    function HeldCount(): nat
      reads this`buffered, this`deferred, this`pendingBatch, queue, assembler
    {
      StoredCount() + PendingCount()
    }

    lemma CountIs()
      ensures AllCount() == HeldCount() + eventsPublished + eventsRejected
    {
      hide HeldCount;
    }

    /** Every event that is held, published or counted as rejected. */
    function AllCount(): nat
      reads this`buffered, this`deferred, this`pendingBatch, this`eventsPublished, this`eventsRejected, queue, assembler
    {
      HeldCount() + eventsPublished + eventsRejected
    }

    /** The checkpoint stands after the record, in the same file. */
    ghost predicate Behind(span: Span)
      reads disk
    {
      AnyRegression(CheckpointMarks(disk.files), map[span.source := RejectionMark(span.identity, span.start, span.end)])
    }

    /** A pending rejection that the checkpoint has overtaken. */
    ghost predicate Doomed()
      reads this`pendingBatch, this`pendingRejection, disk
    {
      pendingBatch.None? && pendingRejection.Some? && Behind(pendingRejection.value.source)
    }

    // ---------------------------------------------------------------- publication

    /** The pending publication is not sealed on the disk in a form that reading back refuses. */
    predicate Retryable()
      reads this`pendingBatch, disk`files
    {
      pendingBatch.Some? && SealedPath(pendingBatch.value.batchId) in disk.files ==> Reparsable(pendingBatch.value)
    }

    method RetryBatch(ghost log: Log) returns (ok: bool)
      requires Valid() && pendingBatch.Some?
      modifies this`pendingBatch, this`pendingRejection, this`eventsPublished
      modifies disk`files, disk`temporaries, disk`twins, disk`rewritten, disk`visible, disk`committed, disk`landed
      ensures Valid()
      ensures ok ==> Pending().None?
      ensures !ok ==> Pending() == old(Pending())
      ensures Committing() == old(Committing())
      ensures old(Safe(log)) ==> Safe(log)
      ensures old(Numbered()) ==> Numbered()
      ensures old(Safe(log)) && disk.healthy ==> (ok <==> old(Retryable()))
      ensures old(!Retryable()) ==> !ok && disk.View() == old(disk.View())
      ensures eventsPublished + PendingCount() == old(eventsPublished + PendingCount())
    {
      hide Sound, Ready, Of, InOrder, SerializableBatch, SerializableRejection, MarksOf, MarksOfEvents, EncodedBytes,
        Next, OutboxPublisher.Transient, RejectedEventPublisher.StuckHolding, AnyRegression, SpansOf,
        BoundedEventQueue.Queue.Valid, Assembling, Acceptable, Unused, HoldPath, Wired;
      Wiring();
      var now := Now();
      var receipt := outbox.PublishSigned(pendingBatch.value, now, log);
      if receipt.Failure? {
        return false;
      }
      eventsPublished := eventsPublished + |pendingBatch.value.events|;
      pendingBatch := None;
      return true;
    }

    lemma Wiring()
      requires Wired()
      ensures outbox.Wired() && outbox.disk == disk && outbox.collectorId == collectorId
      ensures rejected.Wired() && rejected.disk == disk && rejected.collectorId == collectorId
      ensures checkpoints.disk == disk
    {
    }

    /** The pending rejection has not been on the disk before. */
    ghost predicate FirstTry()
      reads this`pendingBatch, this`pendingRejection, disk
    {
      && pendingBatch.None? && pendingRejection.Some?
      && Acceptable(collectorId, RejectionDocument(pendingRejection.value))
      && PendingPath(pendingRejection.value.rejectionId) !in disk.files
      && RecordPath(pendingRejection.value.rejectionId) !in disk.files
    }

    method RetryRejection(ghost log: Log) returns (ok: bool)
      requires Valid() && pendingRejection.Some?
      modifies this`pendingBatch, this`pendingRejection, this`eventsPublished
      modifies disk`files, disk`temporaries, disk`twins, disk`rewritten, disk`visible, disk`committed, disk`landed
      ensures Valid()
      ensures ok ==> Pending().None?
      ensures !ok ==> Pending() == old(Pending())
      ensures Committing() == old(Committing())
      ensures old(Safe(log)) ==> Safe(log)
      ensures old(Numbered()) ==> Numbered()
      ensures old(Safe(log)) && disk.healthy ==> ok
      ensures eventsPublished + PendingCount() == old(eventsPublished + PendingCount())
      ensures old(Doomed()) ==>
                && !ok && Doomed()
                && RejectedEventPublisher.StuckHolding(old(disk.View()), disk.View(), pendingRejection.value)
      ensures old(Doomed()) && disk.healthy && Acceptable(collectorId, RejectionDocument(pendingRejection.value)) ==>
                var path := PendingPath(pendingRejection.value.rejectionId);
                path in disk.files
                && (path in old(disk.files) || disk.files[path] == Whole(RejectionDocument(pendingRejection.value)))
      ensures old(FirstTry()) && disk.healthy ==>
                disk.visible == old(disk.visible) + {old(RejectionDocument(pendingRejection.value))}
    {
      hide Sound, Ready, Of, InOrder, SerializableBatch, SerializableRejection, MarksOf, MarksOfEvents, EncodedBytes,
        Next, OutboxPublisher.Transient, RejectedEventPublisher.StuckHolding, AnyRegression, SpansOf,
        BoundedEventQueue.Queue.Valid, Assembling, Acceptable, Unused, HoldPath, Wired;
      Wiring();
      MarksOfRejection(pendingRejection.value);
      var now := Now();
      var receipt := rejected.PublishSigned(pendingRejection.value, now, log);
      StillBehind(old(disk.View()), pendingRejection.value);
      if receipt.Failure? {
        return false;
      }
      pendingRejection := None;
      return true;
    }

    /** retry_pending_publication: every exception becomes false. */
    method RetryPendingPublication(ghost log: Log) returns (ok: bool)
      requires Valid()
      modifies this`pendingBatch, this`pendingRejection, this`eventsPublished
      modifies disk`files, disk`temporaries, disk`twins, disk`rewritten, disk`visible, disk`committed, disk`landed
      ensures old(Pending()).None? ==> ok && disk.View() == old(disk.View())
      ensures Valid()
      ensures ok ==> Pending().None?
      ensures !ok ==> Pending() == old(Pending())
      ensures Committing() == old(Committing())
      ensures old(Safe(log)) ==> Safe(log)
      ensures old(Numbered()) ==> Numbered()
      ensures old(Safe(log)) && disk.healthy ==> (ok <==> old(Retryable()))
      ensures old(Pending()).None? ==> unchanged(this) && unchanged(disk)
      ensures old(!Retryable()) ==> !ok && disk.View() == old(disk.View())
      ensures eventsPublished + PendingCount() == old(eventsPublished + PendingCount())
      ensures old(Doomed()) ==>
                && !ok && Doomed()
                && RejectedEventPublisher.StuckHolding(old(disk.View()), disk.View(), pendingRejection.value)
      ensures old(Doomed()) && disk.healthy && Acceptable(collectorId, RejectionDocument(pendingRejection.value)) ==>
                var path := PendingPath(pendingRejection.value.rejectionId);
                path in disk.files
                && (path in old(disk.files) || disk.files[path] == Whole(RejectionDocument(pendingRejection.value)))
      ensures old(FirstTry()) && disk.healthy ==>
                disk.visible == old(disk.visible) + {old(RejectionDocument(pendingRejection.value))}
    {
      hide Safe, Numbered, Wired, BoundedEventQueue.Queue.Valid, Assembling, RejectedEventPublisher.StuckHolding,
        Behind, Acceptable;
      if pendingBatch.Some? {
        ok := RetryBatch(log);
      } else if pendingRejection.Some? {
        ok := RetryRejection(log);
      } else {
        ok := true;
      }
    }

    lemma MarksOfRejection(rejection: RejectedEvent)
      ensures var span := rejection.source;
              MarksOf(RejectionDocument(rejection))
                  == map[span.source := RejectionMark(span.identity, span.start, span.end)]
    {
    }

    lemma StillBehind(before: Durable, rejection: RejectedEvent)
      ensures RejectedEventPublisher.StuckHolding(before, disk.View(), rejection) ==>
                CheckpointMarks(disk.files) == CheckpointMarks(before.files)
                && disk.committed == before.committed && disk.landed == before.landed
    {
    }

    /** begin_batch */
    method BeginBatch(now: int) returns (outcome: Outcome)
      requires Valid() && assembler.batch.None? && Pending().None? && !ahead
      modifies assembler, identifiers
      ensures outcome.Pass? && queue.Valid() && assembler.Valid()
      ensures assembler.batch.Some? && assembler.batch.value.events == []
      ensures Enveloped(assembler.batch.value, assembler.emptyBytes)
      ensures old(Numbered()) ==> Numbered()
    {
      hide BatchAssembler.TextSize, BatchAssembler.EnvelopeOk, MatchesIdentifier, Sound;
      var id := identifiers.NextUuid();
      var createdAt := Now();
      var bare := EventBatch(id, collectorId, createdAt, [], Integrity(signer.keyId, None));
      BatchAssembler.EnvelopeIsSmall(bare);
      assert bare.(events := []) == bare;
      outcome := assembler.Begin(id, collectorId, createdAt, signer.keyId, now);
    }

    /** The sealed batch, signed, may be published. */
    lemma SealedIsReady(log: Log, batch: EventBatch, signature: Text)
      requires Wired() && Sound(collectorId, log, disk.View(), None)
      requires batch.events != [] && batch.collectorId == collectorId
               && batch.integrity == Integrity(signer.keyId, None)
      requires BatchAssembler.SignedSize(batch).Encoded? && IsSignature(signature)
      requires Unused(batch.batchId, disk.View()) && InOrder(log, disk.committed + SpansOfEvents(batch.events))
      ensures Ready(collectorId, log, disk.View(), BatchDocument(BatchAssembler.SignedWith(batch, signature)))
    {
      hide Sound, InOrder, Unused, Serialize, IsSignature, BatchAssembler.SignedSize;
      BatchAssembler.AnySignatureFits(batch, signature);
      NewIsReady(collectorId, log, disk.View(), BatchDocument(BatchAssembler.SignedWith(batch, signature)));
    }

    /** The assembled batch becomes the pending one: sealed and signed, which cannot fail. */
    method SealPending(ghost log: Log)
      requires Valid() && Pending().None? && assembler.batch.Some? && !ahead
      modifies this`pendingBatch, assembler`batch, assembler`emptyBytes, assembler`encodedBytes
      ensures Valid()
      ensures pendingBatch.Some? && assembler.batch.None? && |pendingBatch.value.events| == old(|assembler.Events()|)
      ensures pendingBatch.value.events == old(assembler.Events()) && signer.Verifies(pendingBatch.value)
      ensures old(Numbered()) ==> Numbered()
      ensures old(Numbered()) ==> Committing() == old(disk.committed + Assembled())
      ensures old(Safe(log) && Numbered() && InOrder(log, Committing() + Assembled())) ==>
                Safe(log) && Numbered() && Retryable()
    {
      hide Sound, Ready, Of, InOrder, SpansOfEvents, Acceptable, Serialize, BatchAssembler.SignedSize, IsSignature,
        Signer.SignatureOf, Signer.BatchSignable, BoundedEventQueue.Queue.Valid, Unused, Issued,
        BatchAssembler.EnvelopeOk, BatchAssembler.EventOk, BatchAssembler.TextSize, Lawful, MatchesIdentifier;
      var sealed := assembler.Seal();
      assert sealed.Success?;
      SealedIsSignable(signer, sealed.value);
      var signed := signer.SignBatch(sealed.value);
      assert signed.Success?;
      if old(Safe(log) && Numbered() && InOrder(log, Committing() + Assembled())) {
        SealedIsReady(log, sealed.value, signed.value.integrity.value.value);
      }
      if old(Safe(log)) {
        NothingPending(collectorId, log, disk.View());
        assert IsHold(SealedPath(sealed.value.batchId));
      }
      UnusedIsNotLanded(sealed.value.batchId);
      pendingBatch := Some(signed.value);
    }

    lemma UnusedIsNotLanded(id: Id)
      ensures Unused(id, disk.View()) ==> id !in disk.landed
    {
    }

    /** flush_batch: seal, sign and publish; none of it throws. */
    method FlushBatch(ghost log: Log) returns (ok: bool)
      requires Valid()
      modifies this`pendingBatch, this`pendingRejection, this`eventsPublished
      modifies assembler`batch, assembler`emptyBytes, assembler`encodedBytes
      modifies disk`files, disk`temporaries, disk`twins, disk`rewritten, disk`visible, disk`committed, disk`landed
      ensures Valid()
      ensures ok <==> Pending().None?
      ensures assembler.batch.None?
      ensures old(Numbered()) ==> Numbered()
      ensures old(Numbered()) ==> Committing() + Assembled() == old(Committing() + Assembled())
      ensures old(Pending().None? && assembler.batch.None?) ==> disk.View() == old(disk.View()) && ok
      ensures old(Safe(log) && Numbered() && InOrder(log, Committing() + Assembled())) ==>
                Safe(log) && Numbered() && (disk.healthy && old(Retryable()) ==> ok)
      ensures eventsPublished + PendingCount() + |assembler.Events()|
              == old(eventsPublished + PendingCount() + |assembler.Events()|)
    {
      hide Safe, Numbered, InOrder, SpansOfEvents, Wired, BoundedEventQueue.Queue.Valid, BatchAssembler.Assembler.Valid;
      if pendingBatch.Some? || pendingRejection.Some? {
        ok := RetryPendingPublication(log);
        return;
      }
      if assembler.Empty() {
        return true;
      }
      SealPending(log);
      ok := RetryPendingPublication(log);
    }

    // ---------------------------------------------------------------- the queue

    /** The events queued and deferred. */
    ghost function InHand(): set<ContractEvent>
      reads this`deferred, queue
    {
      (set e | e in queue.Contents()) + (if deferred.Some? then {deferred.value} else {})
    }

    ghost predicate AllCarried()
      reads this`deferred, queue
    {
      forall e | e in InHand() :: Carried(e)
    }

    ghost predicate AllRepresentable()
      reads this`deferred, queue
    {
      forall e | e in InHand() :: BatchAssembler.Representable(e, MAXIMUM_BATCH_BYTES)
    }

    /** What is held came from these files; a refused event that waits at the front stands where its record does. */
    ghost predicate AllTraced(files: Files)
      reads this`ahead, this`buffered, this`deferred, queue
    {
      && (forall e | e in InHand() :: Springs(library, files, MappedInput(e)))
      && (forall x | x in buffered :: Springs(library, files, x))
      && (ahead && buffered != [] ==> RefusedAt(library, files, SpanOfInput(buffered[0])))
    }

    /** The front of the buffer is a publishable rejection of an event. */
    ghost predicate SetAsideFrom(inputs: seq<PendingInput>)
      reads this`buffered
    {
      |buffered| == |inputs| + 1 && buffered[1..] == inputs && buffered[0].RejectedInput?
    }

    /** The front of the buffer is the rejection of one of these events, which no batch is sure to hold. */
    ghost predicate AsideOf(events: set<ContractEvent>)
      reads this`buffered
    {
      buffered != [] && exists e :: e in events && Refusal(e, buffered[0])
    }

    ghost predicate Refusal(event: ContractEvent, input: PendingInput) {
      && !BatchAssembler.Representable(event, MAXIMUM_BATCH_BYTES)
      && SpanOfInput(input) == SpanOf(event) && (Carried(event) ==> CarriedInput(input))
    }

    lemma SetAsideIsCarried(event: ContractEvent)
      requires Wired()
      ensures Carried(event) ==> forall code ::
                CarriedInput(RejectedInput(RejectEvent(library, event, code, NotRepresentableText())))
      ensures forall code :: RejectEvent(library, event, code, NotRepresentableText()).source == SpanOf(event)
    {
      hide Publishable, Carried;
      if Carried(event) {
        forall code ensures CarriedInput(RejectedInput(RejectEvent(library, event, code, NotRepresentableText()))) {
          RejectedEventIsPublishable(library, event, code, NotRepresentableText());
        }
      }
    }

    /** The deferred event, or else the oldest queued one. */
    method TakeEvent() returns (event: Option<ContractEvent>)
      requires Valid() && !ahead
      modifies this`deferred, queue`entries, queue`usage, queue`bytes
      ensures Valid() && deferred.None?
      ensures SpansOfOption(old(deferred)) + SpansOfEvents(old(queue.Contents())) == SpansOfOption(event)
              + SpansOfEvents(queue.Contents())
      ensures event.None? ==> old(deferred).None? && old(queue.Contents()) == [] && queue.Contents() == []
      ensures event.Some? ==>
                |queue.Contents()| + 1 == old(|queue.Contents()| + if deferred.Some? then 1 else 0)
      ensures HeldCount() == old(HeldCount()) - if event.Some? then 1 else 0
      ensures InHand() <= old(InHand()) && (event.Some? ==> event.value in old(InHand()))
      ensures old(InHand()) <= InHand() + if event.Some? then {event.value} else {}
      ensures old(deferred).None? && old(queue.Contents()) != [] ==>
                event == Some(old(queue.Contents())[0]) && queue.Contents() == old(queue.Contents())[1..]
    {
      hide Lawful, Credentials, BatchAssembler.Assembler.Valid, BoundedEventQueue.Queue.Valid,
        BatchAssembler.Representable, Carried;
      if deferred.Some? {
        event := deferred;
        deferred := None;
        return;
      }
      var popped := queue.TryPop();
      event := popped.value;
      if event.Some? {
        assert SpansOfEvents(old(queue.Contents())) == [SpanOf(event.value)] + SpansOfEvents(queue.Contents());
      }
    }

    /** Begin a batch when there is none, and try to add the event. */
    method AddToBatch(event: ContractEvent, now: int) returns (result: BatchAssembler.AddResult)
      requires Valid() && Pending().None? && !ahead
      modifies assembler, identifiers
      ensures queue.Valid() && assembler.Valid() && assembler.batch.Some?
      ensures Enveloped(assembler.batch.value, assembler.emptyBytes)
      ensures assembler.Events()
              == if result.Accepted? then old(assembler.Events()) + [event] else old(assembler.Events())
      ensures result.FlushRequired? ==> assembler.Events() != []
      ensures result.EventTooLarge? || result.InvalidEvent? ==>
                !BatchAssembler.Representable(event, MAXIMUM_BATCH_BYTES)
      ensures old(Numbered()) ==> Numbered()
      ensures result.Accepted? || result.FlushRequired? ==> BatchAssembler.EventOk(event)
    {
      hide Lawful, Credentials, BatchAssembler.Assembler.Valid, BoundedEventQueue.Queue.Valid, Issued, Unused,
        BatchAssembler.EventOk;
      if assembler.batch.None? {
        var begun := BeginBatch(now);
      }
      SmallEventFits(assembler.batch.value, event);
      var added := assembler.TryAdd(event);
      result := added.value;
    }

    lemma SmallEventFits(batch: EventBatch, event: ContractEvent)
      requires assembler.Valid() && assembler.batch == Some(batch)
               && assembler.emptyBytes <= BatchAssembler.ENVELOPE_LIMIT
      ensures BatchAssembler.Representable(event, MAXIMUM_BATCH_BYTES) ==>
                BatchAssembler.FitsAlone(batch, event, MAXIMUM_BATCH_BYTES)
      ensures BatchAssembler.EventOk(event) ==> EventFault(event).None?
    {
      hide BatchAssembler.TextSize, BatchAssembler.EventOk, EventFault, Serialize, Dump, EventJson;
      BatchAssembler.OneEvent(batch, event);
      BatchAssembler.OkIsFaultFree(event);
    }

    /** What the publication may rely on. */
    ghost predicate Publishing(log: Log)
      reads this`pendingBatch, this`pendingRejection, disk, assembler, identifiers
    {
      Safe(log) && Numbered() && InOrder(log, Committing() + Assembled())
    }

    /** A refused event, after what came before it is published, becomes the next rejection to publish. */
    method RefuseEvent(event: ContractEvent, result: BatchAssembler.AddResult, ghost log: Log) returns (ok: bool)
      requires Wired() && queue.Valid() && assembler.Valid() && Pending().None? && deferred.None? && !ahead
      requires assembler.batch.Some? && Enveloped(assembler.batch.value, assembler.emptyBytes)
      modifies this`buffered, this`deferred, this`pendingBatch, this`pendingRejection, this`eventsPublished, this`ahead
      modifies assembler`batch, assembler`emptyBytes, assembler`encodedBytes
      modifies disk`files, disk`temporaries, disk`twins, disk`rewritten, disk`visible, disk`committed, disk`landed
      ensures Valid() && assembler.batch.None?
      ensures ok <==> Pending().None?
      ensures ok ==>
                && ahead && deferred.None? && SetAsideFrom(old(buffered))
                && SpanOfInput(buffered[0]) == SpanOf(event) && (Carried(event) ==> CarriedInput(buffered[0]))
      ensures ok ==>
                var code := if result.EventTooLarge? then RecordTooLarge else OcsfValidationFailed;
                buffered[0] == RejectedInput(RejectEvent(library, event, code, NotRepresentableText()))
      ensures !ok ==> !ahead && deferred == Some(event) && buffered == old(buffered)
      ensures old(Numbered()) ==> Numbered()
      ensures old(Numbered()) ==> Committing() + Assembled() == old(Committing() + Assembled())
      ensures old(Publishing(log)) ==> Safe(log) && Numbered() && (disk.healthy ==> ok)
      ensures eventsPublished + PendingCount() + |assembler.Events()|
              == old(eventsPublished + PendingCount() + |assembler.Events()|)
    {
      hide Sound, Ready, InOrder, Wired, BatchAssembler.Assembler.Valid, BoundedEventQueue.Queue.Valid, Issued, Unused,
        SpansOfEvents, Carried, CarriedInput;
      if !assembler.Empty() {
        var flushed := FlushBatch(log);
        if !flushed {
          deferred := Some(event);
          return false;
        }
      }
      if assembler.batch.Some? && assembler.Empty() {
        var discarded := assembler.DiscardEmpty();
      }
      SetAside(event, if result.EventTooLarge? then RecordTooLarge else OcsfValidationFailed);
      return true;
    }

    /** buffered_inputs_.push_front(reject_event(...)) */
    method SetAside(event: ContractEvent, code: RejectionCode)
      requires Wired()
      modifies this`buffered, this`ahead
      ensures ahead && SetAsideFrom(old(buffered)) && SpanOfInput(buffered[0]) == SpanOf(event)
      ensures buffered == [RejectedInput(RejectEvent(library, event, code, NotRepresentableText()))] + old(buffered)
      ensures Carried(event) ==> CarriedInput(buffered[0])
    {
      hide CarriedInput, Carried, RejectEvent;
      buffered := [RejectedInput(RejectEvent(library, event, code, NotRepresentableText()))] + buffered;
      ahead := true;
      SetAsideIsCarried(event);
    }

    /** The records up to an event in hand. */
    ghost function Through(event: ContractEvent): seq<Span>
      reads this`pendingBatch, this`pendingRejection, disk, assembler
    {
      Committing() + Assembled() + [SpanOf(event)]
    }

    function DeferredCount(): nat
      reads this`deferred
    {
      if deferred.Some? then 1 else 0
    }

    /** Once try_add has answered: flush a full batch, flush and defer, or set the event aside. */
    method Settle(event: ContractEvent, result: BatchAssembler.AddResult, ghost log: Log) returns (placement: Placement)
      requires Wired() && queue.Valid() && assembler.Valid() && Pending().None? && deferred.None? && !ahead
      requires assembler.batch.Some? && Enveloped(assembler.batch.value, assembler.emptyBytes)
      requires result.Accepted? || result.FlushRequired? ==> assembler.Events() != []
      modifies this`buffered, this`deferred, this`pendingBatch, this`pendingRejection, this`eventsPublished, this`ahead
      modifies assembler`batch, assembler`emptyBytes, assembler`encodedBytes
      modifies disk`files, disk`temporaries, disk`twins, disk`rewritten, disk`visible, disk`committed, disk`landed
      ensures Valid()
      ensures placement.Blocked? <==> Pending().Some?
      ensures ahead <==> placement.AsideSet?
      ensures placement.AsideSet? ==>
                && deferred.None? && assembler.batch.None? && (result.EventTooLarge? || result.InvalidEvent?)
                && SetAsideFrom(old(buffered))
                && SpanOfInput(buffered[0]) == SpanOf(event) && (Carried(event) ==> CarriedInput(buffered[0]))
      ensures !placement.AsideSet? ==>
                buffered == old(buffered) && (if result.Accepted? then deferred.None? else deferred == Some(event))
      ensures placement.Placed? && deferred.Some? ==> assembler.batch.None? && old(assembler.Events()) != []
      ensures old(Numbered()) ==> Numbered()
      ensures old(Numbered()) ==> Committing() + Assembled() == old(Committing() + Assembled())
      ensures old(Publishing(log)) ==> Safe(log) && Numbered() && (disk.healthy ==> !placement.Blocked?)
      ensures eventsPublished + PendingCount() + |assembler.Events()|
              == old(eventsPublished + PendingCount() + |assembler.Events()|)
      ensures result.EventTooLarge? || result.InvalidEvent? ==> !placement.Placed?
    {
      hide Sound, Ready, InOrder, Wired, BatchAssembler.Assembler.Valid, BoundedEventQueue.Queue.Valid, Issued, Unused,
        Outstanding, RejectEvent, Safe, Numbered, SpansOfEvents;
      if result.Accepted? {
        if assembler.Full() {
          var flushed := FlushBatch(log);
          if !flushed {
            return Blocked;
          }
        }
        return Placed;
      }
      if result.FlushRequired? {
        deferred := Some(event);
        var flushed := FlushBatch(log);
        return if flushed then Placed else Blocked;
      }
      var setAside := RefuseEvent(event, result, log);
      return if setAside then AsideSet else Blocked;
    }

    /** One turn of the drain loop. */
    method PlaceEvent(event: ContractEvent, now: int, ghost log: Log) returns (placement: Placement)
      requires Valid() && Pending().None? && deferred.None? && !ahead
      modifies this`buffered, this`deferred, this`pendingBatch, this`pendingRejection, this`eventsPublished, this`ahead
      modifies assembler, identifiers
      modifies disk`files, disk`temporaries, disk`twins, disk`rewritten, disk`visible, disk`committed, disk`landed
      ensures Valid()
      ensures placement.Blocked? <==> Pending().Some?
      ensures ahead <==> placement.AsideSet?
      ensures placement.AsideSet? ==>
                && deferred.None? && assembler.batch.None? && !BatchAssembler.Representable(event, MAXIMUM_BATCH_BYTES)
                && SetAsideFrom(old(buffered))
                && SpanOfInput(buffered[0]) == SpanOf(event) && (Carried(event) ==> CarriedInput(buffered[0]))
      ensures !placement.AsideSet? ==> buffered == old(buffered) && (deferred.None? || deferred == Some(event))
      ensures old(InHand()) <= InHand() <= old(InHand()) + {event}
      ensures placement.Placed? && deferred.Some? ==> |assembler.Events()| < old(|assembler.Events()|)
      ensures old(Numbered()) ==> Numbered()
      ensures old(Numbered()) ==>
                if placement.AsideSet? then Committing() == old(Committing() + Assembled())
                else Committing() + Assembled() + SpansOfOption(deferred) == old(Through(event))
      ensures old(Safe(log) && Numbered() && InOrder(log, Through(event))) ==>
                Safe(log) && Numbered() && (disk.healthy ==> !placement.Blocked?)
      ensures HeldCount() + eventsPublished == old(HeldCount() + eventsPublished) + 1
      ensures !BatchAssembler.EventOk(event) ==> !placement.Placed?
    {
      hide BatchAssembler.EventOk;
      hide Sound, Ready, InOrder, Wired, BatchAssembler.Assembler.Valid, BoundedEventQueue.Queue.Valid, Issued, Unused,
        Outstanding, RejectEvent, Numbered, Safe, SpansOfEvents, Carried, CarriedInput, BatchAssembler.Representable;
      ghost var before, through := Committing() + Assembled(), Through(event);
      if InOrder(log, through) {
        InOrderPrefix(log, before, [SpanOf(event)]);
      }
      ghost var assembled := assembler.Events();
      var result := AddToBatch(event, now);
      SpansOfMore(assembled, event);
      assert Committing() + Assembled() == if result.Accepted? then through else before;
      placement := Settle(event, result, log);
      assert SpansOfEvents([]) == [];
    }

    lemma RefusalOf(event: ContractEvent)
      requires buffered != [] && !BatchAssembler.Representable(event, MAXIMUM_BATCH_BYTES)
      requires SpanOfInput(buffered[0]) == SpanOf(event) && (Carried(event) ==> CarriedInput(buffered[0]))
      ensures Refusal(event, buffered[0])
    {
    }

    lemma SpansOfMore(events: seq<ContractEvent>, event: ContractEvent)
      ensures SpansOfEvents(events + [event]) == SpansOfEvents(events) + [SpanOf(event)]
    {
    }

    /** Draining the queue now would overtake the refused event at the front of the buffer. */
    ghost predicate Jumps()
      reads this`ahead, this`buffered, queue
    {
      ahead && buffered != [] && Mentions(SpansOfEvents(queue.Contents()), SpanOfInput(buffered[0]).source)
    }

    /** The next event to take is one that no batch can hold. */
    ghost predicate RefusedFirst()
      reads this`deferred, queue
    {
      deferred.None? && queue.Contents() != [] && !BatchAssembler.EventOk(queue.Contents()[0])
    }

    /** Those of these events that are not in hand are ones that batches take. */
    ghost predicate HeldOrOk(events: set<ContractEvent>)
      reads this`deferred, queue
    {
      forall e | e in events :: e in InHand() || BatchAssembler.EventOk(e)
    }

    ghost predicate BatchesTake(events: set<ContractEvent>) {
      forall e | e in events :: BatchAssembler.EventOk(e)
    }

    lemma NoneLeft(events: set<ContractEvent>)
      ensures Waiting() == 0 && HeldOrOk(events) ==> BatchesTake(events)
    {
      hide BatchAssembler.EventOk;
    }

    /** The first of these queued events is now at the front of the buffer. */
    ghost predicate FirstSetAside(events: seq<ContractEvent>)
      reads this`buffered, queue
    {
      && events != [] && queue.Contents() == events[1..]
      && buffered != [] && SpanOfInput(buffered[0]) == SpanOf(events[0])
    }

    function Waiting(): nat
      reads this`deferred, queue
    {
      DeferredCount() + |queue.Contents()|
    }

    /** What the invariant asks of the stages up to the queue. */
    ghost predicate Flowing(log: Log)
      reads this`deferred, this`pendingBatch, this`pendingRejection, disk, queue, assembler, identifiers
    {
      Safe(log) && Numbered() && InOrder(log, Staged())
    }

    /** One turn of the drain loop; None when there is nothing left to take. */
    method DrainTurn(now: int, ghost log: Log) returns (turn: Option<Placement>)
      requires Valid() && Pending().None? && !ahead
      modifies this`buffered, this`deferred, this`pendingBatch, this`pendingRejection, this`eventsPublished, this`ahead
      modifies queue`entries, queue`usage, queue`bytes, assembler, identifiers
      modifies disk`files, disk`temporaries, disk`twins, disk`rewritten, disk`visible, disk`committed, disk`landed
      ensures Valid()
      ensures turn == Some(Blocked) <==> Pending().Some?
      ensures ahead <==> turn == Some(AsideSet)
      ensures ahead ==> SetAsideFrom(old(buffered)) && AsideOf(old(InHand()))
      ensures !ahead ==> buffered == old(buffered)
      ensures InHand() <= old(InHand())
      ensures turn.None? || turn == Some(Placed) ==> HeldOrOk(old(InHand()))
      ensures old(Numbered()) ==> Numbered() && Flow() == old(Staged())
      ensures old(Flowing(log)) ==> Safe(log) && (disk.healthy ==> turn != Some(Blocked))
      ensures turn.None? ==> Waiting() == 0
      ensures old(Waiting()) == 0 ==> turn.None? && assembler.batch == old(assembler.batch)
      ensures turn == Some(Placed) ==>
                Waiting() < old(Waiting())
                || (Waiting() == old(Waiting()) && |assembler.Events()| < old(|assembler.Events()|))
      ensures Waiting() <= old(Waiting()) && (ahead ==> Waiting() < old(Waiting()))
      ensures HeldCount() + eventsPublished == old(HeldCount() + eventsPublished)
      ensures old(RefusedFirst()) ==>
                turn.Some? && turn != Some(Placed)
                && (ahead ==> FirstSetAside(old(queue.Contents())))
    {
      hide Committing, Assembled, SpansOfInputs, InputsCarried, PendingCount, HeldCount, StoredCount, AllCarried;
      hide BatchAssembler.EventOk;
      hide BoundedEventQueue.Queue.Contents, BatchAssembler.Assembler.Events, SpanOf, SpanOfInput, CheckpointMarks;
      hide Sound, Ready, InOrder, Wired, Assembling, BoundedEventQueue.Queue.Valid, Numbered, Safe, Outstanding,
        SpansOfEvents, BatchAssembler.Representable, Carried, CarriedInput, RejectEvent, Enveloped, InHand, Refusal;
      ghost var before, later := Committing() + Assembled(), SpansOfEvents(queue.Contents());
      ghost var first := SpansOfOption(deferred);
      var taken := TakeEvent();
      if taken.None? {
        return None;
      }
      var event := taken.value;
      Regroup(before, first, later, [SpanOf(event)], SpansOfEvents(queue.Contents()));
      if old(Flowing(log)) {
        InOrderPrefix(log, Through(event), SpansOfEvents(queue.Contents()));
      }
      var placement := PlaceEvent(event, now, log);
      if placement.AsideSet? {
        RefusalOf(event);
      }
      return Some(placement);
    }

    /**
     * The loop of drain_queue: events go into batches until the queue is empty, a publication fails, or one is refused.
     */
    method DrainLoop(now: int, ghost log: Log) returns (ok: bool)
      requires Valid() && Pending().None? && !ahead
      modifies this`buffered, this`deferred, this`pendingBatch, this`pendingRejection, this`eventsPublished
      modifies this`ahead
      modifies queue`entries, queue`usage, queue`bytes, assembler, identifiers
      modifies disk`files, disk`temporaries, disk`twins, disk`rewritten, disk`visible, disk`committed, disk`landed
      ensures Valid()
      ensures ok <==> Pending().None?
      ensures ahead ==> ok && SetAsideFrom(old(buffered)) && AsideOf(old(InHand()))
      ensures !ahead ==> buffered == old(buffered) && (ok ==> Waiting() == 0)
      ensures InHand() <= old(InHand())
      ensures ok && !ahead ==> BatchesTake(old(InHand()))
      ensures old(Numbered()) ==> Numbered() && Flow() == old(Staged())
      ensures old(Flowing(log)) ==> Safe(log) && (disk.healthy ==> ok)
      ensures Waiting() <= old(Waiting()) && (ok && old(Waiting()) > 0 ==> Waiting() < old(Waiting()))
      ensures ahead ==> Waiting() < old(Waiting())
      ensures old(Waiting()) == 0 ==> ok && assembler.batch == old(assembler.batch)
      ensures HeldCount() + eventsPublished == old(HeldCount() + eventsPublished)
      ensures old(RefusedFirst()) ==>
                (ok ==> ahead)
                && (ahead ==> FirstSetAside(old(queue.Contents())))
    {
      hide BatchAssembler.EventOk;
      hide BoundedEventQueue.Queue.Contents, BatchAssembler.Assembler.Events, SpanOf, SpanOfInput, CheckpointMarks;
      hide Sound, Ready, InOrder, Wired, Assembling, BoundedEventQueue.Queue.Valid, Numbered, Safe, Outstanding,
        SpansOfEvents, BatchAssembler.Representable, Carried, CarriedInput, RejectEvent, Enveloped, InHand, Refusal;
      ghost var flowing := old(Flowing(log));
      while true
        invariant Valid() && !ahead && Pending().None? && buffered == old(buffered)
        invariant old(RefusedFirst()) ==>
                    deferred.None? && queue.Contents() == old(queue.Contents())
        invariant InHand() <= old(InHand()) && HeldOrOk(old(InHand()))
        invariant old(Numbered()) ==> Numbered() && Staged() == old(Staged())
        invariant flowing ==> Safe(log)
        invariant Waiting() <= old(Waiting())
        invariant old(Waiting()) == 0 ==> assembler.batch == old(assembler.batch)
        invariant HeldCount() + eventsPublished == old(HeldCount() + eventsPublished)
        decreases Waiting(), |assembler.Events()|
      {
        var turn := DrainTurn(now, log);
        assert turn.Some? ==> turn.value.Placed? || turn.value.Blocked? || turn.value.AsideSet?;
        NoneLeft(old(InHand()));
        if turn != Some(Placed) {
          return turn != Some(Blocked);
        }
      }
    }

    // ---------------------------------------------------------------- order over all the holding places

    /** The invariant of the running pipeline. */
    ghost predicate Good(log: Log)
      reads this`ahead, this`buffered, this`deferred, this`pendingBatch, this`pendingRejection, disk, queue, assembler
      reads identifiers
    {
      && Safe(log) && Numbered() && InOrder(log, Ledger())
      && AllCarried() && InputsCarried()
    }

    /** A refused event is about to be overtaken, with nothing else in the way. */
    ghost predicate Hopeless(log: Log)
      reads this`ahead, this`buffered, this`deferred, this`pendingBatch, this`pendingRejection, disk, queue, assembler
      reads identifiers
    {
      Good(log) && Pending().None? && Jumps() && AllRepresentable() && disk.healthy
    }

    /** The log without the refused event at the front of the buffer. */
    ghost function Lane(log: Log): Log
      reads this`buffered, disk
    {
      if buffered == [] then log
      else
        var s := SpanOfInput(buffered[0]).source;
        var k := |Of(disk.committed, s)|;
        if s in log && k < |log[s]| then Without(log, s, k) else log
    }

    /** Without the refused event, everything up to the queue may be published. */
    lemma LaneFlows(log: Log)
      requires Valid() && Hopeless(log)
      ensures Staged() == disk.committed + SpansOfEvents(queue.Contents())
      ensures Sound(collectorId, Lane(log), disk.View(), None) && InOrder(Lane(log), Staged())
    {
      hide Of, InOrder, Ordered, SpansOfEvents, SpansOfInputs, Sound, Without, Assembling,
        BoundedEventQueue.Queue.Valid, Wired;
      NothingAssembled();
      var next, queued := SpanOfInput(buffered[0]), SpansOfEvents(queue.Contents());
      assert Ledger() == disk.committed + [next] + queued + Rest();
      InOrderPrefix(log, disk.committed + [next] + queued, Rest());
      SoundIsOrdered(log);
      WithoutIsInOrder(log, disk.committed, next, queued);
      SoundOtherwise(collectorId, log, Lane(log), disk.View());
    }

    lemma SoundIsOrdered(log: Log)
      requires Sound(collectorId, log, disk.View(), None)
      ensures Ordered(log)
    {
    }

    /** Forgetting that the refused event is ahead of the queue moves it behind the queue. */
    lemma FallsBehind()
      requires Valid() && ahead
      ensures Flow() + Rest() == Ledger()
      ensures !Jumps() ==> SameRecords(Ledger(), Staged() + SpansOfInputs(buffered))
    {
      hide *;
      WaitingApart();
      LedgerIs();
      var before, passed, after := Committing(), SpansOfEvents(queue.Contents()), SpansOfInputs(buffered[1..]);
      var front := SpanOfInput(buffered[0]);
      assert before + passed + [front] + after == before + passed + ([front] + after);
      if !Jumps() {
        MoveBehind(before, front, passed, after);
      }
    }

    lemma LedgerIs()
      ensures Ledger() == Flow() + Rest()
      ensures !ahead ==> Flow() == Staged() && Rest() == SpansOfInputs(buffered)
    {
      hide Staged, SpansOfInputs, SpansOfEvents, Committing;
    }

    lemma NothingWithAhead()
      ensures Valid() && ahead ==> assembler.batch.None? && Pending().None?
    {
      hide Wired, Assembling, BoundedEventQueue.Queue.Valid;
    }

    lemma NothingAssembled()
      ensures assembler.batch.None? ==> Assembled() == []
    {
    }

    /** A refused event that waits at the front stands between what is committed and what is queued. */
    lemma WaitingApart()
      requires Valid()
      ensures ahead ==>
                && buffered != [] && Staged() == Committing() + SpansOfEvents(queue.Contents())
                && Ledger() == Committing() + [SpanOfInput(buffered[0])] + SpansOfEvents(queue.Contents())
                    + SpansOfInputs(buffered[1..])
                && SpansOfInputs(buffered) == [SpanOfInput(buffered[0])] + SpansOfInputs(buffered[1..])
      ensures Jumps() <==>
                ahead && buffered != [] && Mentions(SpansOfEvents(queue.Contents()), SpanOfInput(buffered[0]).source)
    {
      hide Mentions, SpansOfEvents, Committing, SpanOfInput, Wired, Assembling, BoundedEventQueue.Queue.Valid;
      NothingAssembled();
    }

    /** Forgetting it while a later event of its source is queued breaks the order. */
    lemma FallsOutOfOrder(log: Log)
      requires Valid() && Ordered(log) && InOrder(log, Ledger()) && Jumps()
      ensures !InOrder(log, Staged() + SpansOfInputs(buffered))
    {
      hide *;
      WaitingApart();
      var before, passed, after := Committing(), SpansOfEvents(queue.Contents()), SpansOfInputs(buffered[1..]);
      var front := SpanOfInput(buffered[0]);
      assert before + passed + [front] + after == before + passed + ([front] + after);
      JumpBreaksOrder(log, before, front, passed, after);
    }

    lemma GoodIsOrdered(log: Log)
      ensures Good(log) ==> Ordered(log)
    {
      hide InOrder, Ordered, AllCarried, InputsCarried, Ledger;
    }

    /** Nothing was overtaken, what is held is in order and came from the files, and they hold nothing to overtake. */
    ghost predicate Steady(log: Log, files: Files)
      reads this`ahead, this`inverted, this`buffered, this`deferred, this`pendingBatch, this`pendingRejection, disk
      reads queue, assembler, identifiers
    {
      !inverted && Good(log) && AllTraced(files) && log == LogOf(files) && NothingToOvertake(library, files)
    }

    lemma SteadyKeepsOrder(log: Log, files: Files)
      ensures Valid() && Steady(log, files) ==> !Jumps()
    {
      hide Wired, Assembling, BoundedEventQueue.Queue.Valid, InOrder, SpansOfEvents, Mentions, NothingToOvertake,
        RefusedAt, Springs, Safe, Numbered, AllCarried, InputsCarried, Committing, LogOf;
      if Valid() && Steady(log, files) && ahead {
        assert forall e | e in queue.Contents() :: e in InHand();
        NoJump(library, files, Committing(), SpanOfInput(buffered[0]), queue.Contents(), Rest());
      }
    }

    /** Entering drain_queue while a refused event waits puts that event behind the queue. */
    ghost method EnterDrain(log: Log)
      requires Valid() && Pending().None?
      modifies this`ahead, this`inverted
      ensures Valid() && !ahead && inverted == (old(inverted) || old(Jumps()))
      ensures Ledger() == Staged() + SpansOfInputs(buffered)
      ensures old(Jumps()) || SameRecords(old(Ledger()), Ledger())
      ensures old(Good(log)) ==> (if old(Jumps()) then !InOrder(log, Ledger()) else Good(log))
      ensures Staged() == old(Staged()) && (old(Hopeless(log)) ==> Flowing(old(Lane(log))))
    {
      hide *;
      ValidIs();
      GoodIs(log);
      GoodIsOrdered(log);
      NotAheadIs();
      LedgerIs();
      if ahead {
        FallsBehind();
      }
      if Good(log) && Jumps() {
        FallsOutOfOrder(log);
      }
      if Hopeless(log) {
        LaneFlows(log);
      }
      FlowingIs(Lane(log));
      WaitsInFront(log);
      inverted := inverted || Jumps();
      ahead := false;
      ValidIs();
      GoodIs(log);
      LedgerIs();
      FlowingIs(old(Lane(log)));
      if !old(Jumps()) {
        Unmoved(Ledger());
        if old(InOrder(log, Ledger())) {
          SameInOrder(log, old(Ledger()), Ledger());
        }
      }
    }

    lemma FlowingIs(log: Log)
      ensures Flowing(log) <==> Safe(log) && Numbered() && InOrder(log, Staged())
      ensures Pending().None? ==> (Safe(log) <==> Sound(collectorId, log, disk.View(), None))
    {
      hide Sound, Ready, Numbered, InOrder, Staged;
    }

    lemma RejectedSprings(files: Files, input: PendingInput)
      ensures input.RejectedInput? ==> Springs(library, files, input) && Clears(input) && Smooth(input)
    {
    }

    /** What was set aside is a record that batches refuse. */
    lemma SetAsideIsRefused(files: Files, events: set<ContractEvent>)
      requires (forall e | e in events :: Springs(library, files, MappedInput(e))) && AsideOf(events)
      ensures RefusedAt(library, files, SpanOfInput(buffered[0]))
    {
      hide BatchAssembler.Representable, Carried, CarriedInput, RefusedAt, MappedAt, Springs, SpanOfInput, SpanOf;
      var e :| e in events && Refusal(e, buffered[0]);
      MapsAt(library, files, e);
    }

    /** What was set aside came from where the events in hand came from. */
    lemma AsideIsTraced(files: Files, inputs: seq<PendingInput>, events: set<ContractEvent>)
      requires (forall e | e in events :: Springs(library, files, MappedInput(e))) && InHand() <= events
      requires forall x | x in inputs :: Springs(library, files, x)
      requires if ahead then SetAsideFrom(inputs) && AsideOf(events) else buffered == inputs
      ensures AllTraced(files)
    {
      hide BatchAssembler.Representable, Carried, CarriedInput, RefusedAt, MappedAt, InHand, Springs, SpanOfInput,
        SpanOf;
      if ahead {
        assert buffered == [buffered[0]] + inputs;
        forall x | x in buffered ensures Springs(library, files, x) {
          RejectedSprings(files, x);
        }
        SetAsideIsRefused(files, events);
      }
    }

    lemma AllRepresentableIs()
      ensures AllRepresentable() <==>
                forall e | e in InHand() :: BatchAssembler.Representable(e, MAXIMUM_BATCH_BYTES)
    {
      hide InHand, BatchAssembler.Representable;
    }

    lemma NoneAside(events: set<ContractEvent>)
      requires forall e | e in events :: BatchAssembler.Representable(e, MAXIMUM_BATCH_BYTES)
      ensures !AsideOf(events)
    {
      hide BatchAssembler.Representable, Carried, CarriedInput, SpanOfInput;
    }

    /** What was set aside is as publishable as the events in hand were. */
    lemma AsideIsCarried(inputs: seq<PendingInput>, events: set<ContractEvent>)
      requires (forall e | e in events :: Carried(e)) && InHand() <= events
      requires forall x | x in inputs :: CarriedInput(x)
      requires if ahead then SetAsideFrom(inputs) && AsideOf(events) else buffered == inputs
      ensures AllCarried() && InputsCarried()
    {
      hide BatchAssembler.Representable, Carried, CarriedInput, InHand, SpanOfInput;
      if ahead {
        assert buffered == [buffered[0]] + inputs;
        var e :| e in events && Refusal(e, buffered[0]);
      }
    }

    /**
     * drain_queue. Entering it while a refused event waits, and a later one of its source is queued, is the one way
     * in which the order of a source's records is lost, and it always loses it.
     */
    method DrainQueue(now: int, ghost log: Log, ghost files: Files) returns (ok: bool)
      requires Valid() && Pending().None?
      modifies this`buffered, this`deferred, this`pendingBatch, this`pendingRejection, this`eventsPublished
      modifies this`ahead, this`inverted
      modifies queue`entries, queue`usage, queue`bytes, assembler, identifiers
      modifies disk`files, disk`temporaries, disk`twins, disk`rewritten, disk`visible, disk`committed, disk`landed
      ensures Valid()
      ensures ok <==> Pending().None?
      ensures inverted == (old(inverted) || old(Jumps()))
      ensures old(Good(log)) ==> (InOrder(log, Ledger()) <==> !old(Jumps()))
      ensures old(AllTraced(files)) ==> AllTraced(files)
      ensures old(Steady(log, files)) ==> Steady(log, files)
      ensures ahead ==> ok && SetAsideFrom(old(buffered))
      ensures !ahead ==> buffered == old(buffered) && (ok ==> Waiting() == 0)
      ensures Waiting() <= old(Waiting()) && (ok && old(Waiting()) > 0 ==> Waiting() < old(Waiting()))
      ensures ahead ==> Waiting() < old(Waiting())
      ensures old(Waiting()) == 0 ==> ok && assembler.batch == old(assembler.batch)
      ensures old(Numbered()) ==> Numbered() && (old(Jumps()) || SameRecords(old(Ledger()), Ledger()))
      ensures old(Good(log)) && !old(Jumps()) ==> Good(log) && (disk.healthy ==> ok)
      ensures HeldCount() + eventsPublished == old(HeldCount() + eventsPublished)
      ensures ok && !ahead ==> BatchesTake(old(InHand()))
      ensures old(AllRepresentable()) ==> !ahead && AllRepresentable()
      ensures old(Hopeless(log)) ==> ok && !ahead && Flowing(old(Lane(log))) && Staged() == old(Staged())
      ensures old(RefusedFirst()) ==>
                (ok ==> ahead)
                && (ahead ==> FirstSetAside(old(queue.Contents())))
    {
      hide BatchAssembler.EventOk;
      hide Sound, Ready, Of, InOrder, Wired, Assembling, BoundedEventQueue.Queue.Valid,
        BoundedEventQueue.Queue.Contents, BatchAssembler.Assembler.Events, Numbered, Safe, Outstanding, SpansOfEvents,
        Carried, CarriedInput, Mentions, Committing, Staged, SameRecords, SpanOfInput, Jumps, Lane, AllRepresentable,
        BatchAssembler.Representable, Springs, RefusedAt, NothingToOvertake, LogOf, AsideOf, InHand, HeldCount,
        FirstSetAside, RefusedFirst, Hopeless, BatchesTake;
      WaitsInFront(log);
      AllRepresentableIs();
      ghost var lane := if Hopeless(log) then Lane(log) else log;
      SteadyKeepsOrder(log, files);
      EnterDrain(log);
      GoodFlows(log);
      ghost var entered, inputs := Staged(), SpansOfInputs(buffered);
      ok := DrainLoop(now, lane);
      assert Rest() == inputs;
      AllRepresentableIs();
      if old(AllRepresentable()) {
        NoneAside(old(InHand()));
      }
      if old(AllTraced(files)) {
        AsideIsTraced(files, old(buffered), old(InHand()));
      }
      if old(AllCarried() && InputsCarried()) {
        AsideIsCarried(old(buffered), old(InHand()));
      }
    }

    lemma PublishesFirst(log: Log)
      requires Valid()
      ensures ahead ==> Assembled() == []
      ensures Ledger() == Committing() + Assembled() + Later()
      ensures InOrder(log, Ledger()) ==> InOrder(log, Committing() + Assembled())
    {
      hide InOrder, SpansOfEvents, SpansOfInputs, SpanOfInput, Committing;
      var before, queued, rest := Committing() + Assembled(), SpansOfEvents(queue.Contents()), Rest();
      if ahead {
        NothingAssembled();
        assert before == Committing();
        Associates(before, [SpanOfInput(buffered[0])], queued, rest);
      } else {
        Associates(before, SpansOfOption(deferred), queued, rest);
      }
      if InOrder(log, Ledger()) {
        InOrderPrefix(log, before, Later());
      }
    }

    /** What comes after the batch under construction. */
    ghost function Later(): seq<Span>
      reads this`ahead, this`buffered, this`deferred, queue
    {
      (if ahead && buffered != [] then [SpanOfInput(buffered[0])] else SpansOfOption(deferred))
      + SpansOfEvents(queue.Contents()) + Rest()
    }

    /** flush_batch keeps every record in its place. */
    method FlushInOrder(ghost log: Log) returns (ok: bool)
      requires Valid()
      modifies this`pendingBatch, this`pendingRejection, this`eventsPublished
      modifies assembler`batch, assembler`emptyBytes, assembler`encodedBytes
      modifies disk`files, disk`temporaries, disk`twins, disk`rewritten, disk`visible, disk`committed, disk`landed
      ensures Valid() && assembler.batch.None?
      ensures ok <==> Pending().None?
      ensures old(Numbered()) ==> Numbered() && Ledger() == old(Ledger())
      ensures old(Good(log)) ==> Good(log) && (disk.healthy && old(Retryable()) ==> ok)
      ensures old(Publishing(log)) ==> Safe(log) && Numbered() && (disk.healthy && old(Retryable()) ==> ok)
      ensures old(Numbered()) ==> Staged() == old(Staged())
      ensures HeldCount() + eventsPublished == old(HeldCount() + eventsPublished)
      ensures old(Pending().None? && assembler.batch.None?) ==> disk.View() == old(disk.View()) && ok
    {
      hide Sound, Ready, Of, InOrder, Wired, Assembling, BoundedEventQueue.Queue.Valid,
        BoundedEventQueue.Queue.Contents, BatchAssembler.Assembler.Events, Numbered, Safe, Outstanding, SpansOfEvents,
        AllCarried, CarriedInput, SpanOfInput, Later, Ledger, Committing, Assembled;
      PublishesFirst(log);
      ok := FlushBatch(log);
      PublishesFirst(log);
    }

    lemma FlowingPublishes(log: Log)
      ensures Flowing(log) ==> Publishing(log) && Numbered()
    {
      hide Safe, Numbered, InOrder, SpansOfEvents;
      var before, after := Committing() + Assembled(), SpansOfOption(deferred) + SpansOfEvents(queue.Contents());
      assert Staged() == before + after;
      if Flowing(log) {
        InOrderPrefix(log, before, after);
      }
    }

    /** What holds of everything read holds of what is queued and before. */
    lemma GoodFlows(log: Log)
      requires Valid()
      ensures Good(log) && !ahead ==> Flowing(log)
    {
      hide Safe, Numbered, InOrder, SpansOfEvents, Committing, Assembled, AllCarried, InputsCarried;
      if Good(log) && !ahead {
        InOrderPrefix(log, Staged(), Rest());
      }
    }

    lemma AllCommitted(log: Log)
      requires Pending().None? && assembler.batch.None? && Waiting() == 0
      ensures Staged() == disk.committed
      ensures Safe(log) <==> Sound(collectorId, log, disk.View(), None)
    {
      NothingAssembled();
      assert SpansOfEvents(queue.Contents()) == [];
    }

    lemma WaitsInFront(log: Log)
      ensures Hopeless(log) ==>
                Good(log) && Pending().None? && buffered != [] && disk.healthy && Jumps() && AllRepresentable()
    {
      hide Good, AllRepresentable, Mentions;
    }

    /** drain_queue(now) && flush_batch(now) */
    method DrainAndFlush(now: int, ghost log: Log, ghost files: Files) returns (ok: bool)
      requires Valid() && Pending().None?
      modifies this`buffered, this`deferred, this`pendingBatch, this`pendingRejection, this`eventsPublished
      modifies this`ahead, this`inverted
      modifies queue`entries, queue`usage, queue`bytes, assembler, identifiers
      modifies disk`files, disk`temporaries, disk`twins, disk`rewritten, disk`visible, disk`committed, disk`landed
      ensures Valid()
      ensures ok <==> Pending().None?
      ensures ok ==> assembler.batch.None?
      ensures inverted == (old(inverted) || old(Jumps()))
      ensures old(AllTraced(files)) ==> AllTraced(files)
      ensures ahead ==> ok && SetAsideFrom(old(buffered))
      ensures !ahead ==> buffered == old(buffered) && (ok ==> Waiting() == 0)
      ensures Waiting() <= old(Waiting()) && (ok && old(Waiting()) > 0 ==> Waiting() < old(Waiting()))
      ensures ahead ==> Waiting() < old(Waiting())
      ensures ok ==> Work() <= old(Work()) && (old(Waiting()) > 0 ==> Work() < old(Work()))
      ensures old(Steady(log, files)) ==> Steady(log, files)
      ensures old(Waiting()) == 0 ==> (old(assembler.batch).None? ==> ok)
      ensures old(Numbered()) ==> Numbered() && (old(Jumps()) || SameRecords(old(Ledger()), Ledger()))
      ensures old(Good(log)) && !old(Jumps()) ==> Good(log) && (disk.healthy ==> ok)
      ensures HeldCount() + eventsPublished == old(HeldCount() + eventsPublished)
      ensures old(AllRepresentable()) ==> !ahead && AllRepresentable()
      ensures old(Hopeless(log)) ==>
                ok && !ahead && Sound(collectorId, old(Lane(log)), disk.View(), None) && disk.committed == old(Staged())
    {
      hide *;
      ghost var hopeless, lane := Hopeless(log), Lane(log);
      WaitsInFront(log);
      SteadyIs(log, files);
      WorkOfMore(buffered);
      var drained := DrainQueue(now, log, files);
      if !drained {
        return false;
      }
      WorkOfMore(old(buffered));
      if hopeless {
        FlowingPublishes(lane);
      }
      SteadyIs(log, files);
      NotPendingIsRetryable();
      NothingWithAhead();
      ok := FlushInOrder(if hopeless then lane else log);
      if hopeless {
        AllCommitted(lane);
      }
      SteadyIs(log, files);
    }

    // ---------------------------------------------------------------- the buffer

    /** A publishable rejection becomes a document that may be published next. */
    lemma RejectionIsReady(log: Log, id: Id, at: Timestamp, rejection: InputRejection, signature: Text)
      requires Wired() && Sound(collectorId, log, disk.View(), None)
      requires Publishable(rejection) && at.Rfc3339? && IsSignature(signature)
      requires Unused(id, disk.View()) && InOrder(log, disk.committed + [rejection.source])
      ensures var document := DocumentOf(id, collectorId, at, rejection, rejection.payloadSha256)
                              .(integrity := Integrity(signer.keyId, Some(signature)));
              Ready(collectorId, log, disk.View(), RejectionDocument(document))
    {
      hide Sound, InOrder, Unused, IsSignature, Publishable, ValidRejection, Lawful, MatchesIdentifier;
      PublishableIsValid(id, collectorId, at, rejection, Integrity(signer.keyId, Some(signature)));
      var document := DocumentOf(id, collectorId, at, rejection, rejection.payloadSha256)
                      .(integrity := Integrity(signer.keyId, Some(signature)));
      NewIsReady(collectorId, log, disk.View(), RejectionDocument(document));
    }

    lemma NextIsUnused()
      ensures Issued(identifiers.next, disk.View()) ==> Unused(identifiers.next, disk.View())
    {
    }

    /** What publish_rejection builds and signs. */
    method SignedRejection(rejection: InputRejection, ghost log: Log) returns (result: Result<RejectedEvent>)
      requires Valid() && Pending().None? && assembler.batch.None?
      modifies identifiers
      ensures result.Failure? ==> result.error == MissingDigest || result.error == ContractError
      ensures Publishable(rejection) ==> result.Success?
      ensures result.Success? ==>
                && result.value.source == rejection.source && result.value.collectorId == collectorId
                && result.value.rejectionId == old(identifiers.next) < identifiers.next
      ensures result.Success? ==>
                var sha256 := if rejection.payloadSha256 == [] then library.sha256Hex(rejection.capture)
                              else rejection.payloadSha256;
                result.value == DocumentOf(old(identifiers.next), collectorId, result.value.rejectedAt, rejection,
                    sha256)
                                .(integrity := result.value.integrity)
      ensures old(Numbered()) ==> Numbered() && (result.Success? ==> Unused(result.value.rejectionId, disk.View()))
      ensures Publishable(rejection) ==> Acceptable(collectorId, RejectionDocument(result.value))
      ensures Publishable(rejection)
              && old(Numbered() && Safe(log) && InOrder(log, disk.committed + [rejection.source])) ==>
                Ready(collectorId, log, disk.View(), RejectionDocument(result.value))
    {
      hide Sound, InOrder, Unused, IsSignature, ValidRejection, ValidUnsigned, Lawful, MatchesIdentifier, Named,
        RejectionJson, Signer.SignatureOf, Ready, BoundedEventQueue.Queue.Valid, Assembling,
        CanonicalJson.Canonicalizable;
      if rejection.payloadSha256 == [] && rejection.captureTruncated {
        return Failure(MissingDigest);
      }
      var payloadSha256 := if rejection.payloadSha256 == [] then library.sha256Hex(rejection.capture)
                           else rejection.payloadSha256;
      NextIsUnused();
      var id := identifiers.NextUuid();
      var at := Now();
      var document := DocumentOf(id, collectorId, at, rejection, payloadSha256);
      if Publishable(rejection) {
        PublishableIsValid(id, collectorId, at, rejection, Integrity(signer.keyId, None));
        PublishableIsCanonicalizable(id, collectorId, at, rejection, signer.keyId);
      }
      result := signer.SignRejection(document);
      if Publishable(rejection) && result.Success? {
        ghost var signature := result.value.integrity.value.value;
        PublishableIsValid(id, collectorId, at, rejection, Integrity(signer.keyId, Some(signature)));
        if old(Numbered() && Safe(log) && InOrder(log, disk.committed + [rejection.source])) {
          RejectionIsReady(log, id, at, rejection, signature);
        }
      }
    }

    /** The rejection waits on the disk, alone, and the checkpoint has overtaken it. */
    ghost predicate DoomedOnDisk()
      reads this`pendingBatch, this`pendingRejection, disk
    {
      && Doomed() && RejectedEventPublisher.OnlyPending(disk.files, pendingRejection.value)
      && OutboxPublisher.SealedPaths(disk.files) == {}
    }

    /**
     * The overtaken rejection that waits on the disk is of the record at this place, its audit record is visible, and
     * still no record is visible in two documents.
     */
    ghost predicate DoomedAt(span: Span)
      reads this`pendingBatch, this`pendingRejection, disk
    {
      && DoomedOnDisk() && pendingRejection.value.source == span
      && RejectionDocument(pendingRejection.value) in disk.visible && VisibleOnce(disk.View())
    }

    /** Every record is visible in one document at most, and the one at this place in none. */
    ghost predicate Uncarried(span: Span)
      reads disk
    {
      VisibleOnce(disk.View()) && forall x | x in disk.visible :: !Carries(x, span)
    }

    /** The audit records on the disk bear identifiers that were handed out. */
    ghost predicate RecordsIssued()
      reads disk, identifiers
    {
      forall p: Path | p in disk.files && p.RecordPath? :: p.id < identifiers.next
    }

    /** The place of the record at the front of the buffer. */
    ghost function FrontSpan(): Span
      reads this`buffered
    {
      if buffered == [] then Span([], [], 0, 0) else SpanOfInput(buffered[0])
    }

    /** The front of the buffer has been overtaken, and nothing is held on a disk that works. */
    ghost predicate Overtaken()
      reads this`buffered, disk, identifiers
    {
      && buffered != [] && Behind(FrontSpan()) && CarriedInput(buffered[0]) && disk.healthy
      && Uncarried(FrontSpan()) && RecordsIssued()
      && forall p: Path | p in disk.files :: !IsHold(p)
    }

    lemma OvertakenIs()
      ensures Overtaken() <==>
                && buffered != [] && Behind(FrontSpan()) && CarriedInput(buffered[0]) && disk.healthy
                && Uncarried(FrontSpan()) && RecordsIssued()
                && forall p: Path | p in disk.files :: !IsHold(p)
    {
      hide Behind, FrontSpan, CarriedInput, Uncarried, RecordsIssued;
    }

    lemma DoomedIs(span: Span)
      ensures DoomedAt(span) <==>
                && DoomedOnDisk() && pendingRejection.value.source == span
                && RejectionDocument(pendingRejection.value) in disk.visible && VisibleOnce(disk.View())
      ensures buffered != [] ==> FrontSpan() == SpanOfInput(buffered[0])
    {
      hide RejectedEventPublisher.OnlyPending, Behind, SpanOfInput, VisibleOnce;
    }

    lemma HeldAlone(before: Durable, rejection: RejectedEvent)
      requires RejectedEventPublisher.StuckHolding(before, disk.View(), rejection)
      requires (forall p: Path | p in before.files :: !IsHold(p)) && PendingPath(rejection.rejectionId) in disk.files
      ensures RejectedEventPublisher.OnlyPending(disk.files, rejection) && OutboxPublisher.SealedPaths(disk.files) == {}
    {
      var path := PendingPath(rejection.rejectionId);
      assert IsHold(path) && path !in before.files;
      var held := before.files[path := Whole(RejectionDocument(rejection))];
      assert path in held && held[path] == Whole(RejectionDocument(rejection));
      assert forall p: Path | IsHold(p) :: p in disk.files <==> p == path;
      assert RejectedEventPublisher.PendingPaths(disk.files) == {path};
    }

    /** The audit record becomes the one document that carries the record. */
    lemma AuditIsAlone(before: Durable)
      requires pendingRejection.Some? && VisibleOnce(before)
      requires forall x | x in before.visible :: !Carries(x, pendingRejection.value.source)
      requires disk.visible == before.visible + {RejectionDocument(pendingRejection.value)}
      ensures VisibleOnce(disk.View()) && RejectionDocument(pendingRejection.value) in disk.visible
    {
      assert SpansOf(RejectionDocument(pendingRejection.value)) == [pendingRejection.value.source];
    }

    lemma UncarriedIs(span: Span)
      ensures Uncarried(span) <==> VisibleOnce(disk.View()) && forall x | x in disk.visible :: !Carries(x, span)
      ensures disk.View().visible == disk.visible
    {
      hide VisibleOnce, Carries;
    }

    lemma NewIsFirstTry()
      requires pendingBatch.None? && pendingRejection.Some?
      requires Acceptable(collectorId, RejectionDocument(pendingRejection.value))
      requires forall p: Path | p in disk.files ::
                 !IsHold(p) && (p.RecordPath? ==> p.id < pendingRejection.value.rejectionId)
      ensures FirstTry()
    {
      hide Acceptable;
      assert IsHold(PendingPath(pendingRejection.value.rejectionId));
    }

    /** publish_rejection */
    method PublishRejection(rejection: InputRejection, ghost log: Log) returns (result: Result<bool>)
      requires Valid() && Pending().None? && assembler.batch.None? && !ahead
      modifies this`pendingBatch, this`pendingRejection, this`eventsPublished, this`eventsRejected, identifiers
      modifies disk`files, disk`temporaries, disk`twins, disk`rewritten, disk`visible, disk`committed, disk`landed
      ensures result.Failure? ==> result.error == MissingDigest || result.error == ContractError
      ensures Valid()
      ensures Publishable(rejection) ==> result.Success?
      ensures result.Failure? ==> Pending().None? && disk.View() == old(disk.View())
      ensures result.Success? ==>
                && (result.value <==> Pending().None?) && pendingBatch.None?
                && (!result.value ==> pendingRejection.Some? && pendingRejection.value.source == rejection.source)
                && eventsRejected == old(eventsRejected) + 1 && eventsPublished == old(eventsPublished)
      ensures old(Numbered()) ==>
                Numbered() && (result.Success? ==> Committing() == old(disk.committed) + [rejection.source])
      ensures Publishable(rejection)
              && old(Numbered() && Safe(log) && InOrder(log, disk.committed + [rejection.source])) ==>
                Safe(log) && (disk.healthy ==> result.value)
      ensures old(Behind(rejection.source)) && result.Success? ==>
                !result.value && Doomed() && disk.committed == old(disk.committed)
      ensures (&& old(Behind(rejection.source)) && Publishable(rejection) && disk.healthy
               && (forall p: Path | p in old(disk.files) :: !IsHold(p))) ==>
                && DoomedOnDisk()
                && (old(RecordsIssued()) ==>
                      disk.visible == old(disk.visible) + {RejectionDocument(pendingRejection.value)})
    {
      hide *;
      ValidIs();
      NumberedIs();
      SafeIs(log);
      ViewIs();
      RecordsIssuedIs();
      PendingNone();
      var signed := SignedRejection(rejection, log);
      if signed.Failure? {
        return Failure(signed.error);
      }
      var rejected := signed.value;
      UnusedIsNotLanded(rejected.rejectionId);
      NumberedIs();
      pendingRejection := Some(rejected);
      eventsRejected := eventsRejected + 1;
      ValidIs();
      NumberedIs();
      SafeIs(log);
      PendingIs(rejected);
      NotPendingIsRetryable();
      ghost var before, alone := disk.View(), forall p: Path | p in disk.files :: !IsHold(p);
      ghost var overtaken := Doomed();
      if alone && old(RecordsIssued()) && Publishable(rejection) {
        NewIsFirstTry();
      }
      var ok := RetryPendingPublication(log);
      ValidIs();
      ViewIs();
      PendingIs(rejected);
      if overtaken && alone && Publishable(rejection) && disk.healthy {
        HeldAlone(before, rejected);
      }
      StillBehind(before, rejected);
      return Success(ok);
    }

    lemma ValidIs()
      ensures Valid() <==>
                && Wired() && queue.Valid() && Assembling() && (pendingBatch.Some? ==> pendingRejection.None?)
                && (Pending().Some? ==> assembler.batch.None?)
                && (ahead ==>
                      && buffered != [] && buffered[0].RejectedInput?
                      && deferred.None? && assembler.batch.None? && Pending().None?)
      ensures Pending().None? <==> pendingBatch.None? && pendingRejection.None?
    {
      hide Wired, Assembling, BoundedEventQueue.Queue.Valid;
    }

    lemma NumberedIs()
      ensures assembler.batch.None? ==>
                (Numbered() <==>
                    && Issued(identifiers.next, disk.View())
                    && (Pending().Some? ==> IdOf(Pending().value) < identifiers.next))
    {
      hide Issued, Unused;
    }

    lemma SafeIs(log: Log)
      ensures Safe(log) <==>
                if Pending().Some? then Ready(collectorId, log, disk.View(), Pending().value)
                else Sound(collectorId, log, disk.View(), None)
    {
      hide Ready, Sound;
    }

    lemma PendingNone()
      ensures Pending().None? ==> Committing() == disk.committed
    {
    }

    lemma ViewIs()
      ensures disk.View() == Durable(disk.files, disk.visible, disk.committed, disk.landed)
    {
    }

    lemma RecordsIssuedIs()
      ensures RecordsIssued() <==> forall p: Path | p in disk.files && p.RecordPath? :: p.id < identifiers.next
    {
    }

    /** What it means that this rejection is pending. */
    lemma PendingIs(rejected: RejectedEvent)
      ensures Pending() == Some(RejectionDocument(rejected)) <==>
                pendingBatch.None? && pendingRejection == Some(rejected)
      ensures pendingBatch.None? && pendingRejection == Some(rejected) ==>
                && Pending() == Some(RejectionDocument(rejected)) && IdOf(Pending().value) == rejected.rejectionId
                && (Doomed() <==> Behind(rejected.source))
                && (rejected.rejectionId !in disk.landed ==> Committing() == disk.committed + [rejected.source])
                && (DoomedOnDisk() <==>
                      && Doomed() && RejectedEventPublisher.OnlyPending(disk.files, rejected)
                      && OutboxPublisher.SealedPaths(disk.files) == {})
    {
      hide AnyRegression, RejectedEventPublisher.OnlyPending;
      assert SpansOf(RejectionDocument(rejected)) == [rejected.source];
    }

    function Work(): nat
      reads this`buffered, this`deferred, queue
    {
      WeightOf(buffered) + 3 * Waiting()
    }

    /** No emptying of the queue is in vain for the event that the input is or maps to. */
    ghost predicate Clears(input: PendingInput) {
      EventOfInput(library, input).Some? ==> !queue.NeverFits(EventOfInput(library, input).value)
    }

    ghost predicate AllClear()
      reads this`buffered
    {
      forall x | x in buffered :: Clears(x)
    }

    /** Mapping the input does not fail, and the queue and every batch take the event that it is or maps to. */
    ghost predicate Smooth(input: PendingInput) {
      && (input.RawInput? ==> !Translated(library, input.raw).RawInput?)
      && (EventOfInput(library, input).Some? ==>
            && queue.AdmitsAlone(EventOfInput(library, input).value)
            && BatchAssembler.Representable(EventOfInput(library, input).value, MAXIMUM_BATCH_BYTES))
    }

    ghost predicate AllSmooth()
      reads this`buffered
    {
      forall x | x in buffered :: Smooth(x)
    }

    /** Nothing was overtaken or is about to be, and nothing that is held will be refused. */
    ghost predicate Untroubled(log: Log)
      reads this`ahead, this`inverted, this`buffered, this`deferred, this`pendingBatch, this`pendingRejection, disk
      reads queue, assembler, identifiers
    {
      Good(log) && !inverted && !Jumps() && AllRepresentable() && AllSmooth()
    }

    lemma UntroubledIs(log: Log)
      ensures Untroubled(log) <==> Good(log) && !inverted && !Jumps() && AllRepresentable() && AllSmooth()
      ensures Jumps() ==> ahead
    {
      hide Good, AllRepresentable, AllSmooth, Mentions;
    }

    lemma StillClear(inputs: seq<PendingInput>)
      requires forall x | x in inputs :: Clears(x)
      requires buffered == inputs || SetAsideFrom(inputs)
      ensures AllClear()
    {
      hide BaselineMapper.EventFrom, BoundedEventQueue.Queue.NeverFits;
      assert forall x | x in buffered :: x in inputs || x == buffered[0] by {
        assert forall x | x in buffered :: x == buffered[0] || x in buffered[1..];
      }
    }

    /** Everything outside the buffer and the queue. */
    ghost function Elsewhere(): (Option<ContractEvent>, Option<EventBatch>, bool, Option<Document>, Durable)
      reads this`deferred, this`inverted, this`pendingBatch, this`pendingRejection, assembler, disk
    {
      (deferred, assembler.batch, inverted, Pending(), disk.View())
    }

    /** Every buffered input is or maps to an event, and the queue takes them all. */
    ghost predicate OnlyQueues()
      reads this`ahead, this`buffered, this`pendingBatch, this`pendingRejection, queue
    {
      Pending().None? && !ahead && AllMap(library, buffered) && queue.HasRoomFor(EventsOf(library, buffered))
    }

    /** The queue as it will be. */
    ghost function Queuing(): seq<ContractEvent>
      reads this`buffered, queue
    {
      queue.Contents() + if AllMap(library, buffered) then EventsOf(library, buffered) else []
    }

    ghost predicate InputsCarried()
      reads this`buffered
    {
      forall x | x in buffered :: CarriedInput(x)
    }

    /** The front input is replaced by what it became; the record stays in its place. */
    method ReplaceFront(input: PendingInput, ghost files: Files)
      requires Valid() && buffered != [] && !buffered[0].RejectedInput?
               && SpanOfInput(input) == SpanOfInput(buffered[0])
      modifies this`buffered
      ensures Valid() && buffered == [input] + old(buffered)[1..] && !ahead
      ensures Ledger() == old(Ledger())
      ensures WeightOf(buffered) == old(WeightOf(buffered)) - Weight(old(buffered)[0]) + Weight(input)
      ensures StoredCount() == old(StoredCount()) && HeldCount() == old(HeldCount())
      ensures Work() == old(Work()) - Weight(old(buffered)[0]) + Weight(input)
      ensures old(AllTraced(files)) && Springs(library, files, input) ==> AllTraced(files)
      ensures old(AllClear()) && Clears(input) ==> AllClear()
      ensures old(AllSmooth()) && Smooth(input) ==> AllSmooth()
      ensures old(InputsCarried()) && (CarriedInput(old(buffered)[0]) ==> CarriedInput(input)) ==> InputsCarried()
    {
      hide Wired, BoundedEventQueue.Queue.Valid, Assembling, Committing, SpansOfEvents, CarriedInput, SpanOfInput,
        Weight, Springs, RefusedAt, Clears, Smooth;
      ghost var was := buffered;
      buffered := [input] + buffered[1..];
      assert buffered[1..] == was[1..];
      assert forall x | x in buffered :: x == input || x in was;
      assert SpansOfInputs(buffered) == SpansOfInputs(was);
    }

    /** The front input leaves the buffer. */
    method PopFront(ghost files: Files)
      requires Valid() && buffered != []
      modifies this`buffered, this`ahead
      ensures Valid() && buffered == old(buffered)[1..] && !ahead
      ensures Work() == old(Work()) - Weight(old(buffered)[0]) && StoredCount() == old(StoredCount()) - 1
      ensures WeightOf(buffered) == old(WeightOf(buffered)) - Weight(old(buffered)[0])
      ensures old(AllTraced(files)) ==> AllTraced(files)
      ensures old(AllClear()) ==> AllClear()
      ensures old(AllSmooth()) ==> AllSmooth()
      ensures old(InputsCarried()) ==> InputsCarried()
      ensures SpansOfInputs(old(buffered)) == [SpanOfInput(old(buffered)[0])] + SpansOfInputs(buffered)
    {
      hide Wired, BoundedEventQueue.Queue.Valid, Assembling, CarriedInput, SpanOfInput, Weight, Springs, RefusedAt,
        Clears, Smooth, Waiting, PendingCount;
      ghost var was := buffered;
      buffered := buffered[1..];
      ahead := false;
      assert forall x | x in buffered :: x in was;
      assert SpansOfInputs(was) == [SpanOfInput(was[0])] + SpansOfInputs(buffered);
    }

    /** Mapping fails for no record of which that was foreseen. */
    lemma FrontCanMap(raw: RawEvent)
      requires buffered != [] && buffered[0] == RawInput(raw)
      ensures EventOfInput(library, buffered[0]) == BaselineMapper.EventFrom(library, raw)
      ensures AllSmooth() && BaselineMapper.Mappable(library, raw) ==> BaselineMapper.EventFrom(library, raw).Some?
    {
      hide BaselineMapper.EventFrom, BaselineMapper.Mappable, BaselineMapper.Objection,
        BoundedEventQueue.Queue.AdmitsAlone, BatchAssembler.Representable;
      BaselineMapper.MappableIsUnobjectionable(library, raw);
      assert buffered[0] in buffered;
      assert AllSmooth() ==> Smooth(buffered[0]);
    }

    lemma RawIsNotAhead()
      ensures Valid() && buffered != [] && buffered[0].RawInput? ==> !ahead
    {
      hide Wired, Assembling, BoundedEventQueue.Queue.Valid;
    }

    lemma TranslatedIs(raw: RawEvent)
      ensures var mapped := BaselineMapper.EventFrom(library, raw);
              mapped.Some? ==> Translated(library, raw) == MappedInput(mapped.value)
      ensures var objection := BaselineMapper.Objection(library, raw);
              objection.Some? ==>
                Translated(library, raw)
                == RejectedInput(BaselineMapper.Reject(library, raw, objection.value.0, objection.value.1))
    {
      hide BaselineMapper.EventFrom, BaselineMapper.Mappable, BaselineMapper.Objection;
      BaselineMapper.MappableIsUnobjectionable(library, raw);
    }

    /** What the raw record at the front becomes stands in its place, came from the files too, and fits as it did. */
    lemma FrontBecomes(files: Files, raw: RawEvent, input: PendingInput)
      requires Wired() && buffered != [] && buffered[0] == RawInput(raw)
      requires match input
               case MappedInput(event) => BaselineMapper.EventFrom(library, raw) == Some(event)
               case RejectedInput(rejection) =>
                 exists code, message ::
                     BaselineMapper.Worded(message)
                     && rejection == BaselineMapper.Reject(library, raw, code, message)
               case RawInput(_) => false
      ensures Weight(input) < Weight(buffered[0]) && SpanOfInput(input) == SpanOfInput(buffered[0])
      ensures CarriedInput(buffered[0]) ==> CarriedInput(input)
      ensures AllTraced(files) ==> Springs(library, files, input)
      ensures AllClear() ==> Clears(input)
      ensures AllSmooth() ==> Smooth(input)
    {
      hide BaselineMapper.EventFrom, SpringsRaw, InHand, RefusedAt, BoundedEventQueue.Queue.NeverFits, Publishable,
        Named, BoundedEventQueue.Queue.AdmitsAlone, BatchAssembler.Representable, BaselineMapper.Objection, Lawful,
        Credentials;
      assert buffered[0] in buffered;
      assert AllSmooth() ==> Smooth(buffered[0]);
      assert AllTraced(files) ==> Springs(library, files, buffered[0]);
      assert AllClear() ==> Clears(buffered[0]);
      if input.RejectedInput? && CarriedInput(RawInput(raw)) {
        var code, message :| BaselineMapper.Worded(message)
        && input.rejection == BaselineMapper.Reject(library, raw, code, message);
        MapperRejectionIsPublishable(library, raw, code, message);
      }
    }

    /** A raw record is mapped or rejected in place. */
    method MapFront(ghost log: Log, ghost files: Files) returns (result: Result<()>)
      requires Valid() && buffered != [] && buffered[0].RawInput?
      modifies this`buffered
      ensures result.Failure? ==> result.error == ClockFailure
      ensures Valid() && !ahead
      ensures result.Failure? ==> buffered == old(buffered)
      ensures result.Success? ==>
                var raw := old(buffered[0]).raw;
                buffered == [Translated(library, raw)] + old(buffered)[1..]
      ensures HeldCount() == old(HeldCount()) && Ledger() == old(Ledger())
      ensures result.Success? ==> Work() < old(Work())
      ensures old(AllTraced(files)) ==> AllTraced(files)
      ensures old(AllClear()) ==> AllClear()
      ensures old(AllSmooth()) ==> AllSmooth() && result.Success?
      ensures old(Good(log)) ==> Good(log)
      ensures old(OnlyQueues()) ==> result.Success? && OnlyQueues() && Queuing() == old(Queuing())
      ensures EventOfInput(library, old(buffered[0])).Some? ==>
                result.Success? && buffered == [MappedInput(EventOfInput(library, old(buffered[0])).value)]
                    + old(buffered)[1..]
      ensures old(InputsCarried()) ==> InputsCarried()
    {
      hide *;
      var raw := buffered[0].raw;
      ValidIsWired();
      RawIsNotAhead();
      FrontDecides(log);
      FrontCanMap(raw);
      TranslatedIs(raw);
      GoodIs(log);
      var mapped := BaselineMapper.Map(library, raw);
      if mapped.Failure? {
        return Failure(mapped.error);
      }
      match mapped.value {
        case Mapped(event) =>
          FrontBecomes(files, raw, MappedInput(event));
          ReplaceFront(MappedInput(event), files);
        case Unmappable(rejection) =>
          FrontBecomes(files, raw, RejectedInput(rejection));
          ReplaceFront(RejectedInput(rejection), files);
      }
      GoodIs(log);
      if old(OnlyQueues()) {
        StillMaps();
      }
      return Success(());
    }

    /** After a drain and a flush, the front of the buffer is the next record to publish. */
    lemma FrontIsNext()
      requires Valid() && (ahead || Waiting() == 0) && assembler.batch.None? && Pending().None? && buffered != []
      ensures deferred.None?
      ensures Ledger() == disk.committed + [SpanOfInput(buffered[0])] + SpansOfEvents(queue.Contents())
              + SpansOfInputs(buffered[1..])
    {
      hide Wired, BoundedEventQueue.Queue.Valid, Assembling, SpanOfInput;
      NothingAssembled();
      if !ahead {
        assert SpansOfInputs(buffered) == [SpanOfInput(buffered[0])] + SpansOfInputs(buffered[1..]);
        assert SpansOfEvents(queue.Contents()) == [] && SpansOfOption(deferred) == [];
      }
    }

    lemma NothingBetween()
      requires Valid() && !ahead && deferred.None? && assembler.batch.None?
      ensures Ledger() == Committing() + SpansOfEvents(queue.Contents()) + SpansOfInputs(buffered)
    {
      hide Wired, BoundedEventQueue.Queue.Valid, Assembling, SpansOfEvents, SpansOfInputs;
      NothingAssembled();
    }

    lemma GoodFront(log: Log)
      requires buffered != []
      ensures InputsCarried() ==> CarriedInput(buffered[0])
    {
      hide CarriedInput;
      assert buffered[0] in buffered;
    }

    /** The rejection whose turn it is. */
    method PublishNext(ghost log: Log, ghost files: Files) returns (result: Result<bool>)
      requires Valid() && (ahead || Waiting() == 0) && assembler.batch.None? && Pending().None?
      requires buffered != [] && buffered[0].RejectedInput?
      modifies this`buffered, this`ahead, this`pendingBatch, this`pendingRejection, this`eventsPublished
      modifies this`eventsRejected, identifiers
      modifies disk`files, disk`temporaries, disk`twins, disk`rewritten, disk`visible, disk`committed, disk`landed
      ensures result.Failure? ==> result.error == MissingDigest || result.error == ContractError
      ensures Valid()
      ensures buffered == old(buffered)[1..] && Work() < old(Work())
      ensures StoredCount() == old(StoredCount()) - 1
      ensures result.Success? ==>
                && (result.value <==> Pending().None?) && pendingBatch.None?
                && eventsRejected == old(eventsRejected) + 1 && eventsPublished == old(eventsPublished)
      ensures result.Failure? ==> Pending().None?
      ensures old(AllTraced(files)) ==> AllTraced(files)
      ensures old(AllClear()) ==> AllClear()
      ensures !ahead && (old(AllSmooth()) ==> AllSmooth())
      ensures old(Numbered()) ==> Numbered() && (result.Success? ==> Ledger() == old(Ledger()))
      ensures old(Good(log)) ==> Good(log) && result.Success? && (disk.healthy ==> result.value)
      ensures old(Overtaken()) ==> result == Success(false) && DoomedAt(old(FrontSpan()))
    {
      hide *;
      FrontIsNext();
      DoomedIs(FrontSpan());
      OvertakenIs();
      GoodIs(log);
      GoodFront(log);
      ghost var next, later := disk.committed + [SpanOfInput(buffered[0])],
          SpansOfEvents(queue.Contents()) + SpansOfInputs(buffered[1..]);
      assert Ledger() == next + later;
      if InOrder(log, Ledger()) {
        InOrderPrefix(log, next, later);
      }
      var rejection := buffered[0].rejection;
      CarriedIsPublishable(buffered[0]);
      UncarriedIs(FrontSpan());
      PopFront(files);
      result := PublishRejection(rejection, log);
      NothingBetween();
      assert result.Success? && old(Numbered()) ==> Ledger() == next + later;
      GoodIs(log);
      if old(Overtaken()) {
        AuditIsAlone(old(disk.View()));
      }
      DoomedIs(old(FrontSpan()));
    }

    /** A rejection at the front: publish everything before it, then the rejection. */
    method PublishFront(now: int, ghost log: Log, ghost files: Files) returns (result: Result<bool>)
      requires Valid() && Pending().None? && buffered != [] && buffered[0].RejectedInput?
      modifies this`buffered, this`deferred, this`pendingBatch, this`pendingRejection, this`eventsPublished
      modifies this`eventsRejected
      modifies this`ahead, this`inverted
      modifies queue`entries, queue`usage, queue`bytes, assembler, identifiers
      modifies disk`files, disk`temporaries, disk`twins, disk`rewritten, disk`visible, disk`committed, disk`landed
      ensures result.Failure? ==> result.error == MissingDigest || result.error == ContractError
      ensures Valid()
      ensures result.Success? ==> (result.value <==> Pending().None?) && (result.value ==> Work() < old(Work()))
      ensures result.Failure? ==> Pending().None?
      ensures inverted == (old(inverted) || old(Jumps()))
      ensures old(AllTraced(files)) ==> AllTraced(files)
      ensures old(AllClear()) ==> AllClear()
      ensures old(Steady(log, files)) ==> Steady(log, files)
      ensures old(Untroubled(log)) ==> Untroubled(log)
      ensures old(Numbered()) ==>
                Numbered() && (result.Success? ==> old(Jumps()) || SameRecords(old(Ledger()), Ledger()))
      ensures old(Good(log)) && !old(Jumps()) ==> Good(log) && result.Success? && (disk.healthy ==> result.value)
      ensures result.Success? ==>
                AllCount() == old(AllCount())
      ensures old(Hopeless(log)) ==>
                result == Success(false) && DoomedAt(old(FrontSpan()))
    {
      hide *;
      ghost var hopeless, lane := Hopeless(log), Lane(log);
      ghost var committed, next, queued, rest := disk.committed, SpanOfInput(buffered[0]),
          SpansOfEvents(queue.Contents()), Rest();
      SteadyKeepsOrder(log, files);
      SteadyIs(log, files);
      UntroubledIs(log);
      GoodIs(log);
      CountIs();
      WaitsInFront(log);
      DoomedIs(FrontSpan());
      if hopeless {
        HopelessLedger(log);
      }
      AllClearIs();
      var ready := DrainAndFlush(now, log, files);
      if old(AllClear()) {
        StillClear(old(buffered));
      }
      UntroubledIs(log);
      SetAsideIsFront(old(buffered));
      CountIs();
      if !ready {
        return Success(false);
      }
      if hopeless {
        DrainedIsBehind(log, lane, committed, next, queued, rest);
      }
      SteadyIs(log, files);
      HeldIs();
      DoomedIs(FrontSpan());
      OvertakenIs();
      result := PublishNext(log, files);
      UntroubledIs(log);
      HeldIs();
      CountIs();
      SteadyIs(log, files);
    }

    lemma HeldIs()
      ensures pendingBatch.None? || Pending().None? ==> HeldCount() == StoredCount()
    {
    }

    lemma SetAsideIsFront(inputs: seq<PendingInput>)
      ensures SetAsideFrom(inputs) ==> buffered != [] && buffered[0].RejectedInput?
    {
    }

    lemma NotAheadIs()
      ensures !ahead ==> !Jumps()
    {
      hide Mentions;
    }

    lemma AllClearIs()
      ensures AllClear() <==> forall x | x in buffered :: Clears(x)
    {
      hide Clears;
    }

    lemma HopelessLedger(log: Log)
      requires Valid() && Hopeless(log)
      ensures CarriedInput(buffered[0]) && disk.healthy && Numbered()
      ensures Staged() == disk.committed + SpansOfEvents(queue.Contents())
      ensures Ordered(log)
              && InOrder(log, disk.committed + [SpanOfInput(buffered[0])] + SpansOfEvents(queue.Contents()) + Rest())
      ensures Mentions(SpansOfEvents(queue.Contents()), SpanOfInput(buffered[0]).source)
    {
      hide Of, InOrder, Ordered, SpansOfEvents, SpansOfInputs, Sound, Mentions, Assembling,
        BoundedEventQueue.Queue.Valid, Wired;
      LaneFlows(log);
      SoundIsOrdered(log);
      assert buffered[0] in buffered;
    }

    lemma OnlyCommitted(lane: Log, next: Span)
      requires Sound(collectorId, lane, disk.View(), None) && Numbered() && next !in disk.committed
      ensures Uncarried(next) && RecordsIssued()
    {
      hide Acceptable, CheckpointStands, CommittedIsVisible, InOrder, Ordered, Holds;
      forall p: Path | p in disk.files && p.RecordPath? ensures p.id < identifiers.next {
        assert ShapedAt(collectorId, disk.View(), p);
      }
    }

    lemma DrainedIsBehind(log: Log, lane: Log, committed: seq<Span>, next: Span, queued: seq<Span>, rest: seq<Span>)
      requires Ordered(log) && InOrder(log, committed + [next] + queued + rest) && Mentions(queued, next.source)
      requires Sound(collectorId, lane, disk.View(), None) && disk.committed == committed + queued && Numbered()
      ensures Behind(next) && Uncarried(next) && RecordsIssued() && forall p: Path | p in disk.files :: !IsHold(p)
    {
      hide Of, InOrder, Ordered, Sound, Mentions;
      InOrderPrefix(log, committed + [next] + queued, rest);
      NothingPending(collectorId, lane, disk.View());
      NextIsAlone(log, committed, next, queued);
      OnlyCommitted(lane, next);
      Overtakes(log, disk.View(), committed, next, queued);
    }

    lemma WorkOfMore(inputs: seq<PendingInput>)
      ensures buffered == inputs || SetAsideFrom(inputs) ==>
                Work() == WeightOf(inputs) + 3 * Waiting() + if buffered == inputs then 0 else 1
    {
      hide Waiting;
      WeightOfMore(inputs);
    }

    /** A refused event weighs less in the buffer than it did in the queue. */
    lemma WeightOfMore(inputs: seq<PendingInput>)
      ensures SetAsideFrom(inputs) ==> WeightOf(buffered) == WeightOf(inputs) + 1
    {
    }

    lemma CarriedIsPublishable(input: PendingInput)
      requires input.RejectedInput?
      ensures CarriedInput(input) <==> Publishable(input.rejection)
      ensures SpanOfInput(input) == input.rejection.source && Weight(input) == 1
    {
    }

    lemma ValidIsWired()
      ensures Valid() ==> Wired()
    {
      hide Wired, Assembling, BoundedEventQueue.Queue.Valid;
    }

    lemma RejectedInPlace(event: ContractEvent, code: RejectionCode, message: Text)
      requires Wired() && BaselineMapper.Worded(message)
      ensures var input := RejectedInput(RejectEvent(library, event, code, message));
              && SpanOfInput(input) == SpanOfInput(MappedInput(event)) && Weight(input) < Weight(MappedInput(event))
              && (CarriedInput(MappedInput(event)) ==> CarriedInput(input))
    {
      hide Publishable, Carried;
      if Carried(event) {
        RejectedEventIsPublishable(library, event, code, message);
      }
    }

    /** try_push on the event at the front. */
    method Push(event: ContractEvent) returns (admitted: Result<BoundedEventQueue.Admission>)
      requires Valid() && !ahead
      modifies queue`entries, queue`usage, queue`bytes
      ensures Valid()
      ensures queue.Contents() == if admitted == Success(BoundedEventQueue.Admitted) then old(queue.Contents())
              + [event] else old(queue.Contents())
      ensures Staged() == if admitted == Success(BoundedEventQueue.Admitted) then old(Staged())
              + [SpanOf(event)] else old(Staged())
      ensures queue.AdmitsAlone(event) && old(queue.Contents()) == [] ==>
                admitted == Success(BoundedEventQueue.Admitted)
      ensures queue.AdmitsAlone(event) ==> admitted == Success(old(queue.Verdict(event)))
      ensures old(queue.Contents()) == [] ==>
                (queue.NeverFits(event) <==>
                    admitted.Success? && !admitted.value.Admitted? && !admitted.value.EventTooLarge?)
      ensures admitted == Success(BoundedEventQueue.Admitted) ==>
                && |queue.entries| == |old(queue.entries)| + 1
                && queue.entries[..|old(queue.entries)|] == old(queue.entries)
                && queue.entries[|old(queue.entries)|].event == event
      ensures Work() == old(Work()) + if admitted == Success(BoundedEventQueue.Admitted) then 3 else 0
      ensures StoredCount() == old(StoredCount()) + if admitted == Success(BoundedEventQueue.Admitted) then 1 else 0
      ensures Waiting() == old(Waiting()) + if admitted == Success(BoundedEventQueue.Admitted) then 1 else 0
      ensures InHand() <= old(InHand()) + {event}
      ensures old(AllRepresentable()) && BatchAssembler.Representable(event, MAXIMUM_BATCH_BYTES) ==> AllRepresentable()
      ensures old(AllCarried()) && (admitted == Success(BoundedEventQueue.Admitted) ==> Carried(event)) ==> AllCarried()
    {
      hide Wired, BoundedEventQueue.Queue.Valid, BoundedEventQueue.Queue.Contents, BoundedEventQueue.Queue.AdmitsAlone,
        BoundedEventQueue.Queue.Verdict, Assembling, Committing, Carried, Assembled, SpansOfEvents, SpansOfOption,
        SpanOf;
      ghost var before, queued := Committing() + Assembled() + SpansOfOption(deferred), queue.Contents();
      admitted := queue.TryPush(event);
      SpansOfMore(queued, event);
      assert before + (SpansOfEvents(queued) + [SpanOf(event)]) == before + SpansOfEvents(queued) + [SpanOf(event)];
    }

    /** The mapped event at the front moves to the queue when try_push takes it. */
    method MoveFrontToQueue(event: ContractEvent, ghost files: Files)
      returns (admitted: Result<BoundedEventQueue.Admission>)
      requires Valid() && buffered != [] && buffered[0] == MappedInput(event)
      modifies this`buffered, this`ahead, queue`entries, queue`usage, queue`bytes
      ensures Valid() && !ahead
      ensures admitted == Success(BoundedEventQueue.Admitted) ==>
                buffered == old(buffered)[1..] && Work() < old(Work())
                && queue.Contents() == old(queue.Contents()) + [event]
      ensures admitted != Success(BoundedEventQueue.Admitted) ==>
                && buffered == old(buffered) && queue.Contents() == old(queue.Contents())
                && Work() == old(Work()) && Waiting() == old(Waiting())
      ensures queue.AdmitsAlone(event) && old(queue.Contents()) == [] ==>
                admitted == Success(BoundedEventQueue.Admitted)
      ensures queue.AdmitsAlone(event) ==> admitted == Success(old(queue.Verdict(event)))
      ensures old(queue.Contents()) == [] ==>
                (queue.NeverFits(event) <==>
                    admitted.Success? && !admitted.value.Admitted? && !admitted.value.EventTooLarge?)
      ensures old(OnlyQueues()) ==>
                admitted == Success(BoundedEventQueue.Admitted) && OnlyQueues() && Queuing() == old(Queuing())
      ensures old(AllClear()) ==> AllClear()
      ensures old(AllSmooth() && AllRepresentable()) ==> AllSmooth() && AllRepresentable()
      ensures Ledger() == old(Ledger()) && HeldCount() == old(HeldCount())
      ensures old(AllTraced(files)) ==> AllTraced(files)
      ensures old(AllCarried() && InputsCarried()) ==> AllCarried() && InputsCarried()
    {
      hide *;
      ghost var staged, inputs, entries := Staged(), buffered, queue.entries;
      FrontAmong(event, files);
      RoomForFront(event);
      ApartFromFront(event);
      admitted := Push(event);
      ApartFromFront(event);
      if old(AllTraced(files)) {
        StillTraced(files, old(InHand()), event);
      }
      if admitted == Success(BoundedEventQueue.Admitted) {
        PopFront(files);
        Apart();
        assert staged + ([SpanOf(event)] + SpansOfInputs(buffered))
            == staged + [SpanOf(event)] + SpansOfInputs(buffered);
        if old(OnlyQueues()) {
          StillQueues(entries, inputs, old(queue.Contents()), event);
        }
      }
    }

    lemma Apart()
      ensures Valid() && !ahead ==> Ledger() == Staged() + SpansOfInputs(buffered)
      ensures HeldCount() == StoredCount() + PendingCount()
    {
      hide Wired, Assembling, BoundedEventQueue.Queue.Valid, Staged, SpansOfInputs, StoredCount, PendingCount;
    }

    lemma ApartFromFront(event: ContractEvent)
      requires Valid() && buffered != [] && buffered[0] == MappedInput(event)
      ensures !ahead && Ledger() == Staged() + SpansOfInputs(buffered) && HeldCount() == StoredCount() + PendingCount()
      ensures SpanOfInput(buffered[0]) == SpanOf(event) && Weight(buffered[0]) == 4
    {
      hide Wired, Assembling, BoundedEventQueue.Queue.Valid, Staged, SpansOfInputs, StoredCount, PendingCount;
    }

    lemma FrontAmong(event: ContractEvent, files: Files)
      requires buffered != [] && buffered[0] == MappedInput(event)
      ensures InputsCarried() ==> Carried(event)
      ensures AllSmooth() ==> BatchAssembler.Representable(event, MAXIMUM_BATCH_BYTES)
      ensures AllTraced(files) ==>
                && Springs(library, files, MappedInput(event))
                && forall e | e in InHand() :: Springs(library, files, MappedInput(e))
      ensures AllTraced(files) ==> forall x | x in buffered :: Springs(library, files, x)
    {
      hide Carried, Springs, RefusedAt, InHand, BatchAssembler.Representable, BoundedEventQueue.Queue.AdmitsAlone;
      assert buffered[0] in buffered;
      assert AllSmooth() ==> Smooth(buffered[0]);
    }

    lemma StillTraced(files: Files, hand: set<ContractEvent>, event: ContractEvent)
      requires !ahead && InHand() <= hand + {event} && Springs(library, files, MappedInput(event))
      requires forall e | e in hand :: Springs(library, files, MappedInput(e))
      requires forall x | x in buffered :: Springs(library, files, x)
      ensures AllTraced(files)
    {
      hide Springs, RefusedAt, InHand;
    }

    lemma RoomForFront(event: ContractEvent)
      requires Valid() && buffered != [] && buffered[0] == MappedInput(event)
      ensures OnlyQueues() ==>
                && queue.AdmitsAlone(event) && queue.Verdict(event) == BoundedEventQueue.Admitted && Pending().None?
                && AllMap(library, buffered) && queue.RoomBeside(queue.entries, EventsOf(library, buffered))
                && Queuing() == queue.Contents() + EventsOf(library, buffered)
    {
      hide Wired, Assembling, BoundedEventQueue.Queue.Valid, BoundedEventQueue.Queue.AdmitsAlone,
        BoundedEventQueue.Queue.Verdict, BoundedEventQueue.Queue.RoomBeside;
      if OnlyQueues() {
        EventsOfFront(library, buffered);
        queue.RoomForFirst(EventsOf(library, buffered));
      }
    }

    lemma StillQueues(before: seq<BoundedEventQueue.Entry>, inputs: seq<PendingInput>, contents: seq<ContractEvent>,
            event: ContractEvent)
      requires Valid() && !ahead && Pending().None? && inputs != [] && buffered == inputs[1..]
               && inputs[0] == MappedInput(event)
      requires AllMap(library, inputs) && queue.RoomBeside(before, EventsOf(library, inputs))
      requires |queue.entries| == |before| + 1 && queue.entries[..|before|] == before
               && queue.entries[|before|].event == event
      requires queue.Contents() == contents + [event]
      ensures OnlyQueues() && Queuing() == contents + EventsOf(library, inputs)
    {
      hide Wired, Assembling, BoundedEventQueue.Queue.Valid, BoundedEventQueue.Queue.RoomBeside,
        BoundedEventQueue.Queue.Contents;
      EventsOfFront(library, inputs);
      queue.RoomForRest(before, EventsOf(library, inputs));
      assert EventsOf(library, inputs)[1..] == EventsOf(library, buffered);
    }

    /** The queue is emptied to make room; when it was empty already, the same admission fails for ever. */
    method MakeRoom(now: int, ghost log: Log, ghost files: Files) returns (result: Result<bool>)
      requires Valid() && Pending().None? && !ahead
      modifies this`buffered, this`deferred, this`pendingBatch, this`pendingRejection, this`eventsPublished
      modifies this`eventsRejected
      modifies this`ahead, this`inverted
      modifies queue`entries, queue`usage, queue`bytes, assembler, identifiers
      modifies disk`files, disk`temporaries, disk`twins, disk`rewritten, disk`visible, disk`committed, disk`landed
      ensures Valid() && eventsRejected == old(eventsRejected)
      ensures result.Success? ==> (result.value <==> Pending().None?) && (result.value ==> Work() < old(Work()))
      ensures result.Failure? ==>
                && result.error == Divergence && Pending().None? && assembler.batch.None?
                && buffered == old(buffered) && Waiting() == 0 && old(Waiting()) == 0
      ensures inverted == old(inverted)
      ensures old(AllTraced(files)) ==> AllTraced(files)
      ensures old(AllClear()) ==> AllClear()
      ensures old(AllRepresentable()) ==> !ahead && AllRepresentable() && buffered == old(buffered)
      ensures old(Waiting()) == 0 && old(assembler.batch).None? ==> result.Failure?
      ensures old(Numbered()) ==> Numbered() && SameRecords(old(Ledger()), Ledger())
      ensures old(Good(log)) ==> Good(log) && (disk.healthy ==> result != Success(false))
      ensures HeldCount() + eventsPublished == old(HeldCount() + eventsPublished)
    {
      hide *;
      var waiting := Waiting();
      GoodIs(log);
      NotAheadIs();
      AllClearIs();
      var ready := DrainAndFlush(now, log, files);
      if old(AllClear()) {
        StillClear(old(buffered));
      }
      if !ready {
        return Success(false);
      }
      return if waiting == 0 then Failure(Divergence) else Success(true);
    }

    /** An event that is too large for the queue is rejected in place. */
    method RejectFront(ghost files: Files)
      requires Valid() && buffered != [] && buffered[0].MappedInput?
      modifies this`buffered
      ensures Valid() && !ahead && |buffered| == |old(buffered)| && WeightOf(buffered) < old(WeightOf(buffered))
      ensures buffered == [RejectedInput(RejectEvent(library, old(buffered[0]).event, RecordTooLarge, TooLargeText()))]
              + old(buffered)[1..]
      ensures Ledger() == old(Ledger()) && HeldCount() == old(HeldCount()) && Work() < old(Work())
      ensures old(AllTraced(files)) ==> AllTraced(files)
      ensures old(AllClear()) ==> AllClear()
      ensures old(AllSmooth()) ==> AllSmooth()
      ensures old(InputsCarried()) ==> InputsCarried()
    {
      hide *;
      var event := buffered[0].event;
      var input := RejectedInput(RejectEvent(library, event, RecordTooLarge, TooLargeText()));
      ValidIsWired();
      RejectedInPlace(event, RecordTooLarge, TooLargeText());
      RejectedSprings(files, input);
      ReplaceFront(input, files);
    }

    lemma FrontCases(log: Log)
      requires buffered != [] && buffered[0].MappedInput?
      ensures AllClear() ==> !queue.NeverFits(buffered[0].event)
      ensures AllSmooth() ==> AllClear() && queue.AdmitsAlone(buffered[0].event)
      ensures Stalled() ==>
                queue.NeverFits(buffered[0].event) && queue.Contents() == [] && Waiting() == 0 && assembler.batch.None?
      ensures Waiting() == 0 ==> queue.Contents() == []
    {
      hide Safe, Numbered, InOrder, AllCarried, InputsCarried, Ledger, BatchAssembler.Representable,
        BoundedEventQueue.EventBytes;
      assert buffered[0] in buffered;
      assert AllSmooth() ==> Smooth(buffered[0]);
    }

    lemma GoodIs(log: Log)
      ensures Good(log) <==> Safe(log) && Numbered() && InOrder(log, Ledger()) && AllCarried() && InputsCarried()
    {
      hide Safe, Numbered, InOrder, AllCarried, InputsCarried, Ledger;
    }

    lemma WaitingIs()
      ensures Waiting() == 0 ==> queue.Contents() == [] && deferred.None?
    {
    }

    lemma StallsHere()
      ensures && buffered != [] && buffered[0].MappedInput? && queue.NeverFits(buffered[0].event)
              && Waiting() == 0 && assembler.batch.None? && Pending().None?
              ==> Stalled()
    {
      hide BoundedEventQueue.Queue.NeverFits;
    }

    /** A mapped event at the front: into the queue, or aside, or else the queue is emptied first. */
    method AdmitFront(now: int, ghost log: Log, ghost files: Files) returns (result: Result<bool>)
      requires Valid() && Pending().None? && buffered != [] && buffered[0].MappedInput?
      modifies this`buffered, this`deferred, this`pendingBatch, this`pendingRejection, this`eventsPublished
      modifies this`eventsRejected
      modifies this`ahead, this`inverted
      modifies queue`entries, queue`usage, queue`bytes, assembler, identifiers
      modifies disk`files, disk`temporaries, disk`twins, disk`rewritten, disk`visible, disk`committed, disk`landed
      ensures Valid() && eventsRejected == old(eventsRejected)
      ensures result.Success? ==> (result.value <==> Pending().None?) && (result.value ==> Work() < old(Work()))
      ensures result.Failure? ==> Pending().None?
      ensures inverted == old(inverted)
      ensures old(AllTraced(files)) ==> AllTraced(files)
      ensures old(AllClear()) ==> AllClear() && result != Failure(Divergence)
      ensures old(Stalled()) ==> result == Failure(Divergence)
      ensures old(Untroubled(log)) ==> Untroubled(log) && result.Success?
      ensures old(OnlyQueues()) ==>
                result == Success(true) && OnlyQueues() && Queuing() == old(Queuing())
                && Elsewhere() == old(Elsewhere())
      ensures old(Numbered()) ==> Numbered() && SameRecords(old(Ledger()), Ledger())
      ensures old(Good(log)) ==> Good(log) && (disk.healthy ==> result != Success(false))
      ensures HeldCount() + eventsPublished == old(HeldCount() + eventsPublished)
      ensures result == Failure(Divergence) ==>
                buffered == old(buffered) && Stalled()
    {
      hide *;
      FrontCases(log);
      GoodIs(log);
      UntroubledIs(log);
      Unmoved(Ledger());
      var event := buffered[0].event;
      var admitted := MoveFrontToQueue(event, files);
      GoodIs(log);
      UntroubledIs(log);
      WaitingIs();
      if admitted.Failure? {
        return Failure(AccountingError);
      }
      if admitted.value.Admitted? {
        return Success(true);
      }
      if admitted.value.EventTooLarge? {
        RejectFront(files);
        GoodIs(log);
        UntroubledIs(log);
        return Success(true);
      }
      result := MakeRoom(now, log, files);
      StallsHere();
      UntroubledIs(log);
    }

    /** A retry keeps every record in its place. */
    method RetryInOrder(ghost log: Log) returns (ok: bool)
      requires Valid()
      modifies this`pendingBatch, this`pendingRejection, this`eventsPublished
      modifies disk`files, disk`temporaries, disk`twins, disk`rewritten, disk`visible, disk`committed, disk`landed
      ensures Valid()
      ensures ok <==> Pending().None?
      ensures !ok ==> Pending() == old(Pending())
      ensures Ledger() == old(Ledger())
      ensures old(Numbered()) ==> Numbered()
      ensures old(Good(log)) ==> Good(log) && (disk.healthy ==> (ok <==> old(Retryable())))
      ensures old(Pending()).None? ==> unchanged(this) && unchanged(disk)
      ensures old(!Retryable()) ==> !ok && disk.View() == old(disk.View())
      ensures HeldCount() + eventsPublished == old(HeldCount() + eventsPublished)
      ensures old(Doomed()) ==>
                && !ok && Doomed() && pendingRejection == old(pendingRejection)
                && RejectedEventPublisher.StuckHolding(old(disk.View()), disk.View(), pendingRejection.value)
    {
      hide RejectedEventPublisher.StuckHolding, Behind;
      hide Wired, Assembling, BoundedEventQueue.Queue.Valid, BoundedEventQueue.Queue.Contents,
        BatchAssembler.Assembler.Events, Numbered, Safe, InOrder, AllCarried, InputsCarried, Committing, SpansOfEvents,
        SpansOfInputs, SpanOfInput, Doomed, Acceptable;
      ok := RetryPendingPublication(log);
    }

    /** One turn of the buffer loop. */
    method ProcessFront(now: int, ghost log: Log, ghost files: Files) returns (result: Result<bool>)
      requires Valid() && Pending().None? && buffered != []
      modifies this`buffered, this`deferred, this`pendingBatch, this`pendingRejection, this`eventsPublished
      modifies this`eventsRejected
      modifies this`ahead, this`inverted
      modifies queue`entries, queue`usage, queue`bytes, assembler, identifiers
      modifies disk`files, disk`temporaries, disk`twins, disk`rewritten, disk`visible, disk`committed, disk`landed
      ensures Valid()
      ensures result.Success? ==> (result.value <==> Pending().None?) && (result.value ==> Work() < old(Work()))
      ensures result.Failure? ==> Pending().None?
      ensures inverted == (old(inverted) || old(Jumps()))
      ensures old(AllTraced(files)) ==> AllTraced(files)
      ensures old(AllClear()) ==> AllClear() && result != Failure(Divergence)
      ensures old(Stalled()) ==> result == Failure(Divergence)
      ensures old(Steady(log, files)) ==> Steady(log, files)
      ensures old(Untroubled(log)) ==> Untroubled(log) && result.Success?
      ensures old(OnlyQueues()) ==>
                result == Success(true) && OnlyQueues() && Queuing() == old(Queuing())
                && Elsewhere() == old(Elsewhere())
      ensures old(Numbered()) ==>
                Numbered() && (result.Success? ==> old(Jumps()) || SameRecords(old(Ledger()), Ledger()))
      ensures old(Good(log)) && !old(Jumps()) ==> Good(log) && (disk.healthy ==> result != Success(false))
      ensures result.Success? ==>
                AllCount() == old(AllCount())
      ensures result == Failure(Divergence) ==> Stalled()
      ensures old(Hopeless(log)) ==>
                result == Success(false) && DoomedAt(old(FrontSpan()))
    {
      hide *;
      SteadyKeepsOrder(log, files);
      FrontDecides(log);
      SteadyIs(log, files);
      GoodIs(log);
      UntroubledIs(log);
      CountIs();
      Unmoved(Ledger());
      match buffered[0] {
        case RawInput(_) =>
          var mapped := MapFront(log, files);
          result := if mapped.Success? then Success(true) else Failure(mapped.error);
        case RejectedInput(_) =>
          result := PublishFront(now, log, files);
        case MappedInput(_) =>
          result := AdmitFront(now, log, files);
      }
      SteadyIs(log, files);
      GoodIs(log);
      UntroubledIs(log);
      CountIs();
    }

    /** What the front of the buffer is tells which of these states this is. */
    lemma FrontDecides(log: Log)
      requires Valid() && buffered != []
      ensures Hopeless(log) ==> buffered[0].RejectedInput?
      ensures Stalled() ==> buffered[0].MappedInput?
      ensures Jumps() ==> buffered[0].RejectedInput?
      ensures OnlyQueues() ==> EventOfInput(library, buffered[0]).Some? && !buffered[0].RejectedInput?
    {
      hide Wired, Assembling, BoundedEventQueue.Queue.Valid, Good, Mentions, SpansOfEvents,
        BoundedEventQueue.Queue.HasRoomFor, Waiting, BoundedEventQueue.Queue.NeverFits;
      assert buffered[0] in buffered;
    }

    /** Mapping the front input changes nothing of what the queue is to take. */
    twostate lemma StillMaps()
      requires old(OnlyQueues() && buffered != [] && EventOfInput(library, buffered[0]).Some?)
      requires buffered == [MappedInput(old(EventOfInput(library, buffered[0])).value)] + old(buffered)[1..]
      requires unchanged(queue) && unchanged(this`ahead, this`pendingBatch, this`pendingRejection)
      ensures OnlyQueues() && Queuing() == old(Queuing())
    {
      hide EventOfInput, BoundedEventQueue.Queue.RoomBeside;
      var inputs := old(buffered);
      EventsOfFront(library, inputs);
      MappedIsEvent(old(EventOfInput(library, buffered[0])).value);
      assert buffered[1..] == inputs[1..];
      assert AllMap(library, buffered) by {
        assert forall x | x in buffered :: x == buffered[0] || x in inputs[1..];
      }
      EventsOfFront(library, buffered);
    }

    lemma MappedIsEvent(event: ContractEvent)
      ensures EventOfInput(library, MappedInput(event)) == Some(event)
    {
    }

    /** The front event fits no queue, and nothing is left that could make room: the loop would spin for ever. */
    ghost predicate Stalled()
      reads this, queue, assembler
    {
      && buffered != [] && buffered[0].MappedInput? && queue.NeverFits(buffered[0].event)
      && Waiting() == 0 && assembler.batch.None? && Pending().None?
    }

    /** The same records, unless one was overtaken. */
    lemma SameThrough(a: seq<Span>, b: seq<Span>, c: seq<Span>)
      ensures SameRecords(a, b) && SameRecords(b, c) ==> SameRecords(a, c)
    {
      hide Of;
    }

    lemma NotPendingIsRetryable()
      ensures Pending().None? || pendingBatch.None? ==> Retryable()
    {
      hide Reparsable;
    }

    lemma SteadyIs(log: Log, files: Files)
      ensures Steady(log, files) <==>
                !inverted && Good(log) && AllTraced(files) && log == LogOf(files) && NothingToOvertake(library, files)
    {
      hide Good, AllTraced, LogOf, NothingToOvertake;
    }

    lemma BeforeTheLoop()
      ensures Stalled() ==> Pending().None? && buffered != []
      ensures OnlyQueues() ==> Pending().None? && (buffered == [] ==> !ahead && Queuing() == queue.Contents())
    {
      hide BoundedEventQueue.Queue.NeverFits, BoundedEventQueue.Queue.HasRoomFor;
    }

    /** One turn of the loop: what is pending is retried, then the front is dealt with. */
    method BufferTurn(now: int, ghost log: Log, ghost files: Files) returns (result: Result<bool>)
      requires Valid() && buffered != []
      modifies this`buffered, this`deferred, this`pendingBatch, this`pendingRejection, this`eventsPublished
      modifies this`eventsRejected
      modifies this`ahead, this`inverted
      modifies queue`entries, queue`usage, queue`bytes, assembler, identifiers
      modifies disk`files, disk`temporaries, disk`twins, disk`rewritten, disk`visible, disk`committed, disk`landed
      ensures Valid()
      ensures result.Success? ==> (result.value <==> Pending().None?) && (result.value ==> Work() < old(Work()))
      ensures result.Failure? ==> Pending().None?
      ensures old(inverted) ==> inverted
      ensures old(AllTraced(files)) ==> AllTraced(files)
      ensures old(AllClear()) ==> AllClear() && result != Failure(Divergence)
      ensures old(Stalled()) ==> result == Failure(Divergence)
      ensures old(Steady(log, files)) ==> Steady(log, files)
      ensures old(Untroubled(log)) ==> Untroubled(log) && result.Success?
      ensures old(OnlyQueues()) ==>
                result == Success(true) && OnlyQueues() && Queuing() == old(Queuing())
                && Elsewhere() == old(Elsewhere())
      ensures old(Numbered()) ==> Numbered() && (result.Success? ==> inverted || SameRecords(old(Ledger()), Ledger()))
      ensures old(Good(log)) ==>
                inverted || (Good(log) && (disk.healthy && old(Retryable()) ==> result != Success(false)))
      ensures result.Success? ==>
                AllCount() == old(AllCount())
      ensures result == Failure(Divergence) ==> Stalled()
      ensures old(Hopeless(log)) ==>
                result == Success(false) && DoomedAt(old(FrontSpan()))
    {
      hide *;
      WaitsInFront(log);
      BeforeTheLoop();
      Unmoved(Ledger());
      SteadyIs(log, files);
      UntroubledIs(log);
      GoodIs(log);
      CountIs();
      NotPendingIsRetryable();
      if Pending().Some? {
        var ok := RetryInOrder(log);
        SteadyIs(log, files);
        UntroubledIs(log);
        CountIs();
        if !ok {
          return Success(false);
        }
      }
      result := ProcessFront(now, log, files);
    }

    /**
     * process_buffered_inputs: it ends, with an empty buffer, with a pending publication that failed, or with
     * an exception. The loop that never ends, reported as Divergence, is the one that reaches a stalled state; when
     * the queue's limits leave room for every buffered record, it is none.
     */
    method ProcessBufferedInputs(now: int, ghost log: Log, ghost files: Files) returns (result: Result<bool>)
      requires Valid()
      modifies this`buffered, this`deferred, this`pendingBatch, this`pendingRejection, this`eventsPublished
      modifies this`eventsRejected
      modifies this`ahead, this`inverted
      modifies queue`entries, queue`usage, queue`bytes, assembler, identifiers
      modifies disk`files, disk`temporaries, disk`twins, disk`rewritten, disk`visible, disk`committed, disk`landed
      ensures Valid()
      ensures result == Success(true) ==> buffered == [] && (old(Pending().None?) ==> Pending().None?)
      ensures result == Success(false) ==> Pending().Some?
      ensures old(inverted) ==> inverted
      ensures old(AllTraced(files)) ==> AllTraced(files)
      ensures old(Steady(log, files)) ==> Steady(log, files)
      ensures old(Untroubled(log)) ==> Untroubled(log) && result.Success?
      ensures old(buffered) == [] ==> result == Success(true) && InHand() == old(InHand())
      ensures old(Numbered()) ==> Numbered() && (result.Success? ==> inverted || SameRecords(old(Ledger()), Ledger()))
      ensures old(Good(log)) ==>
                inverted || (Good(log) && (disk.healthy && old(Retryable()) ==> result != Success(false)))
      ensures result.Success? ==>
                AllCount() == old(AllCount())
      ensures result == Failure(Divergence) ==> Stalled()
      ensures old(Stalled()) ==> result == Failure(Divergence)
      ensures old(AllClear()) ==> result != Failure(Divergence)
      ensures old(OnlyQueues()) ==>
                result == Success(true) && queue.Contents() == old(Queuing()) && Elsewhere() == old(Elsewhere())
                && !ahead
      ensures old(Hopeless(log)) ==>
                result == Success(false) && DoomedAt(old(FrontSpan()))
    {
      hide *;
      WaitsInFront(log);
      BeforeTheLoop();
      Unmoved(Ledger());
      ghost var idle := Pending().None?;
      while buffered != []
        invariant Valid()
        invariant idle ==> Pending().None?
        invariant old(inverted) ==> inverted
        invariant old(Retryable()) ==> Retryable()
        invariant old(AllTraced(files)) ==> AllTraced(files)
        invariant old(Steady(log, files)) ==> Steady(log, files)
        invariant old(Untroubled(log)) ==> Untroubled(log)
        invariant old(buffered) == [] ==> buffered == [] && InHand() == old(InHand())
        invariant old(AllClear()) ==> AllClear()
        invariant old(Numbered()) ==> Numbered() && (inverted || SameRecords(old(Ledger()), Ledger()))
        invariant old(Good(log)) ==> inverted || Good(log)
        invariant AllCount() == old(AllCount())
        invariant old(Stalled()) ==> Stalled() && Pending().None? && buffered != []
        invariant old(OnlyQueues()) ==> OnlyQueues() && Queuing() == old(Queuing()) && Elsewhere() == old(Elsewhere())
        invariant old(Hopeless(log)) ==> Hopeless(log) && Pending().None? && buffered == old(buffered)
        decreases Work()
      {
        ghost var before := Ledger();
        var processed := BufferTurn(now, log, files);
        SameThrough(old(Ledger()), before, Ledger());
        if processed != Success(true) {
          return processed;
        }
        NotPendingIsRetryable();
      }
      BeforeTheLoop();
      return Success(true);
    }

    // ---------------------------------------------------------------- reading

    ghost predicate ReadersOk()
      reads this`readers, readers
    {
      && (forall i | 0 <= i < |readers| ::
            readers[i].Valid() && readers[i].library == library && Standard(readers[i].options))
      && (forall i, j | 0 <= i < j < |readers| ::
            readers[i] != readers[j] && readers[i].options.sourceId != readers[j].options.sourceId)
    }

    /** The reader follows its file, and what was read of it is exactly what is committed or held, in order. */
    ghost predicate Followed(files: Files, reader: Reader, ledger: seq<Span>)
      reads reader
    {
      && reader.options.sourceId in files && reader.Follows(files[reader.options.sourceId])
      && reader.Position() <= |files[reader.options.sourceId].content|
      && Of(ledger, reader.options.sourceId) == RecordsBefore(files, reader.options.sourceId, reader.Position())
    }

    ghost predicate Reading(files: Files)
      reads this`readers, readers, this`ahead, this`buffered, this`deferred, this`pendingBatch, this`pendingRejection
      reads disk, queue, assembler
    {
      forall i | 0 <= i < |readers| :: Followed(files, readers[i], Ledger())
    }

    /** An event was overtaken, or the pipeline and the readers are in step. */
    ghost predicate InStep(files: Files)
      reads this, readers, disk, queue, assembler, identifiers
    {
      inverted || (Good(LogOf(files)) && AllTraced(files) && Reading(files))
    }

    /** No reader has read beyond what the files held. */
    ghost predicate Low(before: Files)
      reads this`readers, readers
    {
      forall i | 0 <= i < |readers| :: LowReader(before, readers[i])
    }

    ghost predicate LowReader(before: Files, reader: Reader)
      reads reader
    {
      reader.options.sourceId in before && reader.Floor() <= |before[reader.options.sourceId].content|
    }

    /** What this poll sees of the reader's file is a file that only grows, and nothing fails once it is open. */
    ghost predicate Sees(files: Files, reader: Reader, views: Views)
      reads reader
    {
      && reader.options.sourceId in files && ReadsThrough(views)
      && AppendOnly(views, files[reader.options.sourceId], reader.Floor())
    }

    /** This poll of the reader meets no failure, sees the whole file, and ends before any limit. */
    ghost predicate ReadsAll(files: Files, reader: Reader, views: Views)
      reads reader
    {
      && reader.options.sourceId in files && AllSeen(views)
      && var file := files[reader.options.sourceId];
         && views.streamed.value.content == file.content && Boundary(file.content, |file.content|)
         && |file.content| < reader.options.maximumPollBytes && reader.Position() <= |file.content|
         && |Records(file.content, reader.Position(), |file.content|)| < batchSize
    }

    /**
     * The next poll of the reader reads two records: one whose event every batch refuses, and one that batches hold.
     */
    ghost predicate Foreseen(files: Files, reader: Reader, views: Views, span: Span)
      reads reader
    {
      ReadsAll(files, reader, views)
      && RefusedComesNext(library, files, reader.options.sourceId, reader.Position(), span)
    }

    /** Nothing is held anywhere. */
    ghost predicate Still()
      reads this`ahead, this`inverted, this`buffered, this`deferred, this`pendingBatch, this`pendingRejection, queue
      reads assembler
    {
      && buffered == [] && deferred == None && queue.Contents() == [] && assembler.batch == None && Pending() == None
      && !ahead && !inverted
    }

    /** The queue holds an event that every batch refuses and a later one of its source, and nothing else is held. */
    ghost predicate Primed(span: Span)
      reads this`ahead, this`inverted, this`buffered, this`deferred, this`pendingBatch, this`pendingRejection, queue
      reads assembler
    {
      && buffered == [] && deferred == None && assembler.batch == None && Pending() == None && !ahead && !inverted
      && RefusedThenHeld(queue.Contents(), span)
    }

    /** From rest, the next poll of the reader reads two such records. */
    ghost predicate Coming(files: Files, reader: Reader, views: Views, span: Span)
      reads reader, this`ahead, this`inverted, this`buffered, this`deferred, this`pendingBatch, this`pendingRejection
      reads queue, assembler
    {
      Still() && Foreseen(files, reader, views, span) && FitsTwo()
    }

    /** The two records are buffered, and the queue takes what they map to. */
    ghost predicate Arriving(span: Span)
      reads this`ahead, this`inverted, this`buffered, this`pendingBatch, this`pendingRejection, queue
    {
      OnlyQueues() && RefusedThenHeld(Queuing(), span) && !inverted
    }

    /** What is held is in order, the reader is in step with it, and this poll sees a file that grows. */
    ghost predicate Tracked(files: Files, reader: Reader, views: Views)
      reads reader, this`ahead, this`buffered, this`deferred, this`pendingBatch, this`pendingRejection, disk, queue
      reads assembler, identifiers
    {
      Good(LogOf(files)) && Followed(files, reader, Ledger()) && Sees(files, reader, views) && NamedFiles(files)
    }

    /** Everything is in step, and this poll sees a file that grows. */
    ghost predicate Watching(files: Files, reader: Reader, views: Views)
      reads this, readers, reader, disk, queue, assembler, identifiers
    {
      InStep(files) && Sees(files, reader, views) && NamedFiles(files)
    }

    ghost predicate WatchingSource(files: Files, i: nat, views: SourceId -> Views)
      reads this, readers, disk, queue, assembler, identifiers
    {
      i < |readers| && Watching(files, readers[i], views(readers[i].options.sourceId))
    }

    /** The only source is about to overtake a refused record, from rest. */
    ghost predicate Alone(files: Files, views: SourceId -> Views, span: Span)
      reads this, readers, queue, assembler
    {
      |readers| == 1 && Coming(files, readers[0], views(readers[0].options.sourceId), span)
    }

    /** What is about to be overtaken stands at this place, and nothing prevents it. */
    ghost predicate Cornered(files: Files, span: Span)
      reads this, disk, queue, assembler, identifiers
    {
      Hopeless(LogOf(files)) && buffered != [] && SpanOfInput(buffered[0]) == span
    }

    /** The pipeline is in step with files that grow and can be read. */
    ghost predicate Following(views: SourceId -> Views, before: Files, files: Files)
      reads this, readers, disk, queue, assembler, identifiers
    {
      InStep(files) && Low(before) && Legible(views, before, files) && NamedFiles(files)
    }

    /** Two of the largest events that a record can map to fit the queue, as the configuration loader sees to. */
    ghost predicate FitsTwo() {
      queue.maximumEventsPerSource >= 2 && queue.maximumBytesPerSource >= 2 * EVENT_WEIGHT
    }

    /** record_received, and the items appended to the buffer. */
    method BufferItems(items: seq<ReadItem>)
      requires Valid() && buffered == []
      modifies this`buffered, this`eventsReceived
      ensures Valid() && buffered == InputsOf(items) && eventsReceived == old(eventsReceived) + |items|
      ensures Ledger() == old(Ledger()) + SpansOfInputs(buffered)
    {
      hide Wired, Assembling, BoundedEventQueue.Queue.Valid, Staged;
      buffered := InputsOf(items);
      eventsReceived := eventsReceived + |items|;
    }

    /** What one poll of a reader hands over, when nothing unusual happens. */
    ghost predicate HandedOver(files: Files, reader: Reader, from: nat, read: seq<ReadItem>)
      reads reader
    {
      && reader.options.sourceId in files && reader.Follows(files[reader.options.sourceId])
      && var file := files[reader.options.sourceId];
      && from <= reader.Position() <= |file.content|
      && HandsOver(library, reader.options, file, read, from, reader.Position())
      && Records(file.content, 0, reader.Position()) == Records(file.content, 0, from)
          + Records(file.content, from, reader.Position())
    }

    /** The poll itself; a reader error is caught, and what the reader had finished is gone. */
    method Poll(reader: Reader, views: Views, ghost files: Files) returns (items: seq<ReadItem>)
      requires reader.Valid() && reader.library == library
      modifies reader
      ensures reader.Valid()
      ensures forall item | item in items :: SpanOfItem(item).end <= MAXIMUM_SAFE_INTEGER
      ensures old(Sees(files, reader, views) && reader.Follows(files[reader.options.sourceId])) ==>
                HandedOver(files, reader, old(reader.Position()), items)
      ensures old(Sees(files, reader, views) && reader.Follows(files[reader.options.sourceId])
              && ReadsAll(files, reader, views)) ==>
                reader.Position() == |files[reader.options.sourceId].content|
    {
      hide HandsOver, Records, AppendOnly, ReadsThrough, Reader.At, Boundary, Reader.Follows, Reader.Valid, AllSeen;
      ghost var file := if reader.options.sourceId in files then files[reader.options.sourceId] else Snapshot([], []);
      var polled, read := reader.Poll(batchSize, views, file);
      if old(Sees(files, reader, views) && reader.Follows(files[reader.options.sourceId])
          && ReadsAll(files, reader, views)) {
        HandedAreFew(library, reader.options, file, read, old(reader.Position()), reader.Position());
        AtTheEnd(reader, file);
      }
      return if polled.Success? then polled.value.items else [];
    }

    lemma HandedAreFew(library: Library, options: Options, file: Snapshot, items: seq<ReadItem>, from: nat, last: nat)
      requires HandsOver(library, options, file, items, from, last)
      ensures from <= last <= |file.content| && |items| <= |Records(file.content, from, |file.content|)|
    {
      hide Describes;
      RecordsFewer(file.content, from, last, |file.content|);
    }

    lemma AtTheEnd(reader: Reader, file: Snapshot)
      requires reader.Follows(file) && Boundary(file.content, |file.content|)
      ensures reader.initialized && reader.Floor() >= |file.content| ==> reader.Position() == |file.content|
    {
      if !reader.initialized {
        return;
      }
      var unread := file.content[reader.pendingStart..];
      assert unread != [] ==> unread[|unread| - 1] == file.content[|file.content| - 1];
    }

    /** The poll of one source, and the buffering of its items. */
    method PollSource(reader: Reader, views: Views, ghost files: Files)
      requires Valid() && reader.Valid() && reader.library == library && Standard(reader.options)
      requires buffered == []
      modifies reader, this`buffered, this`eventsReceived
      ensures Valid() && reader.Valid()
      ensures eventsReceived == old(eventsReceived) + |buffered|
      ensures old(Numbered()) ==> Numbered()
      ensures old(Tracked(files, reader, views)) ==>
                && Good(LogOf(files)) && Followed(files, reader, Ledger())
                && (forall s | s != reader.options.sourceId :: Of(Ledger(), s) == old(Of(Ledger(), s)))
                && (old(AllTraced(files)) ==> AllTraced(files))
                && forall span | old(Coming(files, reader, views, span)) :: Arriving(span)
    {
      hide Wired, Assembling, BoundedEventQueue.Queue.Valid, BoundedEventQueue.Queue.Contents,
        BatchAssembler.Assembler.Events, Numbered, Safe, InOrder, Of, AllCarried, CarriedInput, Ledger, HandsOver,
        Records, SpanOfItem, RecordsBefore, LogOf, NamedFiles, InputOf, Reader.Follows, Reader.Valid, Reader.Position,
        AppendOnly, ReadsThrough, Springs, RefusedAt, InHand, Foreseen, OnlyQueues, Queuing, RefusedThenHeld, FitsTwo,
        ReadsAll, Still, RefusedComesNext;
      ghost var followed := Tracked(files, reader, views);
      StillIs();
      forall span ensures Foreseen(files, reader, views, span) ==>
                            && ReadsAll(files, reader, views)
                            && RefusedComesNext(library, files, reader.options.sourceId, reader.Position(), span)
      {
        ForeseenReadsAll(files, reader, views, span);
      }
      ghost var from, ledger := reader.Position(), Ledger();
      var items := Poll(reader, views, files);
      assert Valid() && Ledger() == ledger;
      BufferItems(items);
      if followed {
        FollowedBoundary(files, reader);
        Lawfully();
        ReaderOptions(reader);
        Arrived(library, reader.options, files, ledger, items, from, reader.Position());
        HandedSprings(library, reader.options, files, items, from, reader.Position());
        forall span | old(Coming(files, reader, views, span)) ensures Arriving(span)
        {
          ForeseenComes(files, reader, items, from, span);
        }
      }
    }

    lemma ForeseenReadsAll(files: Files, reader: Reader, views: Views, span: Span)
      ensures Foreseen(files, reader, views, span) ==>
                && ReadsAll(files, reader, views)
                && RefusedComesNext(library, files, reader.options.sourceId, reader.Position(), span)
    {
      hide ReadsAll, RefusedComesNext;
    }

    lemma StillIs()
      ensures Still() ==>
                && buffered == [] && deferred == None && queue.Contents() == [] && assembler.batch == None
                && Pending() == None
                && !ahead && !inverted
    {
    }

    /** What was foreseen is buffered, and the queue takes it. */
    lemma ForeseenComes(files: Files, reader: Reader, items: seq<ReadItem>, from: nat, span: Span)
      requires Valid() && NamedFiles(files) && Standard(reader.options) && reader.options.sourceId in files
      requires ReadsToEnd(library, reader.options, files[reader.options.sourceId], items, from)
      requires RefusedComesNext(library, files, reader.options.sourceId, from, span)
      requires buffered == InputsOf(items) && queue.Contents() == [] && !ahead && Pending().None? && FitsTwo()
      ensures OnlyQueues() && RefusedThenHeld(Queuing(), span)
    {
      hide NamedFiles, Records, Lawful, Credentials, ReadsToEnd, Standard, FractionBefore1970, HeldByBatches,
        Assembling, BatchAssembler.EventOk, BatchAssembler.Representable, BoundedEventQueue.EventBytes, EventsOf,
        AllMap;
      TwoHandedOver(library, reader.options, files, items, from, span);
      var events := EventsOf(library, buffered);
      queue.TwoFit(events);
    }

    lemma ReaderOptions(reader: Reader)
      requires reader.Valid()
      ensures ValidOptions(reader.options)
    {
    }

    lemma Lawfully()
      requires Wired()
      ensures Lawful(library)
    {
    }

    lemma FollowedBoundary(files: Files, reader: Reader)
      requires reader.options.sourceId in files && reader.Follows(files[reader.options.sourceId])
      ensures reader.Position() <= |files[reader.options.sourceId].content|
      ensures Boundary(files[reader.options.sourceId].content, reader.Position())
    {
    }

    /** Every event received is published, counted as rejected, or held. */
    predicate Counted()
      reads this`eventsReceived, this`eventsPublished, this`eventsRejected
      reads this`buffered, this`deferred, this`pendingBatch, queue, assembler
    {
      eventsReceived == AllCount()
    }

    /** An event was overtaken, or the records held are sound and in order. */
    ghost predicate Sane(files: Files)
      reads this`ahead, this`buffered, this`deferred, this`pendingBatch, this`pendingRejection
      reads this`inverted, disk, queue, assembler, identifiers
    {
      inverted || (Good(LogOf(files)) && AllTraced(files))
    }

    lemma FollowedStill(files: Files, reader: Reader, before: seq<Span>, after: seq<Span>)
      requires Followed(files, reader, before)
               && Of(before, reader.options.sourceId) == Of(after, reader.options.sourceId)
      ensures Followed(files, reader, after)
    {
      hide Of, RecordsBefore, Reader.Follows, Reader.Position;
    }

    ghost predicate ReadingBefore(files: Files, ledger: seq<Span>)
      reads this`readers, readers
    {
      forall i | 0 <= i < |readers| :: Followed(files, readers[i], ledger)
    }

    /** The readers stay in step when the same records are held in the same order. */
    lemma StillReading(files: Files, ledger: seq<Span>)
      requires ReadingBefore(files, ledger) && SameRecords(ledger, Ledger())
      ensures Reading(files)
    {
      hide Ledger, Of, Followed;
      forall i | 0 <= i < |readers| ensures Followed(files, readers[i], Ledger()) {
        FollowedStill(files, readers[i], ledger, Ledger());
      }
    }

    lemma GoodIsNumbered(log: Log)
      ensures Good(log) ==> Numbered()
    {
    }

    /** Poll one source: the other readers stay in step. */
    method PollInStep(i: nat, views: Views, ghost files: Files)
      requires Valid() && ReadersOk() && i < |readers| && buffered == []
      modifies readers[i], this`buffered, this`eventsReceived
      ensures Valid() && ReadersOk()
      ensures old(Counted()) ==> Counted()
      ensures old(Watching(files, readers[i], views)) ==>
                InStep(files) && forall span | old(Coming(files, readers[i], views, span)) :: Arriving(span)
    {
      hide Wired, Assembling, BoundedEventQueue.Queue.Valid, BoundedEventQueue.Queue.Contents,
        BatchAssembler.Assembler.Events, Good, Ledger, LogOf, RecordsBefore, Reader.Valid, NamedFiles, Of, Followed,
        Sees, AllTraced, Foreseen, OnlyQueues, Queuing, RefusedThenHeld, FitsTwo, Arriving;
      ghost var ledger := Ledger();
      ghost var reading := Good(LogOf(files)) && AllTraced(files) && Reading(files) && NamedFiles(files)
                           && Sees(files, readers[i], views);
      PollSource(readers[i], views, files);
      if reading {
        forall j | 0 <= j < |readers| ensures Followed(files, readers[j], Ledger()) {
          if j != i {
            FollowedStill(files, readers[j], ledger, Ledger());
          }
        }
      }
    }

    /**
     * The queue's limits leave room for the largest event that a record can map to, as the configuration loader sees
     * to.
     */
    ghost predicate Spacious() {
      queue.maximumBytesPerSource >= EVENT_WEIGHT
    }

    lemma TracedIsClear(files: Files)
      requires Valid() && NamedFiles(files) && Spacious()
      ensures AllTraced(files) && Good(LogOf(files)) ==> AllClear()
    {
      hide Assembling, BoundedEventQueue.Queue.Valid, Springs, RefusedAt, LogOf, InHand, InOrder, Safe, Numbered,
        AllCarried, Lawful, Credentials, NamedFiles, BoundedEventQueue.EventBytes, BaselineMapper.EventFrom,
        Publishable;
      if AllTraced(files) && Good(LogOf(files)) {
        forall x | x in buffered && EventOfInput(library, x).Some? ensures Clears(x) {
          InputIsClear(files, x);
        }
      }
    }

    lemma InputIsClear(files: Files, input: PendingInput)
      requires Wired() && NamedFiles(files) && Spacious()
      requires Springs(library, files, input) && CarriedInput(input) && EventOfInput(library, input).Some?
      ensures Clears(input)
    {
      hide Lawful, Credentials, NamedFiles, BoundedEventQueue.EventBytes, SpringsRaw, BaselineMapper.Worded;
      var event := EventOfInput(library, input).value;
      assert Springs(library, files, MappedInput(event));
      assert SpanOf(event).end <= MAXIMUM_SAFE_INTEGER;
      hide BaselineMapper.EventFrom;
      SpringsWeighs(library, files, event);
    }

    /** process_buffered_inputs, with the readers in step. */
    method ProcessInStep(now: int, ghost files: Files) returns (result: Result<bool>)
      requires Valid() && Pending().None?
      modifies this`buffered, this`deferred, this`pendingBatch, this`pendingRejection, this`eventsPublished
      modifies this`eventsRejected
      modifies this`ahead, this`inverted
      modifies queue`entries, queue`usage, queue`bytes, assembler, identifiers
      modifies disk`files, disk`temporaries, disk`twins, disk`rewritten, disk`visible, disk`committed, disk`landed
      ensures Valid()
      ensures old(OnlyQueues()) ==>
                result == Success(true) && queue.Contents() == old(Queuing()) && Elsewhere() == old(Elsewhere())
                && !ahead
      ensures result == Success(true) ==> buffered == [] && Pending().None?
      ensures result == Success(false) ==> Pending().Some?
      ensures old(inverted) ==> inverted
      ensures old(Sane(files)) ==>
                && Sane(files)
                && (NothingToOvertake(library, files) ==> inverted == old(inverted))
                && (NamedFiles(files) && Spacious() ==> inverted || result != Failure(Divergence))
                && (disk.healthy ==> inverted || result != Success(false))
                && (old(Untroubled(LogOf(files))) ==>
                      Untroubled(LogOf(files)) && result.Success? && (disk.healthy ==> result.value))
      ensures result.Success? && old(InStep(files)) ==> InStep(files)
      ensures result.Success? ==> AllCount() == old(AllCount())
      ensures result.Success? && old(Counted()) ==> Counted()
      ensures result == Failure(Divergence) ==> Stalled()
      ensures old(Hopeless(LogOf(files))) ==>
                result == Success(false) && DoomedAt(old(FrontSpan()))
      ensures old(buffered) == [] ==> result == Success(true) && InHand() == old(InHand())
    {
      hide *;
      ghost var log, ledger := LogOf(files), Ledger();
      SaneIs(files);
      GoodIsNumbered(log);
      ReadingIs(files);
      ghost var reading := Good(log) && ReadingBefore(files, ledger);
      SteadyIs(log, files);
      UntroubledIs(log);
      NotPendingIsRetryable();
      CountedIs();
      if NamedFiles(files) && Spacious() {
        TracedIsClear(files);
      }
      WaitsInFront(log);
      result := ProcessBufferedInputs(now, log, files);
      assert result.Success? ==> result.value || result == Success(false);
      SteadyIs(log, files);
      UntroubledIs(log);
      if reading && result.Success? && !inverted {
        StillReading(files, ledger);
      }
      SaneIs(files);
      CountedIs();
    }

    lemma SaneIs(files: Files)
      ensures Sane(files) <==> inverted || (Good(LogOf(files)) && AllTraced(files))
      ensures InStep(files) <==> inverted || (Good(LogOf(files)) && AllTraced(files) && Reading(files))
    {
      hide Good, LogOf, AllTraced, Reading;
    }

    lemma ReadingIs(files: Files)
      ensures Reading(files) <==> ReadingBefore(files, Ledger())
    {
      hide Followed, Ledger;
    }

    lemma CountedIs()
      ensures Counted() <==> eventsReceived == AllCount()
    {
      hide AllCount;
    }

    lemma Unmoved(ledger: seq<Span>)
      ensures SameRecords(ledger, ledger)
    {
    }

    /** retry_pending_publication, with the readers in step. */
    method RetryInStep(ghost files: Files) returns (ok: bool)
      requires Valid()
      modifies this`pendingBatch, this`pendingRejection, this`eventsPublished
      modifies disk`files, disk`temporaries, disk`twins, disk`rewritten, disk`visible, disk`committed, disk`landed
      ensures Valid()
      ensures ok <==> Pending().None?
      ensures old(Sane(files)) ==> Sane(files)
      ensures old(InStep(files)) ==> InStep(files)
      ensures old(Sane(files)) && disk.healthy && old(Retryable()) ==> inverted || ok
      ensures old(!Retryable()) ==>
                !ok && !Retryable() && pendingBatch == old(pendingBatch) && disk.View() == old(disk.View())
      ensures HeldCount() + eventsPublished == old(HeldCount() + eventsPublished)
      ensures old(Counted()) ==> Counted()
      ensures old(Pending()).None? ==> unchanged(this) && unchanged(disk)
      ensures old(Doomed()) ==>
                && !ok && Doomed() && pendingRejection == old(pendingRejection)
                && RejectedEventPublisher.StuckHolding(old(disk.View()), disk.View(), pendingRejection.value)
    {
      hide RejectedEventPublisher.StuckHolding, Behind;
      hide Wired, Assembling, BoundedEventQueue.Queue.Valid, BoundedEventQueue.Queue.Contents,
        BatchAssembler.Assembler.Events, Good, Ledger, LogOf, Followed, Hopeless, SameRecords, Numbered, Jumps, Lane,
        Sound, Publishing, Flowing, Safe, Staged, HeldCount, AllTraced, Reparsable, Doomed;
      ghost var ledger := Ledger();
      GoodIsNumbered(LogOf(files));
      Unmoved(ledger);
      assert Reading(files) ==> ReadingBefore(files, ledger);
      ghost var reading := Good(LogOf(files)) && ReadingBefore(files, ledger);
      ok := RetryInOrder(LogOf(files));
      if reading {
        StillReading(files, ledger);
      }
    }

    /** flush_batch, with the readers in step. */
    method FlushInStep(ghost files: Files) returns (ok: bool)
      requires Valid()
      modifies this`pendingBatch, this`pendingRejection, this`eventsPublished
      modifies assembler`batch, assembler`emptyBytes, assembler`encodedBytes
      modifies disk`files, disk`temporaries, disk`twins, disk`rewritten, disk`visible, disk`committed, disk`landed
      ensures Valid() && assembler.batch.None?
      ensures ok <==> Pending().None?
      ensures old(Sane(files)) ==> Sane(files)
      ensures old(InStep(files)) ==> InStep(files)
      ensures old(Sane(files)) && disk.healthy && old(Retryable()) ==> inverted || ok
      ensures HeldCount() + eventsPublished == old(HeldCount() + eventsPublished)
      ensures old(Counted()) ==> Counted()
    {
      hide Wired, Assembling, BoundedEventQueue.Queue.Valid, BoundedEventQueue.Queue.Contents,
        BatchAssembler.Assembler.Events, Good, Ledger, LogOf, Followed, Hopeless, SameRecords, Numbered, Jumps, Lane,
        Sound, Publishing, Flowing, Safe, Staged, HeldCount, AllTraced, Reparsable;
      ghost var ledger := Ledger();
      GoodIsNumbered(LogOf(files));
      Unmoved(ledger);
      assert Reading(files) ==> ReadingBefore(files, ledger);
      ghost var reading := Good(LogOf(files)) && ReadingBefore(files, ledger);
      ok := FlushInOrder(LogOf(files));
      if reading {
        StillReading(files, ledger);
      }
    }

    /** drain_queue, with the readers in step. */
    method DrainInStep(now: int, ghost files: Files) returns (ok: bool)
      requires Valid() && Pending().None?
      modifies this`buffered, this`deferred, this`pendingBatch, this`pendingRejection, this`eventsPublished
      modifies this`ahead, this`inverted
      modifies queue`entries, queue`usage, queue`bytes, assembler, identifiers
      modifies disk`files, disk`temporaries, disk`twins, disk`rewritten, disk`visible, disk`committed, disk`landed
      ensures Valid()
      ensures ok <==> Pending().None?
      ensures inverted == (old(inverted) || old(Jumps()))
      ensures old(RefusedFirst()) ==> (ok ==> ahead) && (ahead ==> FirstSetAside(old(queue.Contents())))
      ensures old(AllRepresentable()) ==> !ahead && AllRepresentable()
      ensures ok && !ahead ==> BatchesTake(old(InHand()))
      ensures ahead ==> SetAsideFrom(old(buffered))
      ensures !ahead ==> buffered == old(buffered) && (ok ==> Waiting() == 0)
      ensures old(Sane(files)) && NothingToOvertake(library, files) ==> inverted == old(inverted)
      ensures old(Sane(files)) ==> Sane(files)
      ensures old(InStep(files)) ==> InStep(files)
      ensures old(Sane(files)) && disk.healthy ==> inverted || ok
      ensures HeldCount() + eventsPublished == old(HeldCount() + eventsPublished)
      ensures old(Counted()) ==> Counted()
    {
      hide *;
      ghost var log, ledger := LogOf(files), Ledger();
      SaneIs(files);
      GoodIsNumbered(log);
      ReadingIs(files);
      ghost var reading := Good(log) && ReadingBefore(files, ledger);
      SteadyIs(log, files);
      CountedIs();
      CountIs();
      ok := DrainQueue(now, log, files);
      SteadyIs(log, files);
      SteadyKeepsOrder(log, files);
      if reading && !inverted {
        StillReading(files, ledger);
      }
      SaneIs(files);
      CountedIs();
      CountIs();
    }

    lemma AloneIs(files: Files, views: SourceId -> Views)
      ensures forall span :: Alone(files, views, span) <==>
                |readers| == 1 && Coming(files, readers[0], views(readers[0].options.sourceId), span)
      ensures forall span :: Alone(files, views, span) ==> Still()
      ensures Still() ==> forall span ::
                Alone(files, views, span) <==>
                |readers| == 1 && FitsTwo() && Foreseen(files, readers[0], views(readers[0].options.sourceId), span)
    {
      hide FitsTwo, Still, Foreseen;
    }

    lemma FollowingIs(views: SourceId -> Views, before: Files, files: Files)
      ensures Following(views, before, files) <==>
                InStep(files) && Low(before) && Legible(views, before, files) && NamedFiles(files)
    {
      hide InStep, Low, Legible, NamedFiles;
    }

    /** One source: its poll, then the buffer. */
    method PollTurn(i: nat, now: int, views: SourceId -> Views, ghost files: Files) returns (result: Result<bool>)
      requires Valid() && ReadersOk() && i < |readers| && buffered == [] && Pending().None?
      modifies readers[i], this`buffered, this`deferred, this`pendingBatch, this`pendingRejection, this`eventsReceived
      modifies this`eventsPublished, this`eventsRejected, this`ahead, this`inverted
      modifies queue`entries, queue`usage, queue`bytes, assembler, identifiers
      modifies disk`files, disk`temporaries, disk`twins, disk`rewritten, disk`visible, disk`committed, disk`landed
      ensures Valid() && ReadersOk()
      ensures result == Success(true) ==> buffered == [] && Pending().None?
      ensures result == Success(false) ==> Pending().Some?
      ensures old(WatchingSource(files, i, views)) ==>
                && Sane(files) && (result.Success? ==> InStep(files))
                && (NothingToOvertake(library, files) ==> inverted == old(inverted))
                && (Spacious() ==> inverted || result != Failure(Divergence))
                && forall span | old(Alone(files, views, span)) :: result == Success(true) && Primed(span)
      ensures old(Counted()) && result.Success? ==> Counted()
      ensures result == Failure(Divergence) ==> Stalled()
    {
      hide *;
      ghost var seen := WatchingSource(files, i, views);
      WatchingIs(files, i, views);
      ElsewhereStill();
      AloneIs(files, views);
      PollInStep(i, views(readers[i].options.sourceId), files);
      InStepIsSane(files);
      ArrivingIs();
      label Polled:
      result := ProcessInStep(now, files);
      InStepIsSane(files);
      if seen {
        forall span | old(Alone(files, views, span)) ensures result == Success(true) && Primed(span) {
          ElsewhereKept@Polled();
          PrimedIs(span);
        }
      }
    }

    lemma WatchingIs(files: Files, i: nat, views: SourceId -> Views)
      requires i < |readers|
      ensures var reader := readers[i];
              && (WatchingSource(files, i, views) <==> Watching(files, reader, views(reader.options.sourceId)))
              && (WatchingSource(files, i, views)
                  <==> InStep(files) && Sees(files, reader, views(reader.options.sourceId)) && NamedFiles(files))
    {
      hide InStep, Sees, NamedFiles;
    }

    lemma ArrivingIs()
      ensures forall span :: Arriving(span) <==> OnlyQueues() && RefusedThenHeld(Queuing(), span) && !inverted
    {
      hide OnlyQueues, Queuing, RefusedThenHeld;
    }

    /** The sources in turn, until a publication fails. */
    method PollSources(now: int, views: SourceId -> Views, ghost before: Files, ghost files: Files)
      returns (result: Result<()>)
      requires Valid() && ReadersOk() && buffered == [] && Pending().None?
      modifies readers, this`buffered, this`deferred, this`pendingBatch, this`pendingRejection, this`eventsReceived
      modifies this`eventsPublished, this`eventsRejected, this`ahead, this`inverted
      modifies queue`entries, queue`usage, queue`bytes, assembler, identifiers
      modifies disk`files, disk`temporaries, disk`twins, disk`rewritten, disk`visible, disk`committed, disk`landed
      ensures Valid() && ReadersOk()
      ensures old(Following(views, before, files)) ==>
                && Sane(files) && (result.Success? ==> InStep(files))
                && (NothingToOvertake(library, files) ==> inverted == old(inverted))
                && (Spacious() ==> inverted || result != Failure(Divergence))
                && forall span | old(Alone(files, views, span)) :: result.Success? && Primed(span)
      ensures old(Counted()) && result.Success? ==> Counted()
      ensures result == Failure(Divergence) ==> Stalled()
    {
      hide *;
      ghost var legible := old(Following(views, before, files));
      ghost var steady := legible && NothingToOvertake(library, files);
      FollowingIs(views, before, files);
      InStepIsSane(files);
      AloneIs(files, views);
      LowReaders(before);
      for i := 0 to |readers|
        invariant Valid() && ReadersOk() && buffered == [] && Pending().None?
        invariant legible ==> InStep(files)
        invariant steady ==> inverted == old(inverted)
        invariant legible ==> forall j | i <= j < |readers| :: LowReader(before, readers[j])
        invariant old(Counted()) ==> Counted()
        invariant legible && i == 0 ==> forall span | old(Alone(files, views, span)) :: Alone(files, views, span)
        invariant legible && i == 1 ==> forall span | old(Alone(files, views, span)) :: Primed(span)
      {
        if legible {
          SeesWhatGrew(before, files, readers[i], views);
        }
        ReadersApart();
        WatchingIs(files, i, views);
        var processed := PollTurn(i, now, views, files);
        InStepIsSane(files);
        if processed.Failure? {
          return Failure(processed.error);
        }
        if !processed.value {
          break;
        }
      }
      InStepIsSane(files);
      return Success(());
    }

    lemma LowReaders(before: Files)
      ensures Low(before) ==> forall j | 0 <= j < |readers| :: LowReader(before, readers[j])
    {
      hide LowReader;
    }

    lemma ReadersApart()
      ensures ReadersOk() ==> forall i, j | 0 <= i < j < |readers| :: readers[i] != readers[j]
    {
      hide Reader.Valid, Standard;
    }

    lemma SeesWhatGrew(before: Files, files: Files, reader: Reader, views: SourceId -> Views)
      requires Legible(views, before, files) && LowReader(before, reader)
      ensures Sees(files, reader, views(reader.options.sourceId))
    {
      hide AppendOnly, ReadsThrough;
      var s := reader.options.sourceId;
      AppendOnlyFrom(views(s), files[s], |before[s].content|, reader.Floor());
    }

    lemma InStepIsSane(files: Files)
      ensures InStep(files) ==> Sane(files)
    {
    }

    /** The end of a poll cycle: batches are filled, and flushed when they have waited long enough. */
    method FinishCycle(now: int, ghost files: Files)
      requires Valid() && Pending().None?
      modifies this`buffered, this`deferred, this`pendingBatch, this`pendingRejection, this`eventsPublished
      modifies this`ahead, this`inverted
      modifies queue`entries, queue`usage, queue`bytes, assembler, identifiers
      modifies disk`files, disk`temporaries, disk`twins, disk`rewritten, disk`visible, disk`committed, disk`landed
      ensures Valid()
      ensures old(Sane(files)) && NothingToOvertake(library, files) ==> inverted == old(inverted)
      ensures old(Sane(files)) ==> Sane(files)
      ensures old(InStep(files)) ==> InStep(files)
      ensures old(Sane(files)) && disk.healthy ==> forall span | old(Primed(span)) :: Cornered(files, span)
      ensures HeldCount() + eventsPublished == old(HeldCount() + eventsPublished)
      ensures old(Counted()) ==> Counted()
    {
      hide *;
      ghost var queued, primed := queue.Contents(), old(Sane(files)) && disk.healthy;
      forall span ensures Primed(span) ==> Sane(files) ==>
          RefusedFirst() && !Jumps() && !inverted && RefusedThenHeld(queued, span) {
        PrimedStarts(span);
      }
      var drained := DrainInStep(now, files);
      if primed {
        forall span | old(Primed(span)) ensures drained && ahead && Cornered(files, span) {
          PrimedDrained(files, span, queued);
        }
      }
      FlushesSome(now);
      WaitsInFront(LogOf(files));
      if drained && assembler.ShouldFlush(now) {
        var flushed := FlushInStep(files);
      }
    }

    lemma FlushesSome(now: int)
      ensures Valid() && ahead ==> !assembler.ShouldFlush(now)
      ensures Jumps() ==> ahead
    {
      hide Wired, Assembling, BoundedEventQueue.Queue.Valid, Mentions;
    }

    lemma PrimedStarts(span: Span)
      ensures Primed(span) ==>
                && RefusedFirst() && !Jumps() && !inverted && RefusedThenHeld(queue.Contents(), span)
                && Pending() == None && buffered == []
    {
      hide BatchAssembler.EventOk, BatchAssembler.Representable, BoundedEventQueue.EventBytes, Mentions;
    }

    lemma PrimedWaits()
      ensures forall span | Primed(span) :: Pending() == None && buffered == []
    {
      hide RefusedThenHeld;
    }

    /** The refused event has been set aside, and the later one is still queued. */
    lemma PrimedDrained(files: Files, span: Span, queued: seq<ContractEvent>)
      requires Valid() && Sane(files) && !inverted && Pending().None? && disk.healthy
      requires RefusedThenHeld(queued, span) && ahead && FirstSetAside(queued)
      ensures Cornered(files, span)
    {
      hide Wired, Assembling, BoundedEventQueue.Queue.Valid, BatchAssembler.EventOk, BatchAssembler.Representable,
        BoundedEventQueue.EventBytes, Good, AllTraced, Mentions, SpansOfEvents, LogOf;
      MentionsSecond(queued[0], queued[1]);
      assert queued[1..] == [queued[1]];
    }

    lemma MentionsSecond(a: ContractEvent, b: ContractEvent)
      ensures [a, b][1..] == [b] && Mentions(SpansOfEvents([b]), SpanOf(b).source)
    {
      assert SpansOfEvents([b])[0] == SpanOf(b);
    }

    lemma ElsewhereStill()
      ensures Still() ==> ElsewhereNothing()
    {
    }

    /** Nothing is held outside the buffer and the queue, and nothing was overtaken. */
    ghost predicate ElsewhereNothing()
      reads this`deferred, this`inverted, this`pendingBatch, this`pendingRejection, assembler, disk
    {
      Elsewhere().0 == None && Elsewhere().1 == None && !Elsewhere().2 && Elsewhere().3 == None
    }

    twostate lemma ElsewhereKept()
      requires old(ElsewhereNothing()) && Elsewhere() == old(Elsewhere())
      ensures ElsewhereNothing()
    {
      hide Elsewhere;
    }

    lemma PrimedIs(span: Span)
      requires buffered == [] && !ahead && RefusedThenHeld(queue.Contents(), span)
      requires ElsewhereNothing()
      ensures Primed(span)
    {
      hide RefusedThenHeld;
    }

    lemma StillAgain()
      requires buffered == [] && !ahead && queue.Contents() == [] && ElsewhereNothing()
      ensures Still()
    {
    }

    lemma StillQueuesNothing()
      requires Valid() && Still()
      ensures OnlyQueues() && Queuing() == []
    {
      hide Wired, Assembling, BoundedEventQueue.EventBytes, BoundedEventQueue.UsageIs;
      assert EventsOf(library, buffered) == [];
      assert |queue.entries| == |queue.Contents()|;
    }

    lemma StuckStill()
      ensures Doomed() ==>
                pendingRejection.Some?
                && RejectedEventPublisher.StuckHolding(disk.View(), disk.View(), pendingRejection.value)
    {
    }

    /** What a poll cycle does once nothing is pending. */
    method PollReady(now: int, views: SourceId -> Views, ghost before: Files, ghost files: Files)
      returns (result: Result<()>)
      requires Valid() && ReadersOk() && Pending().None?
      modifies readers, this`buffered, this`deferred, this`pendingBatch, this`pendingRejection, this`eventsReceived
      modifies this`eventsPublished, this`eventsRejected, this`ahead, this`inverted
      modifies queue`entries, queue`usage, queue`bytes, assembler, identifiers
      modifies disk`files, disk`temporaries, disk`twins, disk`rewritten, disk`visible, disk`committed, disk`landed
      ensures Valid() && ReadersOk()
      ensures old(Following(views, before, files)) ==>
                && Sane(files) && (result.Success? ==> InStep(files))
                && (NothingToOvertake(library, files) ==> inverted == old(inverted))
                && (Spacious() ==> inverted || result != Failure(Divergence))
                && (disk.healthy ==>
                      forall span | old(Alone(files, views, span)) :: result == Success(()) && Cornered(files, span))
      ensures old(Counted()) && result.Success? ==> Counted()
      ensures result == Failure(Divergence) ==> Stalled()
      ensures old(Hopeless(LogOf(files))) ==>
                result == Success(()) && DoomedAt(old(FrontSpan()))
    {
      hide *;
      InStepIsSane(files);
      WaitsInFront(LogOf(files));
      ElsewhereStill();
      StillIs();
      FollowingIs(views, before, files);
      if Still() {
        StillQueuesNothing();
      }
      AloneIs(files, views);
      var processed := ProcessInStep(now, files);
      InStepIsSane(files);
      if processed.Failure? {
        return Failure(processed.error);
      }
      if !processed.value {
        return Success(());
      }
      if old(Still()) {
        ElsewhereKept();
        StillAgain();
      }
      AloneIs(files, views);
      FollowingIs(views, before, files);
      assert forall span :: old(Alone(files, views, span)) ==> Alone(files, views, span);
      var polled := PollSources(now, views, before, files);
      if polled.Failure? {
        return polled;
      }
      PrimedWaits();
      if Pending().Some? || buffered != [] {
        return Success(());
      }
      FinishCycle(now, files);
      return Success(());
    }

    /** poll_once */
    method PollOnce(now: int, views: SourceId -> Views, ghost before: Files, ghost files: Files)
      returns (result: Result<()>)
      requires Valid() && ReadersOk()
      modifies readers, this`buffered, this`deferred, this`pendingBatch, this`pendingRejection, this`eventsReceived
      modifies this`eventsPublished, this`eventsRejected, this`ahead, this`inverted
      modifies queue`entries, queue`usage, queue`bytes, assembler, identifiers
      modifies disk`files, disk`temporaries, disk`twins, disk`rewritten, disk`visible, disk`committed, disk`landed
      ensures Valid() && ReadersOk()
      ensures !started || stopping ==> result == Failure(NotRunning)
      ensures old(Following(views, before, files)) ==>
                && Sane(files) && (result.Success? ==> InStep(files))
                && (NothingToOvertake(library, files) ==> inverted == old(inverted))
                && (Spacious() ==> inverted || result != Failure(Divergence))
                && (disk.healthy && started && !stopping ==>
                      forall span | old(Alone(files, views, span)) :: result == Success(()) && Cornered(files, span))
      ensures old(Counted()) && result.Success? ==> Counted()
      ensures result == Failure(Divergence) ==> Stalled()
      ensures old(Hopeless(LogOf(files)) && started && !stopping) ==>
                result == Success(()) && DoomedAt(old(FrontSpan()))
      ensures old(!Retryable()) ==> !Retryable() && pendingBatch == old(pendingBatch) && disk.View() == old(disk.View())
      ensures old(Doomed()) ==>
                && Doomed() && pendingRejection == old(pendingRejection)
                && RejectedEventPublisher.StuckHolding(old(disk.View()), disk.View(), pendingRejection.value)
    {
      hide *;
      WaitsInFront(LogOf(files));
      StillIs();
      AloneIs(files, views);
      FollowingIs(views, before, files);
      InStepIsSane(files);
      if !started || stopping {
        StuckStill();
        return Failure(NotRunning);
      }
      var retried := RetryInStep(files);
      InStepIsSane(files);
      FollowingIs(views, before, files);
      if !retried {
        return Success(());
      }
      AloneIs(files, views);
      assert forall span :: old(Alone(files, views, span)) ==> Alone(files, views, span);
      result := PollReady(now, views, before, files);
    }

    /** Nothing is held, and everything read is committed. */
    ghost predicate Finished()
      reads this`ahead, this`buffered, this`deferred, this`pendingBatch, this`pendingRejection, disk, queue, assembler
    {
      HeldCount() == 0 && Pending().None? && assembler.batch.None? && Ledger() == disk.committed
    }

    /** What shutdown does once nothing is pending. */
    method PublishAll(now: int, ghost files: Files) returns (done: Result<bool>)
      requires Valid() && Pending().None?
      modifies this`buffered, this`deferred, this`pendingBatch, this`pendingRejection, this`eventsPublished
      modifies this`eventsRejected
      modifies this`ahead, this`inverted
      modifies queue`entries, queue`usage, queue`bytes, assembler, identifiers
      modifies disk`files, disk`temporaries, disk`twins, disk`rewritten, disk`visible, disk`committed, disk`landed
      ensures Valid()
      ensures old(Sane(files)) ==>
                && Sane(files)
                && (NothingToOvertake(library, files) ==> inverted == old(inverted))
                && (NamedFiles(files) && Spacious() ==> inverted || done != Failure(Divergence))
                && (disk.healthy && old(Untroubled(LogOf(files))) ==> done == Success(true))
      ensures done == Success(true) ==>
                && Finished() && eventsPublished + eventsRejected == old(AllCount())
                && (old(buffered) == [] ==> old(BatchesTake(InHand())))
    {
      hide *;
      CountIs();
      UntroubledIs(LogOf(files));
      var processed := ProcessInStep(now, files);
      if processed.Failure? {
        return processed;
      }
      if !processed.value {
        return Success(false);
      }
      CountIs();
      UntroubledIs(LogOf(files));
      var drained := DrainInStep(now, files);
      if !drained {
        return Success(false);
      }
      SetAsideIsFront([]);
      WaitingIs();
      NotPendingIsRetryable();
      var flushed := FlushInStep(files);
      if !flushed || Pending().Some? || deferred.Some? || buffered != [] || queue.Contents() != [] {
        return Success(false);
      }
      NothingHeld();
      FinishedIs();
      CountIs();
      return Success(true);
    }

    /** Nothing but the records held can stand in the way of shutdown. */
    ghost predicate Stoppable(files: Files)
      reads this, disk, queue, assembler, identifiers
    {
      Sane(files) && !inverted && NamedFiles(files) && Retryable() && started && !stopping
    }

    ghost predicate Finishing(files: Files)
      reads this, disk, queue, assembler, identifiers
    {
      Stoppable(files) && Untroubled(LogOf(files))
    }

    lemma StoppableIs(files: Files)
      ensures Stoppable(files) <==>
                Sane(files) && !inverted && NamedFiles(files) && Retryable() && started && !stopping
      ensures Finishing(files) <==> Stoppable(files) && Untroubled(LogOf(files))
    {
      hide Sane, Retryable, NamedFiles, Untroubled, LogOf;
    }

    /** With nothing buffered, what batches take is untroubled. */
    lemma TakenIsUntroubled(files: Files)
      requires Valid() && Sane(files) && !inverted && NamedFiles(files) && buffered == [] && BatchesTake(InHand())
      ensures Untroubled(LogOf(files))
    {
      hide Assembling, BoundedEventQueue.Queue.Valid, Springs, InHand, Safe, Numbered, InOrder, Lawful, Credentials,
        NamedFiles, BatchAssembler.EventOk, BatchAssembler.Representable, Mentions, Ledger, LogOf;
      forall e | e in InHand() ensures BatchAssembler.Representable(e, MAXIMUM_BATCH_BYTES) {
        SpringsIsHeld(library, files, e);
      }
    }

    /**
     * shutdown: it returns normally only when nothing is left to publish. On a disk that works it does when no record
     * held will be refused by a batch; with nothing buffered, exactly then.
     */
    method Shutdown(now: int, ghost files: Files) returns (result: Result<()>)
      requires Valid()
      modifies this`buffered, this`deferred, this`pendingBatch, this`pendingRejection, this`stopping
      modifies this`eventsPublished, this`eventsRejected, this`ahead, this`inverted
      modifies queue`entries, queue`usage, queue`bytes, assembler, identifiers
      modifies disk`files, disk`temporaries, disk`twins, disk`rewritten, disk`visible, disk`committed, disk`landed
      ensures Valid()
      ensures old(!started || stopping) ==> result == Failure(NotRunning)
      ensures old(Sane(files)) && NothingToOvertake(library, files) ==> inverted == old(inverted)
      ensures old(Sane(files)) ==> Sane(files)
      ensures old(Sane(files)) && NamedFiles(files) && Spacious() ==> inverted || result != Failure(Divergence)
      ensures result.Success? ==> Finished()
      ensures disk.healthy && old(Finishing(files)) ==> result.Success?
      ensures disk.healthy && old(buffered == [] && Stoppable(files)) ==>
                (result.Success? <==> old(BatchesTake(InHand())))
      ensures result.Success? && old(Counted()) ==> eventsReceived == eventsPublished + eventsRejected
      ensures old(!Retryable()) ==>
                result.Failure? && !Retryable() && pendingBatch == old(pendingBatch) && disk.View() == old(disk.View())
      ensures old(Doomed()) ==>
                && result.Failure? && Doomed() && pendingRejection == old(pendingRejection)
                && RejectedEventPublisher.StuckHolding(old(disk.View()), disk.View(), pendingRejection.value)
    {
      hide *;
      StoppableIs(files);
      SaneIs(files);
      UntroubledIs(LogOf(files));
      CountedIs();
      CountIs();
      if Stoppable(files) && buffered == [] && BatchesTake(InHand()) {
        TakenIsUntroubled(files);
      }
      if !started || stopping {
        StuckStill();
        return Failure(NotRunning);
      }
      stopping := true;
      var retried := RetryInStep(files);
      SaneIs(files);
      UntroubledIs(LogOf(files));
      CountedIs();
      CountIs();
      if !retried {
        return Failure(ShutdownIncomplete);
      }
      var done := PublishAll(now, files);
      if done.Failure? {
        return Failure(done.error);
      }
      return if done.value then Success(()) else Failure(ShutdownIncomplete);
    }

    lemma NothingHeld()
      requires deferred.None? && buffered == [] && queue.Contents() == [] && assembler.batch.None? && Pending().None?
      ensures Finished() && Ledger() == disk.committed
    {
      NothingAssembled();
      assert SpansOfEvents(queue.Contents()) == [] && SpansOfInputs(buffered) == [];
    }

    lemma FinishedIs()
      ensures Finished() ==> HeldCount() == 0
    {
      hide HeldCount, Ledger;
    }

    // ---------------------------------------------------------------- start

    /** The sources are configured as the theorems assume: growing files, read from their start. */
    ghost predicate Configured(files: Files) {
      && NamedFiles(files)
      && (forall i | 0 <= i < |settings| :: settings[i].enabled ==>
            settings[i].fileDrop && settings[i].startPosition.Oldest? && settings[i].id in files)
      && (exists i :: 0 <= i < |settings| && settings[i].enabled)
    }

    /** The durable state after a crash: sound, whatever publication is held. */
    ghost predicate Restartable(log: Log, held: Option<Document>)
      reads disk, identifiers
    {
      && Sound(collectorId, log, disk.View(), held) && Issued(identifiers.next, disk.View())
      && (held.Some? ==> IsPublication(held.value) && IdOf(held.value) < identifiers.next)
    }

    /** Nothing has been read yet. */
    predicate Idle()
      reads this`buffered, this`deferred, this`pendingBatch, this`pendingRejection, this`ahead, this`inverted
      reads this`readers, this`started, this`eventsReceived, this`eventsPublished, this`eventsRejected, queue, assembler
    {
      && buffered == [] && deferred == None && pendingBatch == None && pendingRejection == None
      && queue.Contents() == [] && assembler.batch == None && readers == [] && !started
      && eventsReceived == eventsPublished == eventsRejected == 0
    }

    /** Whatever recovering the held publication came to, the next start finds a sound state. */
    lemma StillRestartable(log: Log, before: Durable, document: Document)
      requires Issued(identifiers.next, before) && IsPublication(document) && IdOf(document) < identifiers.next
      requires Ready(collectorId, log, disk.View(), document) && Shown(before.visible, disk.visible, document)
      requires disk.landed == before.landed || disk.landed == before.landed + {IdOf(document)}
      ensures Issued(identifiers.next, disk.View())
      ensures Sound(collectorId, log, disk.View(), None) || Sound(collectorId, log, disk.View(), Some(document))
    {
      hide Sound, Next, Acceptable;
    }

    /** The held publication is committed, once. */
    ghost predicate Settled(before: Durable, document: Document)
      reads disk
    {
      IsPublication(document) && IdOf(document) in disk.landed && disk.committed == Outstanding(before, document)
    }

    method RecoverBatches(ghost log: Log, ghost held: Option<Document>)
      returns (outcome: Result<()>, ghost left: Option<Document>)
      requires Valid()
      modifies disk`files, disk`temporaries, disk`twins, disk`rewritten, disk`visible, disk`committed, disk`landed
      ensures old(Restartable(log, held)) ==>
                && Restartable(log, left) && (left == None || left == held)
                && (outcome.Success? && left.Some? ==> !left.value.BatchDocument?)
                && (outcome.Success? && held.Some? && held.value.BatchDocument? ==>
                    Settled(old(disk.View()), held.value))
                && (held.Some? && !held.value.BatchDocument? ==>
                      left == held && disk.committed == old(disk.committed) && disk.landed == old(disk.landed))
                && (disk.healthy ==> (outcome.Success? <==> Reloadable(held)))
      ensures old(OutboxPublisher.Wedged(disk.files)) ==> outcome.Failure? && disk.View() == old(disk.View())
      ensures old(OutboxPublisher.SealedPaths(disk.files)) == {} ==> disk.View() == old(disk.View())
    {
      hide Reparsable, OutboxPublisher.Wedged;
      hide Sound, Ready, Wired, Assembling, BoundedEventQueue.Queue.Valid;
      Wiring();
      left := held;
      var at := Now();
      var recovered := outbox.Recover(at, log, held);
      if old(Restartable(log, held)) && held.Some? && held.value.BatchDocument? {
        StillRestartable(log, old(disk.View()), held.value);
        left := if recovered.Success? || Sound(collectorId, log, disk.View(), None) then None else held;
      }
      return if recovered.Success? then Success(()) else Failure(recovered.error), left;
    }

    method RecoverRejections(ghost log: Log, ghost held: Option<Document>)
      returns (outcome: Result<()>, ghost left: Option<Document>)
      requires Valid()
      modifies disk`files, disk`temporaries, disk`twins, disk`rewritten, disk`visible, disk`committed, disk`landed
      ensures old(Restartable(log, held)) ==>
                && Restartable(log, left) && (left == None || left == held)
                && (outcome.Success? && left.Some? ==> !left.value.RejectionDocument?)
                && (outcome.Success? && held.Some? && held.value.RejectionDocument? ==>
                    Settled(old(disk.View()), held.value))
                && (held.None? ==> disk.committed == old(disk.committed) && disk.landed == old(disk.landed))
                && (disk.healthy ==> outcome.Success?)
      ensures old(RejectedEventPublisher.PendingPaths(disk.files)) == {} ==> disk.View() == old(disk.View())
      ensures forall r: RejectedEvent :: old(RejectedEventPublisher.OnlyPending(disk.files, r) && Behind(r.source)) ==>
                outcome.Failure? && RejectedEventPublisher.Stuck(old(disk.View()), disk.View(), r)
    {
      hide Sound, Ready, Wired, Assembling, BoundedEventQueue.Queue.Valid, RejectedEventPublisher.OnlyPending,
        RejectedEventPublisher.Stuck, AnyRegression;
      Wiring();
      left := held;
      var at := Now();
      forall r: RejectedEvent ensures Behind(r.source) == rejected.Overtaken(r) {
        MarksOfRejection(r);
      }
      var recovered := rejected.Recover(at, log, held);
      if old(Restartable(log, held)) && held.Some? && held.value.RejectionDocument? {
        StillRestartable(log, old(disk.View()), held.value);
        left := if recovered.Success? || Sound(collectorId, log, disk.View(), None) then None else held;
      }
      return if recovered.Success? then Success(()) else Failure(recovered.error), left;
    }

    /** This rejection waits on the disk, alone, and the checkpoint has overtaken it. */
    ghost predicate Abandoned(rejection: RejectedEvent)
      reads disk
    {
      && RejectedEventPublisher.OnlyPending(disk.files, rejection) && Behind(rejection.source)
      && OutboxPublisher.SealedPaths(disk.files) == {}
    }

    /** Both recoveries, and what they leave held. */
    method Recover(ghost log: Log, ghost held: Option<Document>)
      returns (outcome: Result<()>, ghost left: Option<Document>)
      requires Valid()
      modifies disk`files, disk`temporaries, disk`twins, disk`rewritten, disk`visible, disk`committed, disk`landed
      ensures old(Restartable(log, held)) ==>
                && Restartable(log, left) && (outcome.Success? ==> left == None)
                && (outcome.Success? && held.Some? ==> Settled(old(disk.View()), held.value))
                && (disk.healthy ==> (outcome.Success? <==> Reloadable(held)))
      ensures old(OutboxPublisher.Wedged(disk.files)) ==> outcome.Failure? && disk.View() == old(disk.View())
      ensures old(OutboxPublisher.SealedPaths(disk.files) == {}
              && RejectedEventPublisher.PendingPaths(disk.files) == {}) ==>
                disk.View() == old(disk.View())
      ensures forall r | old(Abandoned(r)) ::
                outcome.Failure? && RejectedEventPublisher.Stuck(old(disk.View()), disk.View(), r)
    {
      hide Reparsable, OutboxPublisher.Wedged;
      hide Sound, Wired, Assembling, BoundedEventQueue.Queue.Valid, Issued, RejectedEventPublisher.OnlyPending,
        AnyRegression, OutboxPublisher.SealedPaths, RejectedEventPublisher.Stuck;
      forall r: RejectedEvent ensures RejectedEventPublisher.Stuck(disk.View(), disk.View(), r) {
        RejectedEventPublisher.SameIsStuck(disk.View(), r);
      }
      outcome, left := RecoverBatches(log, held);
      if outcome.Failure? {
        return;
      }
      outcome, left := RecoverRejections(log, left);
      if left.Some? && old(Restartable(log, held)) {
        HeldIsPublication(log, left);
      }
    }

    /**
     * Recovery is closed and idempotent: from any state a crash can leave, on a disk that works, it commits what was
     * held and leaves nothing held exactly when what was held can be read back; running it again changes nothing.
     */
    method RecoverTwice(ghost log: Log, ghost held: Option<Document>) returns (recovered: bool)
      requires Valid() && Restartable(log, held) && disk.healthy
      modifies disk`files, disk`temporaries, disk`twins, disk`rewritten, disk`visible, disk`committed, disk`landed
      ensures recovered <==> Reloadable(held)
      ensures recovered ==>
                && Restartable(log, None)
                && (forall p: Path | p in disk.files :: !IsHold(p) && !p.ManifestPath?)
                && (held.Some? ==>
                      IdOf(held.value) in disk.landed && disk.committed == old(Outstanding(disk.View(), held.value)))
    {
      hide Wired, Assembling, BoundedEventQueue.Queue.Valid, Sound, AnyRegression, Reparsable;
      var first, left := Recover(log, held);
      if first.Failure? {
        return false;
      }
      NothingIsHeld(log);
      ghost var once := disk.View();
      var second, still := Recover(log, None);
      assert second.Success? && disk.View() == once;
      return true;
    }

    lemma NothingIsHeld(log: Log)
      requires Restartable(log, None)
      ensures forall p: Path | p in disk.files :: !IsHold(p) && !p.ManifestPath?
      ensures OutboxPublisher.SealedPaths(disk.files) == {} && RejectedEventPublisher.PendingPaths(disk.files) == {}
    {
      forall p: Path | p in disk.files ensures !IsHold(p) && !p.ManifestPath? {
        assert ShapedAt(collectorId, disk.View(), p);
        assert p.ManifestPath? ==> IsHold(SealedPath(p.id));
      }
      assert forall p | p in OutboxPublisher.SealedPaths(disk.files) :: IsHold(p);
      assert forall p | p in RejectedEventPublisher.PendingPaths(disk.files) :: IsHold(p);
    }

    lemma HeldIsPublication(log: Log, held: Option<Document>)
      requires Restartable(log, held) && held.Some?
      ensures held.value.BatchDocument? || held.value.RejectionDocument?
    {
    }

    /** Reading resumes where the checkpoint stands. */
    method OpenSource(setting: SourceSettings, marks: Marks, ghost files: Files) returns (result: Result<Reader>)
      requires Valid()
      ensures result.Success? ==>
                && fresh(result.value) && result.value.Valid() && result.value.library == library
                && result.value.options.sourceId == setting.id && Standard(result.value.options)
      ensures (&& Sound(collectorId, LogOf(files), disk.View(), None) && marks == CheckpointMarks(disk.files)
               && NamedFiles(files) && setting.id in files && setting.fileDrop && setting.startPosition.Oldest?) ==>
                result.Success? && Followed(files, result.value, disk.committed)
    {
      hide Wired, Assembling, BoundedEventQueue.Queue.Valid, Sound, LogOf, RecordsBefore, Of, Reader.At,
        CheckpointMarks;
      if !setting.fileDrop {
        return Failure(NotRunning);
      }
      if setting.id == [] {
        return Failure(ReaderError);
      }
      if Sound(collectorId, LogOf(files), disk.View(), None) && setting.id in files {
        ResumesAt(collectorId, files, disk.View(), setting.id);
      }
      var resume :- ResumeOf(marks, setting.id);
      var reader := new Reader(library, OptionsOf(setting.id, setting.startPosition, resume));
      return Success(reader);
    }

    /** The readers of all enabled sources. */
    method OpenSources(marks: Marks, ghost files: Files) returns (result: Result<seq<Reader>>)
      requires Valid()
      ensures result.Success? ==>
                && fresh(set r | r in result.value) && |result.value| <= |settings|
                && (forall i | 0 <= i < |result.value| ::
                      && result.value[i].Valid() && result.value[i].library == library
                      && Standard(result.value[i].options))
                && (forall i, j | 0 <= i < j < |result.value| ::
                      result.value[i] != result.value[j]
                      && result.value[i].options.sourceId != result.value[j].options.sourceId)
      ensures (&& Sound(collectorId, LogOf(files), disk.View(), None) && marks == CheckpointMarks(disk.files)
              && Configured(files)) ==>
                && result.Success? && result.value != []
                && forall i | 0 <= i < |result.value| :: Followed(files, result.value[i], disk.committed)
    {
      hide Assembling, BoundedEventQueue.Queue.Valid, Sound, LogOf, NamedFiles, Followed, CheckpointMarks, Reader.Valid,
        Lawful, Credentials;
      var sources: seq<Reader> := [];
      for i := 0 to |settings|
        invariant fresh(set r | r in sources) && |sources| <= i
        invariant forall k | 0 <= k < |sources| ::
                    && sources[k].Valid() && sources[k].library == library && Standard(sources[k].options)
                    && exists n :: 0 <= n < i && settings[n].id == sources[k].options.sourceId
        invariant forall k, m | 0 <= k < m < |sources| ::
                    sources[k] != sources[m] && sources[k].options.sourceId != sources[m].options.sourceId
        invariant (&& Sound(collectorId, LogOf(files), disk.View(), None) && marks == CheckpointMarks(disk.files)
                && Configured(files)) ==>
                    && (forall k | 0 <= k < |sources| :: Followed(files, sources[k], disk.committed))
                    && (sources == [] ==> forall n | 0 <= n < i :: !settings[n].enabled)
      {
        if settings[i].enabled {
          var reader :- OpenSource(settings[i], marks, files);
          sources := sources + [reader];
        }
      }
      return Success(sources);
    }

    /** An idle pipeline on a sound disk is in step with readers that resume at the checkpoint. */
    lemma IdleIsInStep(files: Files)
      requires Valid() && Restartable(LogOf(files), None)
      requires buffered == [] && deferred == None && Pending() == None && queue.Contents() == []
               && assembler.batch == None
      requires forall i | 0 <= i < |readers| :: Followed(files, readers[i], disk.committed)
      ensures InStep(files)
    {
      hide Wired, Assembling, BoundedEventQueue.Queue.Valid, LogOf, Followed, InOrder, Ledger, Issued;
      NothingHeld();
      SoundIsInOrder(LogOf(files));
      forall i | 0 <= i < |readers| ensures Followed(files, readers[i], Ledger()) {
      }
    }

    lemma TracedGrows(files: Files, longer: Files)
      requires Longer(files, longer) && AllTraced(files)
      ensures AllTraced(longer)
    {
      hide Springs, RefusedAt, InHand, Longer, SpanOfInput;
      forall e | e in InHand() ensures Springs(library, longer, MappedInput(e)) {
        SpringsGrows(library, files, longer, MappedInput(e));
      }
      forall x | x in buffered ensures Springs(library, longer, x) {
        SpringsGrows(library, files, longer, x);
      }
      if ahead && buffered != [] {
        RefusedGrows(library, files, longer, SpanOfInput(buffered[0]));
      }
    }

    /** The files may grow while records are held. */
    lemma InStepGrows(files: Files, longer: Files)
      requires InStep(files) && !inverted && Longer(files, longer)
      ensures InStep(longer) && Low(files)
    {
      hide InOrder, Ledger, LogOf, AllCarried, InputsCarried, Numbered, Reader.Follows, Reader.Floor, Reader.Position,
        RecordsBefore, Of, Sound, Ready, AllTraced;
      TracedGrows(files, longer);
      LogGrows(files, longer);
      LogIsOrdered(longer);
      InOrderGrows(LogOf(files), LogOf(longer), Ledger());
      if Pending().Some? {
        ReadyGrows(collectorId, LogOf(files), LogOf(longer), disk.View(), Pending().value);
      } else {
        SoundGrows(collectorId, LogOf(files), LogOf(longer), disk.View(), None);
      }
      forall i | 0 <= i < |readers|
        ensures Followed(longer, readers[i], Ledger()) && LowReader(files, readers[i])
      {
        assert Followed(files, readers[i], Ledger());
        var id := readers[i].options.sourceId;
        FollowsGrows(readers[i], files[id], longer[id]);
        RecordsBeforeGrow(files, longer, id, readers[i].Position());
      }
    }

    lemma SoundIsInOrder(log: Log)
      ensures Sound(collectorId, log, disk.View(), None) ==> InOrder(log, disk.committed)
    {
    }

    /**
     * start: recover both publication paths, load the checkpoint, and resume every source there. From any
     * sound state it ends in step with the files; without faults it does not fail.
     */
    method Start(ghost files: Files, ghost held: Option<Document>)
      returns (result: Result<()>, ghost left: Option<Document>)
      requires Valid() && Idle()
      modifies this`readers, this`started, disk`files, disk`temporaries, disk`twins, disk`rewritten, disk`visible
      modifies disk`committed, disk`landed
      ensures Valid() && Counted()
      ensures fresh(set r | r in readers)
      ensures ReadersOk()
      ensures old(Restartable(LogOf(files), held)) ==>
                && Restartable(LogOf(files), left)
                && (Configured(files) && result.Success? ==>
                    left == None && InStep(files) && disk.committed == Ledger())
                && (Configured(files) && disk.healthy ==> (result.Success? <==> Reloadable(held)))
      ensures old(OutboxPublisher.Wedged(disk.files)) ==> result.Failure? && disk.View() == old(disk.View())
      ensures result.Success? ==> started && 1 <= |readers| <= |settings|
      ensures old(OutboxPublisher.SealedPaths(disk.files) == {}
              && RejectedEventPublisher.PendingPaths(disk.files) == {}) ==>
                disk.View() == old(disk.View())
      ensures forall r | old(Abandoned(r)) ::
                result.Failure? && RejectedEventPublisher.Stuck(old(disk.View()), disk.View(), r)
    {
      hide *;
      IdleIsCounted();
      ReadersAre();
      var recovered;
      recovered, left := Recover(LogOf(files), held);
      if recovered.Failure? {
        return Failure(recovered.error), left;
      }
      RestartableIs(LogOf(files));
      var checkpoint := LoadCheckpoint(LogOf(files));
      if checkpoint.Failure? {
        return Failure(checkpoint.error), left;
      }
      var sources := OpenSources(checkpoint.value, files);
      if sources.Failure? {
        return Failure(sources.error), left;
      }
      if sources.value == [] {
        return Failure(NotRunning), left;
      }
      readers := sources.value;
      started := true;
      ReadersAre();
      NothingHeld();
      if old(Restartable(LogOf(files), held)) && Configured(files) {
        IdleIsInStep(files);
      }
      return Success(()), left;
    }

    lemma IdleIsCounted()
      ensures Idle() ==>
                && Counted() && buffered == [] && deferred == None && Pending() == None && queue.Contents() == []
                && assembler.batch == None
                && readers == []
    {
    }

    lemma ReadersAre()
      ensures && (forall i | 0 <= i < |readers| ::
                    readers[i].Valid() && readers[i].library == library && Standard(readers[i].options))
              && (forall i, j | 0 <= i < j < |readers| ::
                    readers[i] != readers[j] && readers[i].options.sourceId != readers[j].options.sourceId)
              ==> ReadersOk()
    {
      hide Reader.Valid, Standard;
    }

    lemma RestartableIs(log: Log)
      ensures Restartable(log, None) ==> Sound(collectorId, log, disk.View(), None)
    {
      hide Sound, Issued;
    }

    /** The checkpoint's positions. */
    method LoadCheckpoint(ghost log: Log) returns (marks: Result<Marks>)
      requires Valid()
      ensures Sound(collectorId, log, disk.View(), None) ==>
                && (marks.Success? ==> marks.value == CheckpointMarks(disk.files))
                && (disk.healthy ==> marks.Success?)
    {
      hide Wired, Assembling, BoundedEventQueue.Queue.Valid, Sound;
      Wiring();
      if Sound(collectorId, log, disk.View(), None) {
        SoundIsReadable(log);
      }
      var loaded :- checkpoints.Load();
      if loaded.None? {
        return Success(map[]);
      }
      if loaded.value.collectorId != collectorId {
        return Failure(ForeignCollector);
      }
      return Success(loaded.value.sources);
    }

    lemma SoundIsReadable(log: Log)
      requires Sound(collectorId, log, disk.View(), None)
      ensures Readable(disk.files, collectorId)
    {
      hide Acceptable;
      if CheckpointPath in disk.files {
        assert ShapedAt(collectorId, disk.View(), CheckpointPath);
      }
    }

    // ---------------------------------------------------------------- what is left behind

    /** The publication a crash would leave held. */
    ghost function LeftHeld(log: Log): Option<Document>
      reads this`pendingBatch, this`pendingRejection, disk
    {
      if Pending().Some? && Sound(collectorId, log, disk.View(), Pending()) then Pending() else None
    }

    /** A crash at any point of a sane run leaves a state from which the next start recovers. */
    lemma GoodIsRestartable(log: Log)
      requires Valid() && Good(log)
      ensures Restartable(log, LeftHeld(log))
    {
      hide Sound, InOrder, AllCarried, InputsCarried, Ledger, Wired, Assembling, BoundedEventQueue.Queue.Valid, Issued;
      if Pending().Some? {
        ReadyIsSound(log, Pending().value);
      }
    }

    lemma ReadyIsSound(log: Log, document: Document)
      requires Ready(collectorId, log, disk.View(), document)
      ensures Sound(collectorId, log, disk.View(), None) || Sound(collectorId, log, disk.View(), Some(document))
    {
      hide Sound, Next, Acceptable;
    }

    lemma FirstInHand()
      ensures RefusedFirst() ==> queue.Contents() != []
    {
      hide BatchAssembler.EventOk;
    }

    /** With the refused event in front and a later one of its source queued, nothing else is in the way. */
    lemma IsHopeless(log: Log, queued: seq<ContractEvent>)
      requires Valid() && Good(log) && Pending().None? && ahead && disk.healthy && queued != [] && FirstSetAside(queued)
      requires Mentions(SpansOfEvents(queued[1..]), SpanOf(queued[0]).source)
      requires forall e | e in queued[1..] :: BatchAssembler.Representable(e, MAXIMUM_BATCH_BYTES)
      ensures Hopeless(log) && FrontSpan() == SpanOf(queued[0])
    {
      hide Wired, Assembling, BoundedEventQueue.Queue.Valid, Good, SpansOfEvents, Mentions,
        BatchAssembler.Representable, SpanOf, SpanOfInput;
    }

    /**
     * Losing the order blocks the collector. Whenever the next queued event is refused and a later one of its source
     * waits behind it, the end of one poll and the start of the next commit the later event first. The refused one's
     * rejection is then overtaken: its audit record is visible, and its position is never committed.
     */
    method OvertakeRefused(now: int, ghost log: Log)
      requires Valid() && Good(log) && Pending().None? && !ahead && !inverted && disk.healthy
      requires RefusedFirst() && Mentions(SpansOfEvents(queue.Contents()[1..]), SpanOf(queue.Contents()[0]).source)
      requires forall e | e in queue.Contents()[1..] :: BatchAssembler.Representable(e, MAXIMUM_BATCH_BYTES)
      modifies this`buffered, this`deferred, this`pendingBatch, this`pendingRejection, this`eventsPublished
      modifies this`eventsRejected
      modifies this`ahead, this`inverted
      modifies queue`entries, queue`usage, queue`bytes, assembler, identifiers
      modifies disk`files, disk`temporaries, disk`twins, disk`rewritten, disk`visible, disk`committed, disk`landed
      ensures Valid() && DoomedAt(SpanOf(old(queue.Contents())[0]))
    {
      hide *;
      ghost var queued := queue.Contents();
      FirstInHand();
      NotAheadIs();
      NotPendingIsRetryable();
      var drained := DrainQueue(now, log, map[]);
      IsHopeless(log, queued);
      var processed := ProcessBufferedInputs(now, log, map[]);
    }
  }
}
