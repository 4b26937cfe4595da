/** Heartbeats: a sequence number is reserved durably before it is published. */
module HeartbeatPublisher {
  import opened Exceptions
  import opened Octets
  import opened Documents
  import opened FileSystem
  import opened OperationalMetrics
  import Protocol

  const HEARTBEAT_INTERVAL := 30

  /** The sequence numbers of the heartbeats that were ever visible, in order. */
  class History {
    ghost var seen: seq<nat>

    constructor ()
      ensures seen == []
    {
      seen := [];
    }

    ghost method Record(sequence: nat)
      modifies this
      ensures seen == old(seen) + [sequence]
    {
      seen := seen + [sequence];
    }
  }

  ghost predicate Increasing(sequences: seq<nat>) {
    forall i, j | 0 <= i < j < |sequences| :: sequences[i] < sequences[j]
  }

  /** The least number that may still be used: what the state file says, or zero. */
  function Reserved(files: map<Path, Content>): nat {
    if SequencePath in files && files[SequencePath].Whole? && files[SequencePath].document.SequenceDocument?
    then files[SequencePath].document.nextSequence
    else 0
  }

  /** What holds on the disk after any crash. */
  ghost predicate Durable(collectorId: Text, files: map<Path, Content>, seen: seq<nat>) {
    && (SequencePath in files ==>
          && files[SequencePath].Whole? && files[SequencePath].document.SequenceDocument?
          && files[SequencePath].document.collectorId == collectorId
          && files[SequencePath].document.nextSequence <= MAXIMUM_SAFE_COUNTER)
    && Increasing(seen)
    && (forall i | 0 <= i < |seen| :: seen[i] < Reserved(files))
    && (HeartbeatPath in files ==>
          seen != [] && files[HeartbeatPath] == Whole(HeartbeatDocument(collectorId, seen[|seen| - 1])))
  }

  class Publisher {
    const collectorId: Text
    const disk: Disk
    var nextSequence: nat
    var lastPublishedAt: Option<int>

    constructor Resume(collectorId: Text, disk: Disk, nextSequence: nat)
      ensures this.collectorId == collectorId && this.disk == disk
      ensures this.nextSequence == nextSequence && lastPublishedAt == None
    {
      this.collectorId, this.disk, this.nextSequence, lastPublishedAt := collectorId, disk, nextSequence, None;
    }

    /** Memory is never behind the disk. */
    ghost predicate Ahead()
      reads this, disk
    {
      Reserved(disk.files) <= nextSequence
    }

    /** reserve_sequence: the number after the reserved one is durable before the reserved one is used. */
    method ReserveSequence(ghost history: History) returns (sequence: Result<nat>)
      modifies this`nextSequence, disk`files, disk`temporaries, disk`twins, disk`rewritten, disk`visible
      ensures old(Ahead()) ==> Ahead()
      ensures sequence.Success? ==>
                && sequence.value == old(nextSequence) < MAXIMUM_SAFE_COUNTER
                && SequencePath in disk.files
                && disk.files[SequencePath] == Whole(SequenceDocument(collectorId, sequence.value + 1))
      ensures old(Ahead() && Durable(collectorId, disk.files, history.seen)) ==>
                Durable(collectorId, disk.files, history.seen)
      ensures sequence.Failure? && sequence.error == SequenceExhausted ==> disk.files == old(disk.files)
      ensures disk.healthy && old(nextSequence) < MAXIMUM_SAFE_COUNTER ==> sequence.Success?
    {
      if nextSequence >= MAXIMUM_SAFE_COUNTER {
        return Failure(SequenceExhausted);
      }
      var reserved := nextSequence;
      nextSequence := nextSequence + 1;
      :- disk.WriteTemporary(SequencePath, SequenceDocument(collectorId, nextSequence));
      :- disk.ReplaceByTemporary(SequencePath);
      return Success(reserved);
    }

    /** publish_locked; building and signing the heartbeat may fail after the number is reserved. */
    method PublishLocked(ghost history: History) returns (outcome: Result<nat>)
      modifies this`nextSequence, disk`files, disk`temporaries, disk`twins, disk`rewritten, disk`visible, history
      ensures old(Ahead()) ==> Ahead()
      ensures old(Ahead() && Durable(collectorId, disk.files, history.seen)) ==>
                Durable(collectorId, disk.files, history.seen)
      ensures history.seen == old(history.seen) || history.seen == old(history.seen) + [old(nextSequence)]
      ensures outcome.Success? ==> history.seen == old(history.seen) + [outcome.value]
    {
      var sequence :- ReserveSequence(history);
      var unsigned: bool := *;
      if unsigned {
        return Failure(ContractError);
      }
      :- disk.WriteTemporary(HeartbeatPath, HeartbeatDocument(collectorId, sequence));
      ghost var before := disk.files;
      var replaced := disk.ReplaceByTemporary(HeartbeatPath);
      if replaced.Pass? || disk.files != before {
        history.Record(sequence);
      }
      :- replaced;
      return Success(sequence);
    }

    /** publish_if_due */
    method PublishIfDue(now: int, ghost history: History) returns (outcome: Result<Option<nat>>)
      modifies this, disk`files, disk`temporaries, disk`twins, disk`rewritten, disk`visible, history
      ensures old(Ahead()) ==> Ahead()
      ensures old(Ahead() && Durable(collectorId, disk.files, history.seen)) ==>
                Durable(collectorId, disk.files, history.seen)
      ensures old(history.seen) <= history.seen
      ensures outcome == Success(None) <==>
                old(lastPublishedAt.Some? && now - lastPublishedAt.value < HEARTBEAT_INTERVAL)
      ensures outcome == Success(None) ==> unchanged(this) && unchanged(disk) && history.seen == old(history.seen)
      ensures lastPublishedAt == if outcome.Success? && outcome.value.Some? then Some(now) else old(lastPublishedAt)
    {
      if lastPublishedAt.Some? && now - lastPublishedAt.value < HEARTBEAT_INTERVAL {
        return Success(None);
      }
      var sequence :- PublishLocked(history);
      lastPublishedAt := Some(now);
      return Success(Some(sequence));
    }
  }

  /** The constructor's check of the state file. */
  method Open(collectorId: Text, disk: Disk) returns (publisher: Result<Publisher>)
    ensures publisher.Success? ==>
              && fresh(publisher.value) && publisher.value.disk == disk && publisher.value.collectorId == collectorId
              && publisher.value.nextSequence == Reserved(disk.files)
    ensures disk.healthy && (exists seen :: Durable(collectorId, disk.files, seen)) ==> publisher.Success?
  {
    var found :- disk.Exists(SequencePath);
    var next := 0;
    if found {
      var content :- disk.Read(SequencePath);
      match content {
        case Whole(SequenceDocument(owner, sequence)) =>
          if owner != collectorId || sequence > MAXIMUM_SAFE_COUNTER {
            return Failure(ContractError);
          }
          next := sequence;
        case _ => return Failure(ContractError);
      }
    }
    var created := new Publisher.Resume(collectorId, disk, next);
    return Success(created);
  }

  datatype Beat = Restart | Due(now: int) | ShuttingDown

  /**
   * Heartbeat sequence numbers never repeat: whatever fails, and whenever the collector crashes and restarts,
   * the numbers that became visible strictly increase.
   */
  method Monitor(collectorId: Text, disk: Disk, beats: seq<Beat>, ghost history: History)
    requires Durable(collectorId, disk.files, history.seen)
    modifies disk`files, disk`temporaries, disk`twins, disk`rewritten, disk`visible, history
    ensures Durable(collectorId, disk.files, history.seen)
    ensures old(history.seen) <= history.seen && Increasing(history.seen)
  {
    var publisher: Publisher? := null;
    for i := 0 to |beats|
      invariant publisher != null ==>
                fresh(publisher) && publisher.disk == disk && publisher.collectorId == collectorId && publisher.Ahead()
      invariant Durable(collectorId, disk.files, history.seen)
      invariant old(history.seen) <= history.seen
    {
      match beats[i] {
        case Restart =>
          var opening := Open(collectorId, disk);
          publisher := if opening.Success? then opening.value else null;
        case Due(now) =>
          if publisher != null {
            var outcome := publisher.PublishIfDue(now, history);
          }
        case ShuttingDown =>
          if publisher != null {
            var outcome := publisher.PublishLocked(history);
          }
      }
    }
  }

  /** Writing heartbeats beside a publication does not disturb the publication protocol. */
  lemma HeartbeatsKeepSound(collectorId: Text, log: Protocol.Log, d: Protocol.Durable, held: Option<Document>,
          path: Path, document: Document)
    requires Protocol.Sound(collectorId, log, d, held) && (path == SequencePath || path == HeartbeatPath)
    ensures Protocol.Sound(collectorId, log, d.(files := d.files[path := Whole(document)]), held)
  {
    hide Protocol.Acceptable, Protocol.Of, Protocol.InOrder, Protocol.Next, Protocol.Ordered;
    var after := d.(files := d.files[path := Whole(document)]);
    forall p | p in after.files ensures Protocol.ShapedAt(collectorId, after, p) {
      if p != path {
        assert Protocol.ShapedAt(collectorId, d, p);
      }
    }
    assert Protocol.CheckpointMarks(after.files) == Protocol.CheckpointMarks(d.files);
    assert held.Some? ==> Protocol.Next(log, after, held.value) by {
      SameNext(log, d, after, held);
    }
  }

  lemma SameNext(log: Protocol.Log, d: Protocol.Durable, after: Protocol.Durable, held: Option<Document>)
    requires after == d.(files := after.files)
    ensures held.Some? && IsPublication(held.value) && Protocol.Next(log, d, held.value) ==>
              Protocol.Next(log, after, held.value)
  {
  }
}
