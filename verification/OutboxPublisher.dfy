/** Durable publication of signed event batches, and its recovery after a crash. */
module OutboxPublisher {
  import opened Exceptions
  import opened Octets
  import opened Contract
  import opened Documents
  import opened FileSystem
  import opened Serialization
  import opened Protocol
  import opened CheckpointStore
  import opened Lexicographic

  /** positions_for */
  method PositionsFor(batch: EventBatch) returns (positions: Marks)
    ensures positions == MarksOfEvents(batch.events)
  {
    positions := map[];
    for i := 0 to |batch.events|
      invariant positions == MarksOfEvents(batch.events[..i])
    {
      var event := batch.events[i];
      assert batch.events[..i + 1][..i] == batch.events[..i];
      positions := positions[event.source.sourceId := MarkOf(event)];
    }
    assert batch.events[..|batch.events|] == batch.events;
  }

  function SealedPaths(files: map<Path, Content>): set<Path> {
    set p | p in files.Keys && p.SealedPath?
  }

  /** A sealed batch that parse_event_batch refuses. */
  ghost predicate Unreadable(content: Content) {
    content.Whole? && content.document.BatchDocument? && !Reparsable(content.document.batch)
  }

  /** There are sealed batches, and none can be read back. */
  ghost predicate Wedged(files: map<Path, Content>) {
    SealedPaths(files) != {} && forall p | p in SealedPaths(files) :: Unreadable(files[p])
  }

  /** The errors a publication in turn can meet: only the disk's. */
  predicate Transient(error: Error) {
    error == IoFailure || error == CapacityExhausted
  }

  class Outbox {
    const collectorId: Text
    const disk: Disk
    const checkpoints: Store

    constructor (collectorId: Text, disk: Disk, checkpoints: Store)
      requires checkpoints.disk == disk
      ensures this.collectorId == collectorId && this.disk == disk && this.checkpoints == checkpoints
    {
      this.collectorId, this.disk, this.checkpoints := collectorId, disk, checkpoints;
    }

    ghost predicate Wired() {
      checkpoints.disk == disk
    }

    ghost predicate SoundHolding(log: Log, held: Option<Document>)
      reads disk
    {
      Sound(collectorId, log, disk.View(), held)
    }

    /** write_manifest */
    method WriteManifest(batch: EventBatch) returns (outcome: Result<()>)
      modifies disk`files, disk`temporaries, disk`twins, disk`rewritten, disk`visible
      ensures disk.visible == old(disk.visible)
      ensures ManifestPath(batch.batchId) !in old(disk.files) ==>
                || disk.files == old(disk.files)
                || disk.files
                   == old(disk.files)[ManifestPath(batch.batchId) := Whole(ManifestDocument(ManifestOf(batch)))]
      ensures disk.rewritten == old(disk.rewritten)
      ensures outcome.Success? ==>
                ManifestPath(batch.batchId) in disk.files
                && disk.files[ManifestPath(batch.batchId)] == Whole(ManifestDocument(ManifestOf(batch)))
      ensures outcome.Failure? ==> outcome.error == IoFailure
      ensures disk.healthy && ManifestPath(batch.batchId) !in old(disk.files) ==> outcome.Success?
    {
      hide EncodedBytes;
      var positions := PositionsFor(batch);
      var manifest := Manifest(batch.batchId, batch.collectorId, batch.createdAt, EncodedBytes(batch), positions);
      :- disk.WriteTemporary(ManifestPath(batch.batchId), ManifestDocument(manifest));
      :- disk.LinkTemporary(ManifestPath(batch.batchId));
      return Success(());
    }

    /** ensure_manifest: validate the manifest that is there, or write it. */
    method EnsureManifest(batch: EventBatch, ghost log: Log) returns (outcome: Result<()>)
      requires Wired()
      modifies disk`files, disk`temporaries, disk`twins, disk`rewritten, disk`visible
      ensures disk.visible == old(disk.visible)
      ensures disk.rewritten == old(disk.rewritten)
      ensures outcome.Success? ==>
                ManifestPath(batch.batchId) in disk.files
                && disk.files[ManifestPath(batch.batchId)] == Whole(ManifestDocument(ManifestOf(batch)))
      ensures old(SoundHolding(log, Some(BatchDocument(batch)))) ==>
                && SoundHolding(log, Some(BatchDocument(batch)))
                && (outcome.Failure? ==> outcome.error == IoFailure)
                && (disk.healthy ==> outcome.Success?)
    {
      hide Sound, SerializableBatch, Reparsable, EncodedBytes, MarksOfEvents;
      ghost var document := BatchDocument(batch);
      ghost var before := disk.View();
      var found :- disk.Exists(ManifestPath(batch.batchId));
      if found {
        var content :- disk.Read(ManifestPath(batch.batchId));
        var positions := PositionsFor(batch);
        var expected := Manifest(batch.batchId, batch.collectorId, batch.createdAt, EncodedBytes(batch), positions);
        if content != Whole(ManifestDocument(expected)) {
          if old(SoundHolding(log, Some(document))) {
            ManifestMatches(collectorId, log, before, batch);
          }
          return Failure(ManifestMismatch);
        }
      } else {
        outcome := WriteManifest(batch);
        if old(SoundHolding(log, Some(document))) && disk.files != before.files {
          ManifestKeeps(collectorId, log, before, document, disk.View());
        }
        return;
      }
      return Success(());
    }

    /** The first half of publish_sealed: the batch becomes visible in the handoff directory. */
    method HandOver(batch: EventBatch, ghost log: Log) returns (outcome: Result<()>)
      requires Wired()
      modifies disk`files, disk`temporaries, disk`twins, disk`rewritten, disk`visible
      ensures Shown(old(disk.visible), disk.visible, BatchDocument(batch))
      ensures disk.rewritten == old(disk.rewritten)
              || (HandoffPath(batch.batchId) in old(disk.twins)
                  && disk.rewritten == old(disk.rewritten) + {HandoffPath(batch.batchId)})
      ensures disk.healthy ==>
                (disk.rewritten != old(disk.rewritten) ==> HandoffPath(batch.batchId) !in old(disk.files))
                && (HandoffPath(batch.batchId) in old(disk.twins) && HandoffPath(batch.batchId) !in old(disk.files) ==>
                      HandoffPath(batch.batchId) in disk.rewritten)
      ensures outcome.Success? ==>
                HandoffPath(batch.batchId) in disk.files
                && disk.files[HandoffPath(batch.batchId)] == Whole(BatchDocument(batch))
      ensures old(SoundHolding(log, Some(BatchDocument(batch)))) ==>
                && SoundHolding(log, Some(BatchDocument(batch)))
                && (outcome.Success? ==> BatchDocument(batch) in disk.visible)
                && (outcome.Failure? ==> outcome.error == IoFailure)
                && (disk.healthy ==> outcome.Success?)
    {
      hide Sound, SerializableBatch, Reparsable, EncodedBytes, MarksOfEvents;
      var document := BatchDocument(batch);
      ghost var sound := SoundHolding(log, Some(document));
      ghost var before := disk.View();
      var path := HandoffPath(batch.batchId);
      disk.BackendClaims();
      if sound {
        ClaimKeeps(collectorId, log, before, Some(document), disk.View());
      }
      before := disk.View();
      var found :- disk.Exists(path);
      if found {
        if sound {
          HandoffMatches(collectorId, log, before, batch);
        }
        disk.BackendClaims();
        if sound {
          ClaimKeeps(collectorId, log, before, Some(document), disk.View());
        }
        var content :- disk.Read(path);
        if content != Whole(document) {
          return Failure(HandoffCollision);
        }
      } else {
        :- disk.WriteTemporary(path, document);
        var linked := disk.LinkTemporary(path);
        if sound && disk.files != before.files {
          ShowKeeps(collectorId, log, before, document, disk.View());
        }
        :- linked;
      }
      return Success(());
    }

    /** The commit of publish_sealed: input positions advance only once the batch is visible. */
    method CommitPositions(batch: EventBatch, committedAt: Timestamp, ghost log: Log) returns (outcome: Result<()>)
      requires Wired()
      modifies disk`files, disk`temporaries, disk`twins, disk`rewritten, disk`visible, disk`committed, disk`landed
      ensures disk.visible == old(disk.visible)
      ensures Outstanding(disk.View(), BatchDocument(batch)) == old(Outstanding(disk.View(), BatchDocument(batch)))
      ensures disk.landed == old(disk.landed) || disk.landed == old(disk.landed) + {batch.batchId}
      ensures disk.rewritten == old(disk.rewritten)
      ensures outcome.Success? ==>
                && batch.batchId in disk.landed
                && CheckpointMarks(disk.files) == CheckpointMarks(old(disk.files)) + MarksOfEvents(batch.events)
      ensures forall p: Path | p != CheckpointPath :: p in disk.files <==> p in old(disk.files)
      ensures forall p: Path | p != CheckpointPath && p in disk.files :: disk.files[p] == old(disk.files)[p]
      ensures old(SoundHolding(log, Some(BatchDocument(batch))) && BatchDocument(batch) in disk.visible) ==>
                && SoundHolding(log, Some(BatchDocument(batch)))
                && (outcome.Failure? ==> outcome.error == IoFailure)
                && (disk.healthy ==> outcome.Success?)
    {
      hide Sound, SerializableBatch, Reparsable, EncodedBytes, MarksOfEvents, AnyRegression;
      ghost var document := BatchDocument(batch);
      ghost var sound := SoundHolding(log, Some(document)) && document in disk.visible;
      ghost var before := disk.View();
      var positions := PositionsFor(batch);
      if sound {
        SoundFacts(collectorId, log, before, batch);
        NoRegression(collectorId, log, before, document);
      }
      outcome := checkpoints.Commit(batch.collectorId, EventBatchKind, batch.batchId, committedAt, positions,
          SpansOf(document));
      if sound && disk.View() != before {
        LandKeeps(collectorId, log, before, document, disk.files[CheckpointPath].document.checkpoint, disk.View());
      }
    }

    /** The cleanup of publish_sealed: manifest first, so that what is left can be recovered. */
    method Release(batch: EventBatch, ghost log: Log) returns (outcome: Result<()>)
      modifies disk`files
      ensures outcome.Success? ==>
                disk.files == old(disk.files) - {ManifestPath(batch.batchId), SealedPath(batch.batchId)}
      ensures old(SoundHolding(log, Some(BatchDocument(batch))) && batch.batchId in disk.landed) ==>
                && Ready(collectorId, log, disk.View(), BatchDocument(batch))
                && (outcome.Success? ==> SoundHolding(log, None))
                && (outcome.Failure? ==> outcome.error == IoFailure)
                && (disk.healthy ==> outcome.Success?)
    {
      hide Sound, SerializableBatch, Reparsable, EncodedBytes, MarksOfEvents;
      ghost var document := BatchDocument(batch);
      ghost var sound := SoundHolding(log, Some(document)) && batch.batchId in disk.landed;
      ghost var before := disk.View();
      if sound {
        SoundFacts(collectorId, log, before, batch);
      }
      var removed := disk.Remove(ManifestPath(batch.batchId));
      if sound && disk.files != before.files {
        ManifestRemovalKeeps(collectorId, log, before, Some(document), batch.batchId, disk.View());
      }
      :- removed;
      before := disk.View();
      var released := disk.Remove(SealedPath(batch.batchId));
      if sound && (released.Pass? || disk.files != before.files) {
        ReleaseKeeps(collectorId, log, before, document, disk.View());
      }
      :- released;
      return Success(());
    }

    /** publish_sealed */
    method PublishSealed(batch: EventBatch, committedAt: Timestamp, ghost log: Log) returns (outcome: Result<()>)
      requires Wired()
      modifies disk`files, disk`temporaries, disk`twins, disk`rewritten, disk`visible, disk`committed, disk`landed
      ensures Shown(old(disk.visible), disk.visible, BatchDocument(batch))
      ensures Outstanding(disk.View(), BatchDocument(batch)) == old(Outstanding(disk.View(), BatchDocument(batch)))
      ensures disk.landed == old(disk.landed) || disk.landed == old(disk.landed) + {batch.batchId}
      ensures disk.rewritten == old(disk.rewritten)
              || (HandoffPath(batch.batchId) in old(disk.twins)
                  && disk.rewritten == old(disk.rewritten) + {HandoffPath(batch.batchId)})
      ensures outcome.Success? ==> batch.batchId in disk.landed
      ensures outcome.Success? ==>
                && SealedPath(batch.batchId) !in disk.files && ManifestPath(batch.batchId) !in disk.files
                && HandoffPath(batch.batchId) in disk.files
                && disk.files[HandoffPath(batch.batchId)] == Whole(BatchDocument(batch))
      ensures old(SoundHolding(log, Some(BatchDocument(batch)))) ==>
                && Ready(collectorId, log, disk.View(), BatchDocument(batch))
                && (outcome.Success? ==> SoundHolding(log, None))
                && (outcome.Failure? ==> outcome.error == IoFailure)
                && (disk.healthy ==> outcome.Success?)
    {
      hide Sound, SerializableBatch, Reparsable, EncodedBytes, MarksOfEvents;
      if SoundHolding(log, Some(BatchDocument(batch))) {
        SoundFacts(collectorId, log, disk.View(), batch);
      }
      var _ :- HandOver(batch, log);
      var _ :- CommitPositions(batch, committedAt, log);
      var _ :- Release(batch, log);
      return Success(());
    }

    /** load_sealed */
    method LoadSealed(id: Id) returns (batch: Result<EventBatch>)
      ensures batch.Success? ==>
                SealedPath(id) in disk.files && disk.files[SealedPath(id)] == Whole(BatchDocument(batch.value))
                && batch.value.events != [] && SerializableBatch(batch.value) && Reparsable(batch.value)
      ensures batch.Failure? && SealedPath(id) in disk.files && disk.files[SealedPath(id)].Whole?
              && disk.files[SealedPath(id)].document.BatchDocument?
              && Acceptable(collectorId, disk.files[SealedPath(id)].document) ==>
                || (batch.error == IoFailure && !disk.healthy)
                || (batch.error == ContractError && !Reparsable(disk.files[SealedPath(id)].document.batch))
    {
      hide Serialize, Shallow;
      var content :- disk.Read(SealedPath(id));
      match content {
        case Whole(BatchDocument(found)) =>
          if !Reparsable(found) || found.events == [] || !SerializableBatch(found) {
            return Failure(ContractError);
          }
          return Success(found);
        case _ => return Failure(ContractError);
      }
    }

    /** The tail of publish_signed and of recovery for a batch that is sealed. */
    method PublishHeld(batch: EventBatch, committedAt: Timestamp, ghost log: Log) returns (outcome: Result<()>)
      requires Wired()
      modifies disk`files, disk`temporaries, disk`twins, disk`rewritten, disk`visible, disk`committed, disk`landed
      ensures Shown(old(disk.visible), disk.visible, BatchDocument(batch))
      ensures Outstanding(disk.View(), BatchDocument(batch)) == old(Outstanding(disk.View(), BatchDocument(batch)))
      ensures disk.landed == old(disk.landed) || disk.landed == old(disk.landed) + {batch.batchId}
      ensures outcome.Success? ==> batch.batchId in disk.landed
      ensures outcome.Success? ==>
                && SealedPath(batch.batchId) !in disk.files && ManifestPath(batch.batchId) !in disk.files
                && HandoffPath(batch.batchId) in disk.files
                && disk.files[HandoffPath(batch.batchId)] == Whole(BatchDocument(batch))
      ensures old(SoundHolding(log, Some(BatchDocument(batch)))) ==>
                && Ready(collectorId, log, disk.View(), BatchDocument(batch))
                && (outcome.Success? ==> SoundHolding(log, None))
                && (outcome.Failure? ==> outcome.error == IoFailure)
                && (disk.healthy ==> outcome.Success?)
    {
      hide Sound, SerializableBatch, Reparsable, EncodedBytes, MarksOfEvents;
      if SoundHolding(log, Some(BatchDocument(batch))) {
        SoundFacts(collectorId, log, disk.View(), batch);
      }
      var _ :- EnsureManifest(batch, log);
      outcome := PublishSealed(batch, committedAt, log);
    }

    /** The batch is sealed in the outbox, and then its manifest is written. */
    method Seal(batch: EventBatch, ghost log: Log) returns (outcome: Result<()>)
      requires Wired()
      modifies disk`files, disk`temporaries, disk`twins, disk`rewritten, disk`visible
      ensures disk.visible == old(disk.visible)
      ensures old(Ready(collectorId, log, disk.View(), BatchDocument(batch))
              && SealedPath(batch.batchId) !in disk.files) ==>
                && Ready(collectorId, log, disk.View(), BatchDocument(batch))
                && (outcome.Success? ==> SoundHolding(log, Some(BatchDocument(batch))))
                && (outcome.Failure? ==> outcome.error == IoFailure)
                && (disk.healthy ==> outcome.Success?)
    {
      hide Sound, SerializableBatch, Reparsable, EncodedBytes, MarksOfEvents;
      var document := BatchDocument(batch);
      ghost var ready := Ready(collectorId, log, disk.View(), document) && SealedPath(batch.batchId) !in disk.files;
      ghost var before := disk.View();
      if ready {
        ReadyFacts(collectorId, log, before, document);
      }
      :- disk.WriteTemporary(SealedPath(batch.batchId), document);
      var linked := disk.LinkTemporary(SealedPath(batch.batchId));
      if ready && disk.files != before.files {
        HoldKeeps(collectorId, log, before, document, disk.View());
        SoundFacts(collectorId, log, disk.View(), batch);
      }
      :- linked;
      before := disk.View();
      outcome := WriteManifest(batch);
      if ready && disk.files != before.files {
        ManifestKeeps(collectorId, log, before, document, disk.View());
        SoundFacts(collectorId, log, disk.View(), batch);
      }
    }

    /** publish_signed */
    method PublishSigned(batch: EventBatch, committedAt: Timestamp, ghost log: Log) returns (outcome: Result<()>)
      requires Wired()
      modifies disk`files, disk`temporaries, disk`twins, disk`rewritten, disk`visible, disk`committed, disk`landed
      ensures Shown(old(disk.visible), disk.visible, BatchDocument(batch))
      ensures Outstanding(disk.View(), BatchDocument(batch)) == old(Outstanding(disk.View(), BatchDocument(batch)))
      ensures disk.landed == old(disk.landed) || disk.landed == old(disk.landed) + {batch.batchId}
      ensures outcome.Success? ==> batch.batchId in disk.landed
      ensures outcome.Success? ==>
                && SealedPath(batch.batchId) !in disk.files && ManifestPath(batch.batchId) !in disk.files
                && HandoffPath(batch.batchId) in disk.files
                && disk.files[HandoffPath(batch.batchId)] == Whole(BatchDocument(batch))
      ensures old(Ready(collectorId, log, disk.View(), BatchDocument(batch))) ==>
                && Ready(collectorId, log, disk.View(), BatchDocument(batch))
                && (outcome.Success? ==> SoundHolding(log, None))
                && (outcome.Failure? ==>
                      || Transient(outcome.error)
                      || (outcome.error == ContractError && SealedPath(batch.batchId) in old(disk.files)
                          && !Reparsable(batch)))
                && (disk.healthy ==>
                    (outcome.Success? <==> SealedPath(batch.batchId) !in old(disk.files) || Reparsable(batch)))
      ensures SealedPath(batch.batchId) in old(disk.files) && !Reparsable(batch) ==>
                outcome.Failure? && disk.View() == old(disk.View())
    {
      hide Sound, SerializableBatch, Reparsable, EncodedBytes, MarksOfEvents;
      var document := BatchDocument(batch);
      ghost var ready := Ready(collectorId, log, disk.View(), document);
      ghost var before := disk.View();
      if batch.collectorId != collectorId {
        return Failure(ForeignCollector);
      }
      if batch.events == [] {
        return Failure(EmptyBatch);
      }
      if !SerializableBatch(batch) {
        return Failure(ContractError);
      }
      if ready {
        ReadyFacts(collectorId, log, before, document);
      }
      var found :- disk.Exists(SealedPath(batch.batchId));
      if found {
        var sealed :- LoadSealed(batch.batchId);
        if sealed != batch {
          return Failure(SealedCollision);
        }
        outcome := PublishHeld(sealed, committedAt, log);
        return;
      }
      var exhausted: bool := *;
      if exhausted && !disk.healthy {
        return Failure(CapacityExhausted);
      }
      var sealed := Seal(batch, log);
      var _ :- sealed;
      outcome := PublishSealed(batch, committedAt, log);
    }

    /** The outbox directory listing: temporaries are removed, sealed batches are listed in any order. */
    method ScanOutbox() returns (batches: Result<seq<Id>>)
      modifies disk`temporaries, disk`twins, disk`rewritten
      ensures batches.Success? ==>
                && (forall id :: id in batches.value <==> SealedPath(id) in disk.files)
                && |batches.value| == |SealedPaths(disk.files)|
                && (forall p | p in disk.temporaries :: !p.SealedPath? && !p.ManifestPath?)
      ensures batches.Failure? ==> batches.error == IoFailure && !disk.healthy
    {
      var leftovers := set p | p in disk.temporaries.Keys && (p.SealedPath? || p.ManifestPath?);
      while leftovers != {}
        invariant forall p | p in disk.temporaries && (p.SealedPath? || p.ManifestPath?) :: p in leftovers
      {
        var p :| p in leftovers;
        :- disk.RemoveTemporary(p);
        leftovers := leftovers - {p};
      }
      var found: seq<Id> := [];
      var entries := SealedPaths(disk.files);
      while entries != {}
        invariant entries <= disk.files.Keys
        invariant forall p | p in entries :: p.SealedPath? && p.id !in found
        invariant forall id :: SealedPath(id) in disk.files <==> SealedPath(id) in entries || id in found
        invariant |found| + |entries| == |SealedPaths(disk.files)|
      {
        var p :| p in entries;
        found := found + [p.id];
        entries := entries - {p};
      }
      return Success(found);
    }

    /** Loads every sealed batch and makes sure of its manifest. */
    method LoadAll(ids: seq<Id>, ghost log: Log, ghost held: Option<Document>)
      returns (batches: Result<seq<EventBatch>>)
      requires Wired()
      modifies disk`files, disk`temporaries, disk`twins, disk`rewritten, disk`visible
      ensures disk.visible == old(disk.visible)
      ensures ids == [] ==> batches == Success([]) && disk.files == old(disk.files)
      ensures old(SoundHolding(log, held)) && OnlyHeld(ids, held) ==>
                && SoundHolding(log, held)
                && (batches.Success? ==> batches.value == HeldBatches(held))
                && (batches.Failure? ==>
                      || (batches.error == IoFailure && !disk.healthy)
                      || (batches.error == ContractError && !Reloadable(held)))
                && (batches.Success? ==> Reloadable(held))
      ensures old(ids != [] && SealedPath(ids[0]) in disk.files && Unreadable(disk.files[SealedPath(ids[0])])) ==>
                batches.Failure? && disk.files == old(disk.files)
    {
      hide Sound, SerializableBatch, Reparsable, EncodedBytes, MarksOfEvents;
      ghost var sound := SoundHolding(log, held) && OnlyHeld(ids, held);
      var loaded: seq<EventBatch> := [];
      for i := 0 to |ids|
        invariant disk.visible == old(disk.visible)
        invariant i == 0 ==> disk.files == old(disk.files) && loaded == []
        invariant sound ==> SoundHolding(log, held)
        invariant sound && i > 0 ==> Reloadable(held)
        invariant i > 0 ==>
                    !old(SealedPath(ids[0]) in disk.files && Unreadable(disk.files[SealedPath(ids[0])]))
        invariant sound ==> loaded == if i == 0 then [] else HeldBatches(held)
      {
        if sound {
          SoundFacts(collectorId, log, disk.View(), held.value.batch);
        }
        var batch :- LoadSealed(ids[i]);
        if batch.collectorId != collectorId {
          return Failure(ForeignCollector);
        }
        var _ :- EnsureManifest(batch, log);
        loaded := loaded + [batch];
      }
      return Success(loaded);
    }

    /** What recovering the held publication comes to. */
    twostate predicate Recovered(log: Log, held: Option<Document>, success: bool)
      reads disk
    {
      if held.Some? && held.value.BatchDocument? then
        && Ready(collectorId, log, disk.View(), held.value)
        && Outstanding(disk.View(), held.value) == Outstanding(old(disk.View()), held.value)
        && Shown(old(disk.visible), disk.visible, held.value)
        && (disk.landed == old(disk.landed) || disk.landed == old(disk.landed) + {IdOf(held.value)})
        && (success ==> SoundHolding(log, None) && IdOf(held.value) in disk.landed)
      else
        && SoundHolding(log, held) && disk.committed == old(disk.committed) && disk.landed == old(disk.landed)
        && disk.visible == old(disk.visible)
    }

    /** The publishing loop of recovery. */
    method PublishRecovered(batches: seq<EventBatch>, recoveredAt: Timestamp, ghost log: Log,
            ghost held: Option<Document>)
      returns (published: Result<()>)
      requires Wired()
      modifies disk`files, disk`temporaries, disk`twins, disk`rewritten, disk`visible, disk`committed, disk`landed
      ensures old(SoundHolding(log, held)) && batches == HeldBatches(held) ==>
                && Recovered(log, held, published.Success?)
                && (published.Failure? ==> published.error == IoFailure)
                && (disk.healthy ==> published.Success?)
      ensures batches == [] ==> published.Success? && disk.View() == old(disk.View())
    {
      hide Sound, SerializableBatch, Reparsable, EncodedBytes, MarksOfEvents;
      ghost var sound := SoundHolding(log, held) && batches == HeldBatches(held);
      if sound && held.Some? && held.value.BatchDocument? {
        SoundFacts(collectorId, log, disk.View(), held.value.batch);
      }
      var sorted := SortByKey((batch: EventBatch) => Key(batch.createdAt.text, batch.batchId), batches);
      for i := 0 to |sorted|
        invariant sound ==> sorted == HeldBatches(held)
        invariant i == 0 ==> disk.View() == old(disk.View())
        invariant sound && i == 1 ==> Recovered(log, held, true)
      {
        var _ :- PublishSealed(sorted[i], recoveredAt, log);
      }
      return Success(());
    }

    /** A manifest without its sealed batch fails recovery. */
    method CheckOrphans(ghost log: Log, ghost held: Option<Document>) returns (outcome: Outcome)
      ensures outcome.Pass? <==> forall p | p in disk.files :: !p.ManifestPath?
      ensures SoundHolding(log, held) && (held.Some? ==> !held.value.BatchDocument?) ==> outcome.Pass?
    {
      hide Sound, SerializableBatch, Reparsable, EncodedBytes, MarksOfEvents;
      var orphans := set p | p in disk.files.Keys && p.ManifestPath?;
      if orphans != {} {
        var p :| p in orphans;
        if SoundHolding(log, held) {
          NoOrphan(collectorId, log, disk.View(), held, p);
        }
        return Fail(OrphanedManifest);
      }
      assert forall p | p in disk.files && p.ManifestPath? :: p in orphans;
      return Pass;
    }

    /** recover */
    method Recover(recoveredAt: Timestamp, ghost log: Log, ghost held: Option<Document>)
      returns (published: Result<nat>)
      requires Wired()
      modifies disk`files, disk`temporaries, disk`twins, disk`rewritten, disk`visible, disk`committed, disk`landed
      ensures old(SoundHolding(log, held)) ==>
                && Recovered(log, held, published.Success?)
                && (published.Failure? ==>
                    published.error == IoFailure || (published.error == ContractError && !Reloadable(held)))
                && (disk.healthy ==> (published.Success? <==> Reloadable(held)))
      ensures old(Wedged(disk.files)) ==> published.Failure? && disk.View() == old(disk.View())
      ensures old(SealedPaths(disk.files)) == {} ==> disk.View() == old(disk.View())
      ensures published.Success? ==> forall p | p in disk.files :: !p.ManifestPath?
    {
      hide Sound, SerializableBatch, Reparsable, EncodedBytes, MarksOfEvents;
      ghost var sound := SoundHolding(log, held);
      ghost var holdsBatch := held.Some? && held.value.BatchDocument?;
      if sound && holdsBatch {
        SoundFacts(collectorId, log, disk.View(), held.value.batch);
      }
      var ids :- ScanOutbox();
      if sound {
        OnlyHeldListed(collectorId, log, disk.View(), held, ids);
      }
      assert SealedPaths(disk.files) == {} ==> ids == [];
      var loaded := LoadAll(ids, log, held);
      if sound && holdsBatch {
        SoundFacts(collectorId, log, disk.View(), held.value.batch);
      }
      var batches :- loaded;
      var _ :- PublishRecovered(batches, recoveredAt, log, held);
      :- CheckOrphans(log, if holdsBatch then None else held);
      return Success(|batches|);
    }
  }

  /** A manifest found beside its sealed batch is that batch's manifest. */
  lemma ManifestMatches(collectorId: Text, log: Log, d: Durable, batch: EventBatch)
    requires Sound(collectorId, log, d, Some(BatchDocument(batch)))
    requires ManifestPath(batch.batchId) in d.files
    ensures d.files[ManifestPath(batch.batchId)] == Whole(ManifestDocument(ManifestOf(batch)))
  {
    hide SerializableBatch, EncodedBytes, MarksOfEvents, Of;
    assert ShapedAt(collectorId, d, ManifestPath(batch.batchId));
  }

  lemma HandoffMatches(collectorId: Text, log: Log, d: Durable, batch: EventBatch)
    requires Sound(collectorId, log, d, Some(BatchDocument(batch)))
    requires HandoffPath(batch.batchId) in d.files
    ensures d.files[HandoffPath(batch.batchId)] == Whole(BatchDocument(batch)) && BatchDocument(batch) in d.visible
  {
    hide SerializableBatch, EncodedBytes, MarksOfEvents, Of;
    assert ShapedAt(collectorId, d, HandoffPath(batch.batchId));
  }

  lemma SoundFacts(collectorId: Text, log: Log, d: Durable, batch: EventBatch)
    requires Sound(collectorId, log, d, Some(BatchDocument(batch)))
    ensures Acceptable(collectorId, BatchDocument(batch)) && batch.collectorId == collectorId
    ensures Readable(d.files, collectorId)
    ensures MarksOfEvents(batch.events) != map[]
    ensures SealedPath(batch.batchId) in d.files && d.files[SealedPath(batch.batchId)] == Whole(BatchDocument(batch))
    ensures Ready(collectorId, log, d, BatchDocument(batch))
  {
    hide SerializableBatch, EncodedBytes, Of;
    assert CheckpointPath in d.files ==> ShapedAt(collectorId, d, CheckpointPath);
    var last := batch.events[|batch.events| - 1];
    assert last.source.sourceId in MarksOfEvents(batch.events);
  }

  /** A publication that is ready is either held already or nothing is held. */
  lemma ReadyFacts(collectorId: Text, log: Log, d: Durable, document: Document)
    requires Ready(collectorId, log, d, document)
    ensures HoldPath(document) in d.files ==>
              Sound(collectorId, log, d, Some(document)) && d.files[HoldPath(document)] == Whole(document)
    ensures HoldPath(document) !in d.files ==> Sound(collectorId, log, d, None)
    ensures document.BatchDocument? && HoldPath(document) !in d.files ==> ManifestPath(IdOf(document)) !in d.files
  {
    hide SerializableBatch, EncodedBytes, Of;
    if document.BatchDocument? && ManifestPath(IdOf(document)) in d.files {
      assert ShapedAt(collectorId, d, ManifestPath(IdOf(document)));
    }
  }

  ghost function HeldBatches(held: Option<Document>): seq<EventBatch> {
    if held.Some? && held.value.BatchDocument? then [held.value.batch] else []
  }

  ghost predicate OnlyHeld(ids: seq<Id>, held: Option<Document>) {
    ids == if held.Some? && held.value.BatchDocument? then [held.value.batch.batchId] else []
  }

  lemma OnlyHeldListed(collectorId: Text, log: Log, d: Durable, held: Option<Document>, ids: seq<Id>)
    requires Sound(collectorId, log, d, held)
    requires forall id :: id in ids <==> SealedPath(id) in d.files
    requires |ids| == |SealedPaths(d.files)|
    ensures OnlyHeld(ids, held)
  {
    hide SerializableBatch, EncodedBytes, Of;
    if held.Some? && held.value.BatchDocument? {
      var id := held.value.batch.batchId;
      assert SealedPaths(d.files) == {SealedPath(id)};
      assert id in ids;
    } else {
      assert forall p | p in SealedPaths(d.files) :: IsHold(p);
      assert SealedPaths(d.files) == {};
    }
  }

  /** A manifest never outlives its sealed batch. */
  lemma NoOrphan(collectorId: Text, log: Log, d: Durable, held: Option<Document>, p: Path)
    requires Sound(collectorId, log, d, held)
    requires p.ManifestPath? && p in d.files
    ensures held.Some? && held.value.BatchDocument? && p.id == held.value.batch.batchId
  {
    hide SerializableBatch, EncodedBytes, Of;
    assert ShapedAt(collectorId, d, p);
    assert IsHold(SealedPath(p.id));
  }
}
