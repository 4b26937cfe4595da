/** Durable publication of signed rejections, sharing the checkpoint with the batches. */
module RejectedEventPublisher {
  import opened Exceptions
  import opened Octets
  import opened Contract
  import opened Documents
  import opened FileSystem
  import opened Rejections
  import opened Protocol
  import opened CheckpointStore
  import opened Lexicographic

  class Publisher {
    const collectorId: Text
    const disk: Disk
    const checkpoints: Store

    constructor (collectorId: Text, disk: Disk, checkpoints: Store)
      requires checkpoints.disk == disk
      ensures this.collectorId == collectorId && this.disk == disk && this.checkpoints == checkpoints
    {
      this.collectorId, this.disk, this.checkpoints := collectorId, disk, checkpoints;
    }

    ghost predicate Wired() {
      checkpoints.disk == disk
    }

    ghost predicate SoundHolding(log: Log, held: Option<Document>)
      reads disk
    {
      Sound(collectorId, log, disk.View(), held)
    }

    /** A rejection that the checkpoint has already overtaken can never be committed. */
    ghost predicate Overtaken(rejected: RejectedEvent)
      reads disk
    {
      AnyRegression(CheckpointMarks(disk.files), MarksOf(RejectionDocument(rejected)))
    }

    /** Make the rejection's audit record visible. */
    method ShowRecord(rejected: RejectedEvent, ghost log: Log) returns (outcome: Result<()>)
      requires Wired()
      modifies disk`files, disk`temporaries, disk`twins, disk`rewritten, disk`visible
      ensures Stuck(old(disk.View()), disk.View(), rejected)
      ensures outcome.Success? ==>
                RecordPath(rejected.rejectionId) in disk.files
                && disk.files[RecordPath(rejected.rejectionId)] == Whole(RejectionDocument(rejected))
      ensures disk.healthy && RecordPath(rejected.rejectionId) !in old(disk.files) ==>
                RejectionDocument(rejected) in disk.visible
      ensures old(SoundHolding(log, Some(RejectionDocument(rejected)))) ==>
                && SoundHolding(log, Some(RejectionDocument(rejected)))
                && (outcome.Success? ==> RejectionDocument(rejected) in disk.visible)
                && (outcome.Failure? ==> outcome.error == IoFailure)
                && (disk.healthy ==> outcome.Success?)
    {
      hide Sound, SerializableRejection;
      var document := RejectionDocument(rejected);
      ghost var sound := SoundHolding(log, Some(document));
      ghost var before := disk.View();
      var path := RecordPath(rejected.rejectionId);
      var found :- disk.Exists(path);
      if found {
        if sound {
          RecordMatches(collectorId, log, before, rejected);
        }
        var content :- disk.Read(path);
        if content != Whole(document) {
          return Failure(HandoffCollision);
        }
      } else {
        :- disk.WriteTemporary(path, document);
        var linked := disk.LinkTemporary(path);
        if sound && disk.files != before.files {
          ShowKeeps(collectorId, log, before, document, disk.View());
        }
        :- linked;
      }
      return Success(());
    }

    method CommitPosition(rejected: RejectedEvent, committedAt: Timestamp, ghost log: Log) returns (outcome: Result<()>)
      requires Wired()
      modifies disk`files, disk`temporaries, disk`twins, disk`rewritten, disk`visible, disk`committed, disk`landed
      ensures disk.visible == old(disk.visible)
      ensures Outstanding(disk.View(), RejectionDocument(rejected))
              == old(Outstanding(disk.View(), RejectionDocument(rejected)))
      ensures disk.landed == old(disk.landed) || disk.landed == old(disk.landed) + {rejected.rejectionId}
      ensures outcome.Success? ==>
                && rejected.rejectionId in disk.landed
                && CheckpointMarks(disk.files) == CheckpointMarks(old(disk.files))
                    + MarksOf(RejectionDocument(rejected))
      ensures forall p: Path | p != CheckpointPath :: p in disk.files <==> p in old(disk.files)
      ensures forall p: Path | p != CheckpointPath && p in disk.files :: disk.files[p] == old(disk.files)[p]
      ensures old(SoundHolding(log, Some(RejectionDocument(rejected)))
              && RejectionDocument(rejected) in disk.visible) ==>
                && SoundHolding(log, Some(RejectionDocument(rejected)))
                && (outcome.Failure? ==> outcome.error == IoFailure)
                && (disk.healthy ==> outcome.Success?)
      ensures old(Overtaken(rejected)) ==>
                outcome.Failure? && disk.files == old(disk.files) && disk.committed == old(disk.committed)
                && disk.landed == old(disk.landed)
    {
      hide Sound, SerializableRejection, AnyRegression;
      ghost var document := RejectionDocument(rejected);
      ghost var sound := SoundHolding(log, Some(document)) && document in disk.visible;
      ghost var before := disk.View();
      if sound {
        HeldRejection(collectorId, log, before, rejected);
        NoRegression(collectorId, log, before, document);
      }
      var span := rejected.source;
      var positions := map[span.source := RejectionMark(span.identity, span.start, span.end)];
      assert span.source in positions && positions == MarksOf(document);
      outcome := checkpoints.Commit(rejected.collectorId, RejectedEventKind, rejected.rejectionId, committedAt,
                                    positions, SpansOf(document));
      if sound && disk.View() != before {
        LandKeeps(collectorId, log, before, document, disk.files[CheckpointPath].document.checkpoint, disk.View());
      }
    }

    /** publish_pending: record, checkpoint, then the pending copy goes. */
    method PublishPending(rejected: RejectedEvent, committedAt: Timestamp, ghost log: Log) returns (outcome: Result<()>)
      requires Wired()
      modifies disk`files, disk`temporaries, disk`twins, disk`rewritten, disk`visible, disk`committed, disk`landed
      ensures Shown(old(disk.visible), disk.visible, RejectionDocument(rejected))
      ensures Outstanding(disk.View(), RejectionDocument(rejected))
              == old(Outstanding(disk.View(), RejectionDocument(rejected)))
      ensures disk.landed == old(disk.landed) || disk.landed == old(disk.landed) + {rejected.rejectionId}
      ensures outcome.Success? ==> rejected.rejectionId in disk.landed
      ensures outcome.Success? ==>
                && PendingPath(rejected.rejectionId) !in disk.files
                && RecordPath(rejected.rejectionId) in disk.files
                && disk.files[RecordPath(rejected.rejectionId)] == Whole(RejectionDocument(rejected))
      ensures old(SoundHolding(log, Some(RejectionDocument(rejected)))) ==>
                && Ready(collectorId, log, disk.View(), RejectionDocument(rejected))
                && (outcome.Success? ==> SoundHolding(log, None))
                && (outcome.Failure? ==> outcome.error == IoFailure)
                && (disk.healthy ==> outcome.Success?)
      ensures disk.healthy && RecordPath(rejected.rejectionId) !in old(disk.files) ==>
                RejectionDocument(rejected) in disk.visible
      ensures old(Overtaken(rejected)) ==> outcome.Failure? && Stuck(old(disk.View()), disk.View(), rejected)
    {
      hide Sound, SerializableRejection, AnyRegression;
      ghost var document := RejectionDocument(rejected);
      ghost var sound := SoundHolding(log, Some(document));
      if sound {
        HeldRejection(collectorId, log, disk.View(), rejected);
      }
      var _ :- ShowRecord(rejected, log);
      if sound {
        HeldRejection(collectorId, log, disk.View(), rejected);
      }
      var _ :- CommitPosition(rejected, committedAt, log);
      if sound {
        HeldRejection(collectorId, log, disk.View(), rejected);
      }
      ghost var before := disk.View();
      var removed := disk.Remove(PendingPath(rejected.rejectionId));
      if sound && (removed.Pass? || disk.files != before.files) {
        ReleaseKeeps(collectorId, log, before, document, disk.View());
      }
      :- removed;
      return Success(());
    }

    /** publish_signed */
    method PublishSigned(rejected: RejectedEvent, committedAt: Timestamp, ghost log: Log) returns (outcome: Result<()>)
      requires Wired()
      modifies disk`files, disk`temporaries, disk`twins, disk`rewritten, disk`visible, disk`committed, disk`landed
      ensures Shown(old(disk.visible), disk.visible, RejectionDocument(rejected))
      ensures Outstanding(disk.View(), RejectionDocument(rejected))
              == old(Outstanding(disk.View(), RejectionDocument(rejected)))
      ensures disk.landed == old(disk.landed) || disk.landed == old(disk.landed) + {rejected.rejectionId}
      ensures outcome.Success? ==> rejected.rejectionId in disk.landed
      ensures outcome.Success? ==>
                && PendingPath(rejected.rejectionId) !in disk.files
                && RecordPath(rejected.rejectionId) in disk.files
                && disk.files[RecordPath(rejected.rejectionId)] == Whole(RejectionDocument(rejected))
      ensures old(Ready(collectorId, log, disk.View(), RejectionDocument(rejected))) ==>
                && Ready(collectorId, log, disk.View(), RejectionDocument(rejected))
                && (outcome.Success? ==> SoundHolding(log, None))
                && (outcome.Failure? ==> outcome.error == IoFailure)
                && (disk.healthy ==> outcome.Success?)
      ensures old(Overtaken(rejected)) ==> outcome.Failure? && StuckHolding(old(disk.View()), disk.View(), rejected)
      ensures old(Overtaken(rejected)) && disk.healthy && Acceptable(collectorId, RejectionDocument(rejected)) ==>
                PendingPath(rejected.rejectionId) in disk.files
                && (PendingPath(rejected.rejectionId) in old(disk.files)
                    || disk.files[PendingPath(rejected.rejectionId)] == Whole(RejectionDocument(rejected)))
      ensures disk.healthy && Acceptable(collectorId, RejectionDocument(rejected))
              && PendingPath(rejected.rejectionId) !in old(disk.files)
              && RecordPath(rejected.rejectionId) !in old(disk.files)
              ==> RejectionDocument(rejected) in disk.visible
    {
      hide Sound, SerializableRejection, AnyRegression, Stuck;
      SameIsStuck(disk.View(), rejected);
      var document := RejectionDocument(rejected);
      ghost var ready := Ready(collectorId, log, disk.View(), document);
      ghost var before := disk.View();
      if rejected.collectorId != collectorId {
        return Failure(ForeignCollector);
      }
      if !SerializableRejection(rejected) {
        return Failure(ContractError);
      }
      if ready {
        ReadyRejection(collectorId, log, before, rejected);
      }
      var path := PendingPath(rejected.rejectionId);
      var found :- disk.Exists(path);
      if found {
        var content :- disk.Read(path);
        if content != Whole(document) {
          return Failure(SealedCollision);
        }
      } else {
        :- disk.WriteTemporary(path, document);
        var linked := disk.LinkTemporary(path);
        ghost var held := before.(files := before.files[path := Whole(document)]);
        assert disk.View() == before || disk.View() == held;
        SameIsStuck(held, rejected);
        if ready && disk.files != before.files {
          HoldKeeps(collectorId, log, before, document, disk.View());
          HeldRejection(collectorId, log, disk.View(), rejected);
        }
        :- linked;
      }
      ghost var waiting := disk.View();
      outcome := PublishPending(rejected, committedAt, log);
      StuckKeepsHold(waiting, disk.View(), rejected, path);
    }

    /** The pending directory listing, in any order, after its temporaries are removed. */
    method LoadPending() returns (pending: Result<seq<RejectedEvent>>)
      modifies disk`temporaries, disk`twins, disk`rewritten
      ensures pending.Success? ==>
                && |pending.value| == |PendingPaths(disk.files)|
                && (forall r | r in pending.value :: WaitsIn(disk.files, r))
      ensures pending.Failure? ==>
                || (pending.error == IoFailure && !disk.healthy)
                || (exists p :: p in PendingPaths(disk.files) && !Ours(disk.files[p]))
    {
      hide SerializableRejection;
      var leftovers := set p | p in disk.temporaries.Keys && p.PendingPath?;
      while leftovers != {} {
        var p :| p in leftovers;
        :- disk.RemoveTemporary(p);
        leftovers := leftovers - {p};
      }
      var loaded: seq<RejectedEvent> := [];
      var entries := PendingPaths(disk.files);
      while entries != {}
        invariant entries <= PendingPaths(disk.files)
        invariant |loaded| + |entries| == |PendingPaths(disk.files)|
        invariant forall r | r in loaded :: WaitsIn(disk.files, r)
      {
        var p :| p in entries;
        var content :- disk.Read(p);
        if !Loadable(content) {
          return Failure(ContractError);
        }
        if content.document.rejected.collectorId != collectorId {
          return Failure(ForeignCollector);
        }
        assert p in PendingPaths(disk.files) && disk.files[p] == Whole(RejectionDocument(content.document.rejected));
        loaded := loaded + [content.document.rejected];
        entries := entries - {p};
      }
      return Success(loaded);
    }

    predicate Ours(content: Content) {
      Loadable(content) && content.document.rejected.collectorId == collectorId
    }

    /** parse_rejected_event succeeds on the file. */
    predicate Loadable(content: Content) {
      content.Whole? && content.document.RejectionDocument? && SerializableRejection(content.document.rejected)
    }

    /** What recovering the held publication comes to. */
    twostate predicate Recovered(log: Log, held: Option<Document>, success: bool)
      reads disk
    {
      if held.Some? && held.value.RejectionDocument? then
        && Ready(collectorId, log, disk.View(), held.value)
        && Outstanding(disk.View(), held.value) == Outstanding(old(disk.View()), held.value)
        && Shown(old(disk.visible), disk.visible, held.value)
        && (disk.landed == old(disk.landed) || disk.landed == old(disk.landed) + {IdOf(held.value)})
        && (success ==> SoundHolding(log, None) && IdOf(held.value) in disk.landed)
      else
        && SoundHolding(log, held) && disk.committed == old(disk.committed) && disk.landed == old(disk.landed)
        && disk.visible == old(disk.visible)
    }

    /** recover */
    method Recover(recoveredAt: Timestamp, ghost log: Log, ghost held: Option<Document>)
      returns (published: Result<nat>)
      requires Wired()
      modifies disk`files, disk`temporaries, disk`twins, disk`rewritten, disk`visible, disk`committed, disk`landed
      ensures old(SoundHolding(log, held)) ==>
                && Recovered(log, held, published.Success?)
                && (published.Failure? ==> published.error == IoFailure)
                && (disk.healthy ==> published.Success?)
      ensures old(PendingPaths(disk.files)) == {} ==> disk.View() == old(disk.View())
      ensures forall r :: old(OnlyPending(disk.files, r) && Overtaken(r)) ==>
                published.Failure? && Stuck(old(disk.View()), disk.View(), r)
    {
      hide Sound, SerializableRejection, AnyRegression;
      ghost var sound := SoundHolding(log, held);
      if sound {
        PendingIsHeld(collectorId, log, disk.View(), held);
      }
      var pending :- LoadPending();
      forall r | old(OnlyPending(disk.files, r)) ensures pending == [r] {
        OnlyListed(disk.files, pending, r);
      }
      var sorted := SortByKey((rejected: RejectedEvent) => Key(rejected.rejectedAt.text, rejected.rejectionId),
          pending);
      for i := 0 to |sorted|
        invariant sound ==> sorted == HeldRejections(held)
        invariant forall r | old(OnlyPending(disk.files, r) && Overtaken(r)) :: i == 0 && sorted == [r]
        invariant old(PendingPaths(disk.files)) == {} ==> sorted == []
        invariant i == 0 ==> disk.View() == old(disk.View())
        invariant sound && i == 1 ==> Recovered(log, held, true)
      {
        var _ :- PublishPending(sorted[i], recoveredAt, log);
      }
      return Success(|sorted|);
    }
  }

  /** Nothing was committed, no held publication was touched, and nothing but the rejection became visible. */
  ghost predicate Stuck(before: Durable, after: Durable, rejected: RejectedEvent) {
    && Shown(before.visible, after.visible, RejectionDocument(rejected))
    && after.committed == before.committed && after.landed == before.landed
    && CheckpointMarks(after.files) == CheckpointMarks(before.files)
    && (forall p: Path | IsHold(p) :: p in after.files <==> p in before.files)
    && (forall p: Path | IsHold(p) && p in after.files :: after.files[p] == before.files[p])
  }

  lemma RecordMatches(collectorId: Text, log: Log, d: Durable, rejected: RejectedEvent)
    requires Sound(collectorId, log, d, Some(RejectionDocument(rejected)))
    requires RecordPath(rejected.rejectionId) in d.files
    ensures d.files[RecordPath(rejected.rejectionId)] == Whole(RejectionDocument(rejected))
    ensures RejectionDocument(rejected) in d.visible
  {
    hide SerializableRejection, Of;
    assert ShapedAt(collectorId, d, RecordPath(rejected.rejectionId));
  }

  lemma HeldRejection(collectorId: Text, log: Log, d: Durable, rejected: RejectedEvent)
    requires Sound(collectorId, log, d, Some(RejectionDocument(rejected)))
    ensures Acceptable(collectorId, RejectionDocument(rejected)) && rejected.collectorId == collectorId
    ensures Readable(d.files, collectorId)
    ensures PendingPath(rejected.rejectionId) in d.files
            && d.files[PendingPath(rejected.rejectionId)] == Whole(RejectionDocument(rejected))
    ensures ManifestPath(rejected.rejectionId) !in d.files
    ensures Ready(collectorId, log, d, RejectionDocument(rejected))
  {
    hide SerializableRejection, Of;
    assert CheckpointPath in d.files ==> ShapedAt(collectorId, d, CheckpointPath);
    var id := rejected.rejectionId;
    assert ManifestPath(id) in d.files ==> ShapedAt(collectorId, d, ManifestPath(id)) && IsHold(SealedPath(id));
  }

  lemma SameIsStuck(d: Durable, rejected: RejectedEvent)
    ensures Stuck(d, d, rejected)
  {
  }

  lemma StuckKeepsHold(before: Durable, after: Durable, rejected: RejectedEvent, path: Path)
    requires IsHold(path)
    ensures Stuck(before, after, rejected) ==>
              && (path in after.files <==> path in before.files)
              && (path in after.files ==> after.files[path] == before.files[path])
  {
  }

  ghost predicate StuckHolding(before: Durable, after: Durable, rejected: RejectedEvent) {
    var files := before.files[PendingPath(rejected.rejectionId) := Whole(RejectionDocument(rejected))];
    Stuck(before, after, rejected) || Stuck(before.(files := files), after, rejected)
  }

  function PendingPaths(files: map<Path, Content>): set<Path> {
    set p | p in files.Keys && p.PendingPath?
  }

  ghost predicate WaitsIn(files: map<Path, Content>, rejected: RejectedEvent) {
    exists p :: p in PendingPaths(files) && files[p] == Whole(RejectionDocument(rejected))
  }

  lemma OnlyListed(files: map<Path, Content>, pending: seq<RejectedEvent>, rejected: RejectedEvent)
    requires |pending| == |PendingPaths(files)| && OnlyPending(files, rejected)
    requires forall r | r in pending :: WaitsIn(files, r)
    ensures pending == [rejected]
  {
    assert pending[0] in pending;
  }

  /** The rejection is the only one waiting. */
  ghost predicate OnlyPending(files: map<Path, Content>, rejected: RejectedEvent) {
    && PendingPaths(files) == {PendingPath(rejected.rejectionId)}
    && files[PendingPath(rejected.rejectionId)] == Whole(RejectionDocument(rejected))
  }

  ghost function HeldRejections(held: Option<Document>): seq<RejectedEvent> {
    if held.Some? && held.value.RejectionDocument? then [held.value.rejected] else []
  }

  lemma ReadyRejection(collectorId: Text, log: Log, d: Durable, rejected: RejectedEvent)
    requires Ready(collectorId, log, d, RejectionDocument(rejected))
    ensures PendingPath(rejected.rejectionId) in d.files ==>
              Sound(collectorId, log, d, Some(RejectionDocument(rejected)))
              && d.files[PendingPath(rejected.rejectionId)] == Whole(RejectionDocument(rejected))
    ensures PendingPath(rejected.rejectionId) !in d.files ==> Sound(collectorId, log, d, None)
  {
    hide SerializableRejection, Of;
  }

  lemma PendingIsHeld(collectorId: Text, log: Log, d: Durable, held: Option<Document>)
    requires Sound(collectorId, log, d, held)
    ensures PendingPaths(d.files)
            == (if held.Some? && held.value.RejectionDocument? then {HoldPath(held.value)} else {})
    ensures held.Some? && held.value.RejectionDocument? ==>
              OnlyPending(d.files, held.value.rejected) && Acceptable(collectorId, held.value)
              && Ready(collectorId, log, d, held.value)
  {
    hide SerializableRejection, Of;
    assert forall p | p in PendingPaths(d.files) :: IsHold(p);
  }
}
