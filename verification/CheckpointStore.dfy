/** The checkpoint: merged source positions, replaced atomically, never moving back within a file. */
module CheckpointStore {
  import opened Exceptions
  import opened Octets
  import opened Contract
  import opened Documents
  import opened FileSystem
  import opened Protocol

  /** The checkpoint file, when there is one, is a checkpoint of this collector. */
  predicate Readable(files: map<Path, Content>, collectorId: Text) {
    CheckpointPath in files ==>
      && files[CheckpointPath].Whole? && files[CheckpointPath].document.CheckpointDocument?
      && files[CheckpointPath].document.checkpoint.collectorId == collectorId
  }

  /** What commit() writes. */
  function Committed(files: map<Path, Content>, collectorId: Text, kind: PublicationKind, id: Id,
                     at: Timestamp, positions: Marks): map<Path, Content>
  {
    var checkpoint := CheckpointState(collectorId, at, kind, id, CheckpointMarks(files) + positions);
    files[CheckpointPath := Whole(CheckpointDocument(checkpoint))]
  }

  class Store {
    const disk: Disk

    constructor (disk: Disk)
      ensures this.disk == disk
    {
      this.disk := disk;
    }

    method Load() returns (state: Result<Option<CheckpointState>>)
      ensures state.Success? ==>
                state.value == (if CheckpointPath in disk.files && disk.files[CheckpointPath].Whole?
                                   && disk.files[CheckpointPath].document.CheckpointDocument?
                                then Some(disk.files[CheckpointPath].document.checkpoint) else None)
      ensures state.Success? && CheckpointPath in disk.files ==> state.value.Some?
      ensures state.Failure? ==>
                || (!disk.healthy && state.error == IoFailure)
                || (state.error == CheckpointInvalid && forall id :: !Readable(disk.files, id))
    {
      var found :- disk.Exists(CheckpointPath);
      if !found {
        return Success(None);
      }
      var content :- disk.Read(CheckpointPath);
      match content {
        case Whole(CheckpointDocument(checkpoint)) => return Success(Some(checkpoint));
        case _ => return Failure(CheckpointInvalid);
      }
    }

    method Merge(existing: Marks, positions: Marks) returns (merged: Result<Marks>)
      ensures merged.Success? ==> merged.value == existing + positions && !AnyRegression(existing, positions)
      ensures merged.Failure? ==> merged.error == CheckpointRegression && AnyRegression(existing, positions)
    {
      var result := existing;
      var todo := positions.Keys;
      while todo != {}
        invariant todo <= positions.Keys
        invariant result == existing + (positions - todo)
        invariant forall s | s in positions && s in existing && s !in todo :: !Regresses(existing[s], positions[s])
      {
        var s :| s in todo;
        if s in result && Regresses(result[s], positions[s]) {
          return Failure(CheckpointRegression);
        }
        result := result[s := positions[s]];
        todo := todo - {s};
      }
      return Success(result);
    }

    method Commit(collectorId: Text, kind: PublicationKind, publicationId: Id, committedAt: Timestamp,
                  positions: Marks, ghost spans: seq<Span>)
      returns (outcome: Result<()>)
      modifies disk`files, disk`temporaries, disk`twins, disk`rewritten, disk`visible, disk`committed, disk`landed
      ensures disk.visible == old(disk.visible) && disk.rewritten == old(disk.rewritten)
      ensures (disk.files == old(disk.files) && disk.committed == old(disk.committed)
              && disk.landed == old(disk.landed) && outcome.Failure?)
              || (&& disk.files == Committed(old(disk.files), collectorId, kind, publicationId, committedAt, positions)
                  && disk.committed == (if publicationId in old(disk.landed) then old(disk.committed)
                                        else old(disk.committed) + spans)
                  && disk.landed == old(disk.landed) + {publicationId}
                  && Readable(old(disk.files), collectorId)
                  && !AnyRegression(CheckpointMarks(old(disk.files)), positions))
      ensures outcome.Failure? && Readable(old(disk.files), collectorId) && positions != map[] ==>
                || (outcome.error == IoFailure && !disk.healthy)
                || (outcome.error == CheckpointRegression && AnyRegression(CheckpointMarks(old(disk.files)), positions))
    {
      if positions == map[] {
        return Failure(CheckpointInvalid);
      }
      var state :- Load();
      var existing: Marks := map[];
      if state.Some? {
        if state.value.collectorId != collectorId {
          return Failure(ForeignCollector);
        }
        existing := state.value.sources;
      }
      var merged :- Merge(existing, positions);
      var checkpoint := CheckpointState(collectorId, committedAt, kind, publicationId, merged);
      :- disk.WriteTemporary(CheckpointPath, CheckpointDocument(checkpoint));
      ghost var before := disk.files;
      var replaced := disk.ReplaceByTemporary(CheckpointPath);
      if replaced.Pass? || disk.files != before {
        if publicationId !in disk.landed {
          disk.committed := disk.committed + spans;
        }
        disk.landed := disk.landed + {publicationId};
      }
      :- replaced;
      return Success(());
    }
  }
}
