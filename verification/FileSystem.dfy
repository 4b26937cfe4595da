/**
 * Durable files. Every file the collector writes is first written as <path>.tmp and then moved to <path>,
 * so the names are two maps: the files, and the temporaries keyed by the path they will become.
 *
 * A primitive that fails may have happened or not, in whole or in part. A crash between any two steps is
 * a failure of the next one followed by the loss of memory, so what holds whenever a primitive may fail
 * holds after every crash.
 */
module FileSystem {
  import opened Exceptions
  import opened Contract
  import opened Documents
  import opened Protocol

  /** Bytes a document occupies; only that a file has at least one byte matters here. */
  function EncodedSize(document: Document): (size: nat)
    ensures size > 0
  {
    if document.BatchDocument? then 1 + |document.batch.events| else 1
  }

  /** The final names that link(2) creates, as opposed to rename(2). */
  type LinkedPath = p: Path |
    p.SealedPath? || p.ManifestPath? || p.HandoffPath? || p.PendingPath? || p.RecordPath?
    witness SealedPath(0)

  class Disk {
    var files: map<Path, Content>
    var temporaries: map<Path, Content>
    /** Temporary names left over between link and unlink: second names of the file that was linked. */
    var twins: set<LinkedPath>
    /** From now on no primitive fails and the backend claims nothing. */
    var healthy: bool

    /** Every document that was ever linked into the handoff or the rejection records. */
    ghost var visible: set<Document>
    /** The records whose checkpoint has been committed, in commit order, and the publications they were in. */
    ghost var committed: seq<Span>
    ghost var landed: set<Id>
    /** Handed-over files that were written again under their temporary name after the backend had moved them. */
    ghost var rewritten: set<Path>

    constructor ()
      ensures files == map[] && temporaries == map[] && twins == {} && visible == {} && committed == [] && landed == {}
              && rewritten == {}
    {
      files, temporaries, twins, healthy := map[], map[], {}, false;
      visible, committed, landed, rewritten := {}, [], {}, {};
    }

    /** The durable state, without the temporaries. */
    ghost function View(): Durable
      reads this
    {
      Durable(files, visible, committed, landed)
    }

    /** What is written under a second name is written to the file that bears the first. */
    method Mirror(path: Path)
      modifies this`files, this`rewritten
      ensures path !in twins ==> files == old(files) && rewritten == old(rewritten)
      ensures path in twins && path !in old(files) ==>
                && files == old(files)
                && rewritten == if path.HandoffPath? then old(rewritten) + {path} else old(rewritten)
      ensures path in twins && path in old(files) && path in temporaries ==>
                files == old(files)[path := temporaries[path]] && rewritten == old(rewritten)
    {
      if path in twins {
        if path !in files {
          if path.HandoffPath? {
            rewritten := rewritten + {path};
          }
        } else if path in temporaries {
          files := files[path := temporaries[path]];
        }
      }
    }

    /** write_file_durable(path + ".tmp", document): truncates, then writes. */
    method WriteTemporary(path: Path, document: Document) returns (outcome: Outcome)
      modifies this`files, this`temporaries, this`rewritten
      ensures outcome.Pass? ==> temporaries == old(temporaries)[path := Whole(document)]
      ensures outcome.Fail? ==> !healthy && outcome.error == IoFailure
      ensures outcome.Fail? ==>
                temporaries == old(temporaries)
                || (path in temporaries && temporaries == old(temporaries)[path := temporaries[path]])
      ensures path !in twins || path !in old(files) ==> files == old(files)
      ensures path !in twins || path in old(files) || !path.HandoffPath? ==> rewritten == old(rewritten)
      ensures path in twins && path !in old(files) && path.HandoffPath? ==>
                (rewritten == old(rewritten) && outcome.Fail?) || rewritten == old(rewritten) + {path}
      ensures path in twins && path in old(files) ==>
                (files == old(files) && outcome.Fail?)
                || (path in temporaries && files == old(files)[path := temporaries[path]])
    {
      var fault: bool := *;
      if fault && !healthy {
        return Fail(IoFailure);
      }
      var size := EncodedSize(document);
      var offset := 0;
      temporaries := temporaries[path := Torn(0)];
      Mirror(path);
      while offset < size
        invariant 0 <= offset <= size
        invariant path in temporaries && temporaries == old(temporaries)[path := temporaries[path]]
        invariant offset == size ==> temporaries[path] == Whole(document)
        invariant files
                  == if path in twins && path in old(files) then old(files)[path := temporaries[path]] else old(files)
        invariant rewritten
                  == if path in twins && path !in old(files) && path.HandoffPath? then old(rewritten) + {path}
                     else old(rewritten)
      {
        fault := *;
        if fault && !healthy {
          return Fail(IoFailure);
        }
        var written: nat :| 1 <= written <= size - offset;
        offset := offset + written;
        temporaries := temporaries[path := if offset == size then Whole(document) else Torn(offset)];
        Mirror(path);
      }
      fault := *;
      if fault && !healthy {
        return Fail(IoFailure);
      }
      return Pass;
    }

    /** The ghost record of a link or rename that makes a document visible. */
    ghost method Show(path: Path, content: Content)
      modifies this`visible
      ensures visible == if IsShow(path) && content.Whole? then old(visible) + {content.document} else old(visible)
    {
      if IsShow(path) && content.Whole? {
        visible := visible + {content.document};
      }
    }

    /** rename_durable(path + ".tmp", path, false): link, then unlink the temporary name. */
    method LinkTemporary(path: LinkedPath) returns (outcome: Outcome)
      modifies this`files, this`temporaries, this`twins, this`visible
      ensures outcome.Fail? ==> outcome.error == IoFailure
      ensures path in old(temporaries) && path !in old(files) && healthy ==> outcome.Pass?
      ensures files == old(files) ==> outcome.Fail? && visible == old(visible) && temporaries == old(temporaries)
      ensures files != old(files) ==>
                && path in old(temporaries) && path !in old(files)
                && files == old(files)[path := old(temporaries)[path]]
                && visible == (if IsShow(path) && files[path].Whole? then old(visible) + {files[path].document}
                               else old(visible))
      ensures outcome.Pass? ==> temporaries == old(temporaries) - {path}
      ensures temporaries == old(temporaries) || temporaries == old(temporaries) - {path}
      ensures twins == if outcome.Pass? then old(twins) - {path}
                       else if files != old(files) then old(twins) + {path}
                       else old(twins)
    {
      var fault: bool := *;
      if path !in temporaries || path in files || (fault && !healthy) {
        return Fail(IoFailure);
      }
      var content := temporaries[path];
      files := files[path := content];
      Show(path, content);
      assert files[path] == content && path in files;
      twins := twins + {path};
      fault := *;
      if fault && !healthy {
        return Fail(IoFailure);
      }
      temporaries, twins := temporaries - {path}, twins - {path};
      return Pass;
    }

    /** rename_durable(path + ".tmp", path, true): replaces in one step. */
    method ReplaceByTemporary(path: Path) returns (outcome: Outcome)
      modifies this`files, this`temporaries, this`visible
      ensures outcome.Fail? ==> outcome.error == IoFailure
      ensures path in old(temporaries) && healthy ==> outcome.Pass?
      ensures outcome.Pass? ==> path in old(temporaries) && files == old(files)[path := old(temporaries)[path]]
      ensures !IsShow(path) ==> visible == old(visible)
      ensures files == old(files)
              || (path in old(temporaries) && files == old(files)[path := old(temporaries)[path]])
      ensures temporaries == old(temporaries) || temporaries == old(temporaries) - {path}
    {
      var fault: bool := *;
      if path !in temporaries || (fault && !healthy) {
        return Fail(IoFailure);
      }
      files := files[path := temporaries[path]];
      Show(path, files[path]);
      temporaries := temporaries - {path};
      fault := *;
      if fault && !healthy {
        return Fail(IoFailure);
      }
      return Pass;
    }

    /** remove_file_durable(path) */
    method Remove(path: Path) returns (outcome: Outcome)
      modifies this`files
      ensures outcome.Fail? ==> !healthy && outcome.error == IoFailure
      ensures outcome.Pass? ==> files == old(files) - {path}
      ensures files == old(files) || files == old(files) - {path}
    {
      var fault: bool := *;
      if fault && !healthy {
        return Fail(IoFailure);
      }
      files := files - {path};
      fault := *;
      if fault && !healthy {
        return Fail(IoFailure);
      }
      return Pass;
    }

    /** remove_file_durable(path + ".tmp") */
    method RemoveTemporary(path: Path) returns (outcome: Outcome)
      modifies this`temporaries, this`twins
      ensures outcome.Fail? ==> !healthy && outcome.error == IoFailure
      ensures outcome.Pass? ==> temporaries == old(temporaries) - {path}
      ensures temporaries == old(temporaries) || temporaries == old(temporaries) - {path}
    {
      var fault: bool := *;
      if fault && !healthy {
        return Fail(IoFailure);
      }
      temporaries, twins := temporaries - {path}, twins - {path};
      fault := *;
      if fault && !healthy {
        return Fail(IoFailure);
      }
      return Pass;
    }

    /** std::filesystem::exists with its error_code */
    method Exists(path: Path) returns (found: Result<bool>)
      ensures found.Success? ==> found.value == (path in files)
      ensures found.Failure? ==> !healthy && found.error == IoFailure
    {
      var fault: bool := *;
      if fault && !healthy {
        return Failure(IoFailure);
      }
      return Success(path in files);
    }

    /** read_file_bounded: a missing file cannot be read. */
    method Read(path: Path) returns (content: Result<Content>)
      ensures content.Success? ==> path in files && content.value == files[path]
      ensures content.Failure? ==> content.error == IoFailure
      ensures path in files && healthy ==> content.Success?
    {
      var fault: bool := *;
      if path !in files || (fault && !healthy) {
        return Failure(IoFailure);
      }
      return Success(files[path]);
    }

    /** The backend claims any of the handed-over batches: it moves them out of the intake directory. */
    method BackendClaims()
      modifies this`files
      ensures files.Keys <= old(files).Keys
      ensures forall p | p in files :: files[p] == old(files)[p]
      ensures forall p | p in old(files) && !p.HandoffPath? :: p in files
      ensures healthy ==> files == old(files)
    {
      if healthy {
        return;
      }
      var claimed: set<Path> := *;
      files := map p | p in files && !(p.HandoffPath? && p in claimed) :: files[p];
    }
  }
}
