/** What becomes of a file that is truncated in place and read again. */
module Truncation {
  import opened Exceptions
  import opened Octets
  import opened Contract
  import opened Documents
  import opened Foreign
  import opened Protocol
  import opened RawEvents
  import opened FileReader
  import opened SourceLogs
  import opened CheckpointStore
  import Lines
  import BaselineMapper
  import OutboxPublisher

  /** The checkpoint of this file stands beyond everything that it holds now. */
  ghost predicate Beyond(marks: Marks, source: SourceId, file: Snapshot) {
    && source in marks && OffsetOf(marks[source]).Some?
    && OffsetOf(marks[source]).value.0 == file.identity && |file.content| < OffsetOf(marks[source]).value.1
  }

  /** Whatever its last event, a batch of events of the file as it is now regresses. */
  lemma EventsRegress(marks: Marks, file: Snapshot, events: seq<ContractEvent>)
    requires events != []
    requires var span := SpanOf(events[|events| - 1]);
             Beyond(marks, span.source, file) && span.identity == file.identity && span.end <= |file.content|
    requires var event := events[|events| - 1];
             event.source.position.FilePosition? && event.source.sourceId == SpanOf(event).source
    ensures AnyRegression(marks, MarksOfEvents(events))
  {
    var last := events[|events| - 1];
    var source := last.source.sourceId;
    assert source in MarksOfEvents(events) && Regresses(marks[source], MarksOfEvents(events)[source]);
  }

  lemma RejectionRegresses(marks: Marks, file: Snapshot, span: Span)
    requires Beyond(marks, span.source, file) && span.identity == file.identity && span.end <= |file.content|
    ensures AnyRegression(marks, map[span.source := RejectionMark(span.identity, span.start, span.end)])
  {
    var positions := map[span.source := RejectionMark(span.identity, span.start, span.end)];
    assert span.source in positions && Regresses(marks[span.source], positions[span.source]);
  }

  lemma SomethingRead(library: Library, options: Options, file: Snapshot, items: seq<ReadItem>, last: nat)
    requires HandsOver(library, options, file, items, 0, last)
    requires 0 < last && Lines.Boundary(file.content, last)
    ensures items != []
  {
  }

  /** The places of what a poll handed over end within the file. */
  lemma HandedEnds(library: Library, options: Options, file: Snapshot, items: seq<ReadItem>, last: nat)
    requires HandsOver(library, options, file, items, 0, last)
    ensures forall item | item in items ::
              var span := SpanOfItem(item);
              span.source == options.sourceId && span.identity == file.identity && span.end <= |file.content|
  {
    hide Lines.Records, Lines.AreLines, VerdictOf;
    HandedSpans(library, options, file, items, 0, last);
    Lines.RecordsAreLines(file.content, 0, last);
    var lines := Lines.Records(file.content, 0, last);
    forall i | 0 <= i < |items|
      ensures SpanOfItem(items[i]).source == options.sourceId && SpanOfItem(items[i]).identity == file.identity
      ensures SpanOfItem(items[i]).end <= |file.content|
    {
      EveryLine(file.content, 0, last, lines, i);
      assert SpanOfItem(items[i]) == SpansOfItems(items)[i];
    }
  }

  /** The events of a poll's records, or else the position of its first rejection: what is committed first. */
  method PositionsOf(library: Library, items: seq<ReadItem>, batchId: Id, collectorId: Text, at: Timestamp,
          ghost marks: Marks, ghost source: SourceId, ghost file: Snapshot)
    returns (positions: Marks, ghost spans: seq<Span>)
    requires items != [] && Beyond(marks, source, file)
    requires forall item | item in items ::
               var span := SpanOfItem(item);
               span.source == source && span.identity == file.identity && span.end <= |file.content|
    ensures positions != map[] && AnyRegression(marks, positions)
  {
    hide BaselineMapper.EventFrom, BaselineMapper.Mappable, Beyond, AnyRegression, BaselineMapper.Objection;
    var events: seq<ContractEvent> := [];
    for i := 0 to |items|
      invariant events != [] ==>
                  var last := events[|events| - 1];
                  && SpanOf(last).source == source && SpanOf(last).identity == file.identity
                  && SpanOf(last).end <= |file.content|
                  && last.source.position.FilePosition? && last.source.sourceId == source
    {
      if items[i].RawItem? {
        assert SpanOfItem(items[i]) == items[i].raw.source;
        var mapped := BaselineMapper.Map(library, items[i].raw);
        if mapped.Success? && mapped.value.Mapped? {
          events := events + [mapped.value.event];
        }
      }
    }
    if events == [] {
      var span := SpanOfItem(items[0]);
      positions, spans := map[span.source := RejectionMark(span.identity, span.start, span.end)], [span];
      assert span.source in positions;
      RejectionRegresses(marks, file, span);
    } else {
      positions := OutboxPublisher.PositionsFor(EventBatch(batchId, collectorId, at, events, Integrity([], None)));
      spans := SpansOfEvents(events);
      EventsRegress(marks, file, events);
    }
  }

  /**
   * Why the files must only grow. A file truncated in place, under the same identity, is read again from its start;
   * its records end before the checkpoint, and the first commit of what they become is refused, with nothing changed.
   */
  method RereadTruncated(reader: Reader, store: Store, collectorId: Text, maximumRecords: nat, views: Views,
          kind: PublicationKind, batchId: Id, at: Timestamp, ghost file: Snapshot, ghost newline: nat)
    returns (items: seq<ReadItem>, outcome: Result<()>)
    requires reader.Valid() && 0 < maximumRecords && AllSeen(views)
    requires reader.StartsOver(views, file) && reader.identity == file.identity
    requires newline < |views.streamed.value.content| && newline < reader.options.maximumPollBytes
    requires file.content[newline] == Lines.NEWLINE
    requires Readable(store.disk.files, collectorId)
    requires Beyond(CheckpointMarks(store.disk.files), reader.options.sourceId, file)
    modifies reader
    modifies store.disk`files, store.disk`temporaries, store.disk`twins, store.disk`rewritten, store.disk`visible
    modifies store.disk`committed, store.disk`landed
    ensures reader.Follows(file) && items != []
    ensures HandsOver(reader.library, reader.options, file, items, 0, reader.Position())
    ensures outcome.Failure? && (store.disk.healthy ==> outcome.error == CheckpointRegression)
    ensures store.disk.files == old(store.disk.files) && store.disk.committed == old(store.disk.committed)
    ensures store.disk.landed == old(store.disk.landed)
  {
    hide HandsOver, Beyond, AnyRegression, AppendOnly, Reader.StartsOver, Reader.Valid;
    var polled, read := reader.Poll(maximumRecords, views, file);
    items := polled.value.items;
    if |items| < maximumRecords {
      BeyondNewline(reader, file, newline);
      SomethingRead(reader.library, reader.options, file, items, reader.Position());
    }
    HandedEnds(reader.library, reader.options, file, items, reader.Position());
    var positions, spans := PositionsOf(reader.library, items, batchId, collectorId, at,
        CheckpointMarks(store.disk.files),
                                        reader.options.sourceId, file);
    outcome := store.Commit(collectorId, kind, batchId, at, positions, spans);
  }

  lemma BeyondNewline(reader: Reader, file: Snapshot, newline: nat)
    requires reader.Follows(file) && reader.initialized && newline < reader.Floor()
             && file.content[newline] == Lines.NEWLINE
    ensures 0 < reader.Position() && Lines.Boundary(file.content, reader.Position())
  {
    var unread := file.content[reader.pendingStart..reader.readOffset];
    assert forall i | reader.pendingStart <= i < reader.readOffset ::
        file.content[i] == unread[i - reader.pendingStart];
  }
}
