/**
 * Where what the runtime holds came from: every input and every event is a record of the files, or what one maps to.
 */
module Origins {
  import opened Exceptions
  import opened Octets
  import opened Contract
  import opened Documents
  import opened Foreign
  import opened Json
  import opened Lines
  import opened Protocol
  import opened Pipeline
  import opened RawEvents
  import opened Serialization
  import opened FileReader
  import opened SourceLogs
  import opened MappedEvents
  import opened Utf8
  import BaselineMapper
  import BatchAssembler
  import BoundedEventQueue

  /** This line of its source's file, read at some instant, is the raw record. */
  ghost predicate ReadsAs(library: Library, files: Files, line: Line, raw: RawEvent) {
    && raw.source.source in files && IsInstant(raw.receivedTime)
    && var file := files[raw.source.source];
       && line in Records(file.content, 0, |file.content|)
       && ItemOf(library, OptionsOf(raw.source.source, Oldest, None), file.identity, line, raw.receivedTime)
           == RawItem(raw)
  }

  ghost predicate SpringsRaw(library: Library, files: Files, raw: RawEvent) {
    exists line :: ReadsAs(library, files, line, raw)
  }

  ghost predicate Springs(library: Library, files: Files, input: PendingInput) {
    match input
    case RawInput(raw) => SpringsRaw(library, files, raw)
    case MappedInput(event) => exists raw ::
        SpringsRaw(library, files, raw) && BaselineMapper.EventFrom(library, raw) == Some(event)
    case RejectedInput(_) => true
  }

  /** The record at this place maps to an event that a batch refuses. */
  ghost predicate RefusedAt(library: Library, files: Files, span: Span) {
    exists raw ::
      && SpringsRaw(library, files, raw) && raw.source == span
      && BaselineMapper.EventFrom(library, raw).Some?
      && !BatchAssembler.Representable(BaselineMapper.EventFrom(library, raw).value, MAXIMUM_BATCH_BYTES)
  }

  /** The record at this place maps to an event. */
  ghost predicate MappedAt(library: Library, files: Files, span: Span) {
    exists raw :: SpringsRaw(library, files, raw) && raw.source == span && BaselineMapper.EventFrom(library, raw).Some?
  }

  /** No record whose event a batch refuses is followed, in its file, by one that maps to an event. */
  ghost predicate NothingToOvertake(library: Library, files: Files) {
    forall s: SourceId, i, j | 0 <= i < j < |RecordsOf(LogOf(files), s)| ::
      !(RefusedAt(library, files, RecordsOf(LogOf(files), s)[i])
          && MappedAt(library, files, RecordsOf(LogOf(files), s)[j]))
  }

  /** Every raw record that a poll hands over is a line of the file as read now. */
  lemma HandedReads(library: Library, options: Options, files: Files, items: seq<ReadItem>, from: nat, last: nat)
    requires Standard(options) && options.sourceId in files
    requires HandsOver(library, options, files[options.sourceId], items, from, last)
    requires Records(files[options.sourceId].content, 0, last)
          == Records(files[options.sourceId].content, 0, from) + Records(files[options.sourceId].content, from, last)
    ensures forall i | 0 <= i < |items| && items[i].RawItem? ::
              ReadsAs(library, files, Records(files[options.sourceId].content, from, last)[i], items[i].raw)
  {
    hide Records, Standard, ItemOf;
    var file := files[options.sourceId];
    RecordsExtend(file.content, last, |file.content|);
    var lines := Records(file.content, from, last);
    forall i | 0 <= i < |items| && items[i].RawItem? ensures ReadsAs(library, files, lines[i], items[i].raw) {
      assert lines[i] in Records(file.content, 0, last);
      assert lines[i] in Records(file.content, 0, |file.content|);
      assert Describes(library, options, file.identity, items[i], lines[i]);
      StandardItems(library, options, file.identity, lines[i], ReceivedAt(items[i]));
      ItemSource(library, options, file.identity, lines[i], ReceivedAt(items[i]));
    }
  }

  /** What a poll hands over comes from the files. */
  lemma HandedSprings(library: Library, options: Options, files: Files, items: seq<ReadItem>, from: nat, last: nat)
    requires Standard(options) && options.sourceId in files
    requires HandsOver(library, options, files[options.sourceId], items, from, last)
    requires Records(files[options.sourceId].content, 0, last)
          == Records(files[options.sourceId].content, 0, from) + Records(files[options.sourceId].content, from, last)
    ensures forall x | x in InputsOf(items) :: Springs(library, files, x)
  {
    hide Records, Standard, ReadsAs, Describes, BaselineMapper.EventFrom, ItemOf;
    HandedReads(library, options, files, items, from, last);
    forall i | 0 <= i < |items| ensures Springs(library, files, InputOf(items[i])) {
    }
  }

  lemma ItemSource(library: Library, options: Options, identity: Text, line: Line, at: Timestamp)
    ensures var item := ItemOf(library, options, identity, line, at);
            item.RawItem? ==>
              item.raw.source == Span(options.sourceId, identity, line.start, line.end) && item.raw.receivedTime == at
  {
    hide EnvelopeVerdict, IsUtf8;
  }

  lemma SpringsRawGrows(library: Library, files: Files, longer: Files, raw: RawEvent)
    requires Longer(files, longer) && SpringsRaw(library, files, raw)
    ensures SpringsRaw(library, longer, raw)
  {
    hide Records, ItemOf;
    var line :| ReadsAs(library, files, line, raw);
    var s := raw.source.source;
    RecordsGrow(files[s].content, longer[s].content, 0);
    assert Records(files[s].content, 0, |files[s].content|) <= Records(longer[s].content, 0, |longer[s].content|);
    assert ReadsAs(library, longer, line, raw);
  }

  lemma SpringsGrows(library: Library, files: Files, longer: Files, input: PendingInput)
    requires Longer(files, longer) && Springs(library, files, input)
    ensures Springs(library, longer, input)
  {
    hide SpringsRaw, BaselineMapper.EventFrom, Longer;
    match input {
      case RawInput(raw) => SpringsRawGrows(library, files, longer, raw);
      case MappedInput(event) =>
        var raw :| SpringsRaw(library, files, raw) && BaselineMapper.EventFrom(library, raw) == Some(event);
        SpringsRawGrows(library, files, longer, raw);
      case RejectedInput(_) =>
    }
  }

  lemma RefusedGrows(library: Library, files: Files, longer: Files, span: Span)
    requires Longer(files, longer)
    ensures RefusedAt(library, files, span) ==> RefusedAt(library, longer, span)
    ensures MappedAt(library, files, span) ==> MappedAt(library, longer, span)
  {
    hide SpringsRaw, BaselineMapper.EventFrom, Longer, BatchAssembler.Representable;
    if RefusedAt(library, files, span) {
      var raw :| && SpringsRaw(library, files, raw) && raw.source == span
      && BaselineMapper.EventFrom(library, raw).Some?
                 && !BatchAssembler.Representable(BaselineMapper.EventFrom(library, raw).value, MAXIMUM_BATCH_BYTES);
      SpringsRawGrows(library, files, longer, raw);
    }
    if MappedAt(library, files, span) {
      var raw :| SpringsRaw(library, files, raw) && raw.source == span && BaselineMapper.EventFrom(library, raw).Some?;
      SpringsRawGrows(library, files, longer, raw);
    }
  }

  lemma NothingToOvertakeBefore(library: Library, files: Files, longer: Files)
    requires Longer(files, longer) && NothingToOvertake(library, longer)
    ensures NothingToOvertake(library, files)
  {
    hide RefusedAt, MappedAt, LogOf, RecordsOf;
    LogGrows(files, longer);
    forall s: SourceId, i, j | 0 <= i < j < |RecordsOf(LogOf(files), s)|
      ensures !(RefusedAt(library, files, RecordsOf(LogOf(files), s)[i])
              && MappedAt(library, files, RecordsOf(LogOf(files), s)[j]))
    {
      var fewer, more := RecordsOf(LogOf(files), s), RecordsOf(LogOf(longer), s);
      assert fewer <= more;
      RefusedGrows(library, files, longer, fewer[i]);
      RefusedGrows(library, files, longer, fewer[j]);
      assert !(RefusedAt(library, longer, more[i]) && MappedAt(library, longer, more[j]));
    }
  }

  /** Where nothing is to be overtaken, no queued event is of the source of a refused one that waits. */
  lemma NoJump(library: Library, files: Files, before: seq<Span>, next: Span, queued: seq<ContractEvent>,
          rest: seq<Span>)
    requires NothingToOvertake(library, files) && InOrder(LogOf(files), before + [next] + SpansOfEvents(queued) + rest)
    requires RefusedAt(library, files, next) && forall e | e in queued :: Springs(library, files, MappedInput(e))
    ensures !Mentions(SpansOfEvents(queued), next.source)
  {
    hide InOrder, LogOf, RefusedAt, MappedAt, SpringsRaw, RecordsOf, Springs;
    var passed := SpansOfEvents(queued);
    if Mentions(passed, next.source) {
      var i :| 0 <= i < |passed| && passed[i].source == next.source;
      assert queued[i] in queued && passed[i] == SpanOf(queued[i]);
      MapsAt(library, files, queued[i]);
      var k, j := LaterInLog(LogOf(files), before, next, passed, rest, i);
      assert false;
    }
  }

  lemma MapsAt(library: Library, files: Files, event: ContractEvent)
    requires Springs(library, files, MappedInput(event))
    ensures MappedAt(library, files, SpanOf(event))
    ensures !BatchAssembler.Representable(event, MAXIMUM_BATCH_BYTES) ==> RefusedAt(library, files, SpanOf(event))
  {
    hide SpringsRaw, BatchAssembler.Representable;
    var raw :| SpringsRaw(library, files, raw) && BaselineMapper.EventFrom(library, raw) == Some(event);
    assert SpanOf(event) == raw.source;
  }

  // ---------------------------------------------------------------- what such records are

  /** A record of named files is one that a reader hands over. */
  lemma SpringsAsRead(library: Library, files: Files, raw: RawEvent)
    requires NamedFiles(files) && SpringsRaw(library, files, raw) && raw.source.end <= MAXIMUM_SAFE_INTEGER
    ensures AsRead(library, raw)
  {
    hide Records, EnvelopeVerdict, IsUtf8, MatchesIdentifier, StartOf, AreLines;
    var line :| ReadsAs(library, files, line, raw);
    var file := files[raw.source.source];
    RecordsAreLines(file.content, 0, |file.content|);
    var lines := Records(file.content, 0, |file.content|);
    var i :| 0 <= i < |lines| && lines[i] == line;
    EveryLine(file.content, 0, |file.content|, lines, i);
    VerdictIs(library, OptionsOf(raw.source.source, Oldest, None), line.text);
  }

  lemma VerdictIs(library: Library, options: Options, text: Text)
    ensures var verdict := VerdictOf(library, options, text);
            verdict.Accepted? ==>
              && |text| <= options.maximumRecordBytes && IsUtf8(text)
              && library.parseStrict(text) == Foreign.Document(verdict.document) && verdict.document.Obj?
              && verdict == EnvelopeVerdict(verdict.document)
  {
    hide IsUtf8, RequiredField;
  }

  /** An event that came from the files fits, twice over, any queue that the configuration allows. */
  lemma SpringsWeighs(library: Library, files: Files, event: ContractEvent)
    requires Lawful(library) && NamedFiles(files) && Springs(library, files, MappedInput(event))
    requires SpanOf(event).end <= MAXIMUM_SAFE_INTEGER
    ensures BoundedEventQueue.EventBytes(event) <= EVENT_WEIGHT && |event.rawPayload| <= MAXIMUM_EVENT_BYTES
  {
    hide SpringsRaw, Lawful, NamedFiles, BoundedEventQueue.EventBytes;
    var raw :| SpringsRaw(library, files, raw) && BaselineMapper.EventFrom(library, raw) == Some(event);
    SpringsAsRead(library, files, raw);
    EventWeighs(library, raw, event);
  }

  /** Of the events that records map to, batches take exactly those that they are sure to hold. */
  lemma SpringsIsHeld(library: Library, files: Files, event: ContractEvent)
    requires Lawful(library) && NamedFiles(files) && Springs(library, files, MappedInput(event))
    requires SpanOf(event).end <= MAXIMUM_SAFE_INTEGER
    ensures BatchAssembler.EventOk(event) <==> BatchAssembler.Representable(event, MAXIMUM_BATCH_BYTES)
  {
    hide SpringsRaw, Lawful, NamedFiles, BatchAssembler.EventOk, BatchAssembler.Representable;
    var raw :| SpringsRaw(library, files, raw) && BaselineMapper.EventFrom(library, raw) == Some(event);
    SpringsAsRead(library, files, raw);
    RefusedWhen(library, raw, event);
  }

  // ---------------------------------------------------------------- two records, the first of them refused

  /** The record is accepted and, whenever it is read, maps to an event before 1970 that is not on a whole second. */
  ghost predicate FractionBefore1970(library: Library, files: Files, source: SourceId, line: Line) {
    && VerdictOf(library, OptionsOf(source, Oldest, None), line.text).Accepted?
    && forall raw | ReadsAs(library, files, line, raw) && raw.source.source == source ::
         && BaselineMapper.EventFrom(library, raw).Some?
         && library.rfc3339Milliseconds(raw.eventTime).value < 0
         && library.rfc3339Milliseconds(raw.eventTime).value % 1000 != 0
  }

  /** The record is accepted and, whenever it is read, maps to an event that a batch holds. */
  ghost predicate HeldByBatches(library: Library, files: Files, source: SourceId, line: Line) {
    && VerdictOf(library, OptionsOf(source, Oldest, None), line.text).Accepted?
    && forall raw | ReadsAs(library, files, line, raw) && raw.source.source == source ::
         BaselineMapper.EventFrom(library, raw).Some?
         && BatchAssembler.EventOk(BaselineMapper.EventFrom(library, raw).value)
  }

  /** From here on the file holds two records, one of either kind; the first is at this place. */
  ghost predicate RefusedComesNext(library: Library, files: Files, source: SourceId, from: nat, span: Span) {
    && source in files && from <= |files[source].content|
    && var file := files[source];
       var lines := Records(file.content, from, |file.content|);
       && |lines| == 2 && FractionBefore1970(library, files, source, lines[0])
       && HeldByBatches(library, files, source, lines[1])
       && span == SpanOfLine(source, file.identity, lines[0])
  }

  /** Two events of one source: no batch can hold the first, which is of this place, and every batch the second. */
  ghost predicate RefusedThenHeld(events: seq<ContractEvent>, span: Span) {
    && |events| == 2 && SpanOf(events[0]) == span && SpanOf(events[1]).source == span.source
    && !BatchAssembler.EventOk(events[0]) && BatchAssembler.Representable(events[1], MAXIMUM_BATCH_BYTES)
    && (forall e | e in events ::
          BoundedEventQueue.EventBytes(e) <= EVENT_WEIGHT && |e.rawPayload| <= MAXIMUM_EVENT_BYTES)
  }

  lemma EarlyIsRefused(library: Library, files: Files, line: Line, raw: RawEvent)
    requires Lawful(library) && NamedFiles(files) && ReadsAs(library, files, line, raw)
             && raw.source.end <= MAXIMUM_SAFE_INTEGER
    requires FractionBefore1970(library, files, raw.source.source, line)
    ensures BaselineMapper.EventFrom(library, raw).Some?
    ensures var event := BaselineMapper.EventFrom(library, raw).value;
            && !BatchAssembler.EventOk(event) && SpanOf(event) == raw.source
            && BoundedEventQueue.EventBytes(event) <= EVENT_WEIGHT && |event.rawPayload| <= MAXIMUM_EVENT_BYTES
  {
    hide ReadsAs, Lawful, NamedFiles, BaselineMapper.UtcTimestamp, VerdictOf, BoundedEventQueue.EventBytes;
    var event := BaselineMapper.EventFrom(library, raw).value;
    FractionBeforeEpochIsRefused(library, event, library.rfc3339Milliseconds(raw.eventTime).value);
    SpringsAsRead(library, files, raw);
    EventWeighs(library, raw, event);
  }

  lemma HeldIsRepresentable(library: Library, files: Files, line: Line, raw: RawEvent)
    requires Lawful(library) && NamedFiles(files) && ReadsAs(library, files, line, raw)
             && raw.source.end <= MAXIMUM_SAFE_INTEGER
    requires HeldByBatches(library, files, raw.source.source, line)
    ensures BaselineMapper.EventFrom(library, raw).Some?
    ensures var event := BaselineMapper.EventFrom(library, raw).value;
            && BatchAssembler.Representable(event, MAXIMUM_BATCH_BYTES) && SpanOf(event) == raw.source
            && BoundedEventQueue.EventBytes(event) <= EVENT_WEIGHT && |event.rawPayload| <= MAXIMUM_EVENT_BYTES
  {
    hide ReadsAs, Lawful, NamedFiles, BatchAssembler.EventOk, BatchAssembler.Representable, VerdictOf,
      BoundedEventQueue.EventBytes;
    var event := BaselineMapper.EventFrom(library, raw).value;
    SpringsAsRead(library, files, raw);
    RefusedWhen(library, raw, event);
    EventWeighs(library, raw, event);
  }

  /** The items are the records from there to the end of the file. */
  ghost predicate ReadsToEnd(library: Library, options: Options, file: Snapshot, items: seq<ReadItem>, from: nat) {
    && HandsOver(library, options, file, items, from, |file.content|)
    && Records(file.content, 0, |file.content|)
       == Records(file.content, 0, from) + Records(file.content, from, |file.content|)
    && forall item | item in items :: SpanOfItem(item).end <= MAXIMUM_SAFE_INTEGER
  }

  /** What a poll makes of two such records. */
  lemma TwoHandedOver(library: Library, options: Options, files: Files, items: seq<ReadItem>, from: nat, span: Span)
    requires Lawful(library) && NamedFiles(files) && Standard(options) && options.sourceId in files
    requires RefusedComesNext(library, files, options.sourceId, from, span)
    requires ReadsToEnd(library, options, files[options.sourceId], items, from)
    ensures AllMap(library, InputsOf(items)) && RefusedThenHeld(EventsOf(library, InputsOf(items)), span)
  {
    hide Records, ReadsAs, Lawful, NamedFiles, BatchAssembler.EventOk, BatchAssembler.Representable,
      BoundedEventQueue.EventBytes, BaselineMapper.EventFrom, FractionBefore1970, HeldByBatches, AllMap, EventsOf,
      InputsOf, EventOfInput, ItemOf;
    var id, file := options.sourceId, files[options.sourceId];
    var lines := Records(file.content, from, |file.content|);
    HandedReads(library, options, files, items, from, |file.content|);
    forall i | 0 <= i < 2
      ensures items[i].RawItem? && items[i].raw.source == SpanOfLine(id, file.identity, lines[i]) && items[i] in items
    {
      assert Describes(library, options, file.identity, items[i], lines[i]);
      AcceptedIsRaw(library, options, files, lines[i], ReceivedAt(items[i]));
      ItemSource(library, options, file.identity, lines[i], ReceivedAt(items[i]));
    }
    EarlyIsRefused(library, files, lines[0], items[0].raw);
    HeldIsRepresentable(library, files, lines[1], items[1].raw);
    TwoEvents(library, items);
  }

  lemma TwoEvents(library: Library, items: seq<ReadItem>)
    requires |items| == 2 && items[0].RawItem? && items[1].RawItem?
    requires BaselineMapper.EventFrom(library, items[0].raw).Some?
             && BaselineMapper.EventFrom(library, items[1].raw).Some?
    ensures AllMap(library, InputsOf(items))
    ensures EventsOf(library, InputsOf(items))
         == [BaselineMapper.EventFrom(library, items[0].raw).value,
             BaselineMapper.EventFrom(library, items[1].raw).value]
  {
    hide BaselineMapper.EventFrom;
    var inputs := InputsOf(items);
    assert inputs == [RawInput(items[0].raw), RawInput(items[1].raw)];
    assert EventOfInput(library, inputs[0]) == BaselineMapper.EventFrom(library, items[0].raw);
    assert EventOfInput(library, inputs[1]) == BaselineMapper.EventFrom(library, items[1].raw);
  }

  lemma AcceptedIsRaw(library: Library, options: Options, files: Files, line: Line, at: Timestamp)
    requires Standard(options) && options.sourceId in files
    requires FractionBefore1970(library, files, options.sourceId, line)
             || HeldByBatches(library, files, options.sourceId, line)
    ensures ItemOf(library, options, files[options.sourceId].identity, line, at).RawItem?
  {
    hide EnvelopeVerdict, IsUtf8, ReadsAs, BaselineMapper.EventFrom, BatchAssembler.EventOk;
  }
}
