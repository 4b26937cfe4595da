/** The records of the input files as a log, and what a reader has handed over as a prefix of it. */
module SourceLogs {
  import opened Exceptions
  import opened Octets
  import opened Contract
  import opened Documents
  import opened Foreign
  import opened Lines
  import opened Protocol
  import opened Pipeline
  import opened RawEvents
  import opened Rejections
  import opened RejectionDocuments
  import opened Utf8
  import opened FileReader
  import opened MappedEvents
  import Json
  import opened Serialization

  /** What every source's file will ever contain. */
  type Files = map<SourceId, Snapshot>

  function SpanOfLine(source: SourceId, identity: Text, line: Line): Span {
    Span(source, identity, line.start, line.end)
  }

  function SpansOfLines(source: SourceId, identity: Text, lines: seq<Line>): (spans: seq<Span>)
    ensures |spans| == |lines|
  {
    seq(|lines|, i requires 0 <= i < |lines| => SpanOfLine(source, identity, lines[i]))
  }

  /** The records up to an offset. */
  function RecordsBefore(files: Files, source: SourceId, offset: nat): seq<Span>
    requires source in files && offset <= |files[source].content|
  {
    SpansOfLines(source, files[source].identity, Records(files[source].content, 0, offset))
  }

  function LogOf(files: Files): Log {
    map s | s in files :: RecordsBefore(files, s, |files[s].content|)
  }

  /** Sources are named as the configuration demands, files by their device and inode numbers. */
  predicate NamedFiles(files: Files) {
    forall s | s in files ::
      && MatchesIdentifier(s, true) && s != [] && IsUtf8(s)
      && files[s].identity != [] && IsUtf8(files[s].identity) && |files[s].identity| <= IDENTITY_LIMIT
  }

  /** Records follow one another without gap from the start of the file. */
  lemma LogRecord(files: Files, source: SourceId, i: nat)
    requires source in files && i < |LogOf(files)[source]|
    ensures var records: seq<Span> := LogOf(files)[source];
            && records[i].source == source && records[i].identity == files[source].identity
            && records[i].start == (if i == 0 then 0 else records[i - 1].end) && records[i].start < records[i].end
  {
    hide Records, IsLine, StartOf, LogOf, LineAt;
    var content := files[source].content;
    var lines := Records(content, 0, |content|);
    LogHas(files, source);
    RecordsAreLines(content, 0, |content|);
    assert IsLine(content, lines[i]) && Lines.Follows(lines, i, 0);
    LineIsForward(content, lines[i]);
  }

  lemma LogHas(files: Files, source: SourceId)
    requires source in files
    ensures LogOf(files)[source]
            == SpansOfLines(source, files[source].identity, Records(files[source].content, 0, |files[source].content|))
  {
    hide Records;
  }

  lemma LogIsOrdered(files: Files)
    ensures Ordered(LogOf(files))
  {
    hide Records;
    var log: Log := LogOf(files);
    forall s, i | s in log && 0 <= i < |log[s]|
      ensures log[s][i].source == s && log[s][i].identity == log[s][0].identity && log[s][i].start < log[s][i].end
      ensures i > 0 ==> log[s][i - 1].end <= log[s][i].start
    {
      LogRecord(files, s, i);
      LogRecord(files, s, 0);
    }
  }

  lemma LineIsForward(content: Text, line: Line)
    requires IsLine(content, line)
    ensures line.start < line.end <= |content| && Boundary(content, line.end) && line.end - line.start > |line.text|
  {
  }

  /** A boundary splits the log of a source. */
  lemma LogSplits(files: Files, source: SourceId, offset: nat)
    requires source in files && offset <= |files[source].content| && Boundary(files[source].content, offset)
    ensures RecordsBefore(files, source, offset) <= LogOf(files)[source]
  {
    var content := files[source].content;
    BoundaryStart(content, offset);
    RecordsResume(content, 0, offset, |content|);
  }

  /** Where no record ends, reading has not begun. */
  lemma NothingReadYet(files: Files, source: SourceId, offset: nat)
    requires source in files && offset <= |files[source].content| && Boundary(files[source].content, offset)
    ensures RecordsBefore(files, source, offset) == [] ==> offset == 0
  {
  }

  lemma LinesConcat(source: SourceId, identity: Text, a: seq<Line>, b: seq<Line>)
    ensures SpansOfLines(source, identity, a + b) == SpansOfLines(source, identity, a)
            + SpansOfLines(source, identity, b)
  {
  }

  /** What ends where the k-th record of the log ends is its first k records. */
  lemma {:induction false} LogUpTo(files: Files, source: SourceId, k: nat)
    requires source in files && k <= |LogOf(files)[source]|
    ensures var end := if k == 0 then 0 else LogOf(files)[source][k - 1].end;
            && end <= |files[source].content| && Boundary(files[source].content, end)
            && RecordsBefore(files, source, end) == LogOf(files)[source][..k]
  {
    hide Records, IsLine, AreLines;
    var content: Text, log: seq<Span> := files[source].content, LogOf(files)[source];
    var lines := Records(content, 0, |content|);
    var end := if k == 0 then 0 else log[k - 1].end;
    if k == 0 {
      NothingBefore(content);
    } else {
      RecordsAreLines(content, 0, |content|);
      EveryLine(content, 0, |content|, lines, k - 1);
      LineIsForward(content, lines[k - 1]);
      BoundaryStart(content, end);
      RecordsResume(content, 0, end, |content|);
      RecordsAreLines(content, 0, end);
      var before := Records(content, 0, end);
      LogIsOrdered(files);
      if |before| - 1 < k - 1 {
        OrderedEnds(LogOf(files), source, |before| - 1, k - 1);
      } else if k - 1 < |before| - 1 {
        OrderedEnds(LogOf(files), source, k - 1, |before| - 1);
      }
      assert before == lines[..k];
    }
  }

  lemma NothingBefore(content: Text)
    ensures Records(content, 0, 0) == []
  {
  }

  lemma EveryLine(content: Text, from: nat, last: nat, lines: seq<Line>, i: nat)
    requires from <= last <= |content| && AreLines(content, from, last, lines) && i < |lines|
    ensures IsLine(content, lines[i]) && lines[i].end <= last
  {
  }

  // ---------------------------------------------------------------- what a poll hands over

  function SpansOfItems(items: seq<ReadItem>): seq<Span> {
    seq(|items|, i requires 0 <= i < |items| => SpanOfItem(items[i]))
  }

  function InputsOf(items: seq<ReadItem>): (inputs: seq<PendingInput>)
    ensures |inputs| == |items|
  {
    seq(|items|, i requires 0 <= i < |items| => InputOf(items[i]))
  }

  lemma SpansOfInputsOf(items: seq<ReadItem>)
    ensures SpansOfInputs(InputsOf(items)) == SpansOfItems(items)
  {
  }

  /** The items of a poll are the records between the two positions. */
  lemma HandedSpans(library: Library, options: Options, file: Snapshot, items: seq<ReadItem>, from: nat, last: nat)
    requires HandsOver(library, options, file, items, from, last)
    ensures from <= last <= |file.content|
    ensures SpansOfItems(items) == SpansOfLines(options.sourceId, file.identity, Records(file.content, from, last))
  {
    hide Records, VerdictOf;
    var lines := Records(file.content, from, last);
    forall i | 0 <= i < |items| ensures SpanOfItem(items[i]) == SpanOfLine(options.sourceId, file.identity, lines[i]) {
      assert Describes(library, options, file.identity, items[i], lines[i]);
    }
  }

  /** An accepted record is within the record limit. */
  lemma AcceptedIsShort(library: Library, options: Options, text: Text)
    ensures VerdictOf(library, options, text).Accepted? ==> |text| <= options.maximumRecordBytes
  {
    hide EnvelopeVerdict, IsUtf8;
  }

  /** Whatever a poll hands over can be published as an event or as a rejection. */
  lemma HandedIsCarried(library: Library, options: Options, file: Snapshot, items: seq<ReadItem>, from: nat, last: nat,
          i: nat)
    requires Lawful(library) && ValidOptions(options) && options.maximumCaptureBytes == CAPTURE_LIMIT
    requires HandsOver(library, options, file, items, from, last) && i < |items|
    requires SpanOfItem(items[i]).end <= Json.MAXIMUM_SAFE_INTEGER
    requires options.sourceId != [] && IsUtf8(options.sourceId) && file.identity != [] && IsUtf8(file.identity)
    ensures CarriedInput(InputOf(items[i]))
  {
    hide Records, VerdictOf, IsUtf8, AreLines, IsLine, Publishable, Lawful, FileText, JsonTypeText;
    var lines := Records(file.content, from, last);
    RecordsAreLines(file.content, from, last);
    EveryLine(file.content, from, last, lines, i);
    LineIsForward(file.content, lines[i]);
    assert Describes(library, options, file.identity, items[i], lines[i]);
    AcceptedIsShort(library, options, lines[i].text);
    if items[i].RejectedItem? {
      ReaderRejectionIsPublishable(library, options, file.identity, items[i], lines[i]);
    }
  }

  lemma {:induction false} OfSameSource(spans: seq<Span>, source: SourceId, s: SourceId)
    requires forall i | 0 <= i < |spans| :: spans[i].source == source
    ensures Of(spans, s) == if s == source then spans else []
    decreases |spans|
  {
    if spans != [] {
      var front := spans[..|spans| - 1];
      OfSameSource(front, source, s);
      assert spans == front + [spans[|spans| - 1]];
    }
  }

  /** What a poll hands over extends the records of its own source, in order, and no other's. */
  lemma NewRecords(files: Files, source: SourceId, ledger: seq<Span>, spans: seq<Span>, from: nat, last: nat,
          s: SourceId)
    requires source in files && from <= last <= |files[source].content|
    requires Of(ledger, source) == RecordsBefore(files, source, from)
    requires spans == SpansOfLines(source, files[source].identity, Records(files[source].content, from, last))
    requires Records(files[source].content, 0, last) == Records(files[source].content, 0, from)
            + Records(files[source].content, from, last)
    ensures Of(ledger + spans, s) == if s == source then RecordsBefore(files, source, last) else Of(ledger, s)
  {
    hide Records, Of;
    var content := files[source].content;
    OfConcat(ledger, spans, s);
    OfSameSource(spans, source, s);
    LinesConcat(source, files[source].identity, Records(content, 0, from), Records(content, from, last));
  }

  lemma NewRecordsInOrder(files: Files, source: SourceId, ledger: seq<Span>, spans: seq<Span>, from: nat, last: nat)
    requires source in files && from <= last <= |files[source].content| && Boundary(files[source].content, last)
    requires Of(ledger, source) == RecordsBefore(files, source, from)
    requires spans == SpansOfLines(source, files[source].identity, Records(files[source].content, from, last))
    requires Records(files[source].content, 0, last) == Records(files[source].content, 0, from)
            + Records(files[source].content, from, last)
    requires InOrder(LogOf(files), ledger)
    ensures InOrder(LogOf(files), ledger + spans)
  {
    hide Records, Of, RecordsBefore, Boundary;
    forall s: SourceId ensures Of(ledger + spans, s) <= RecordsOf(LogOf(files), s) {
      NewRecords(files, source, ledger, spans, from, last, s);
      LogSplits(files, source, last);
      assert Of(ledger, s) <= RecordsOf(LogOf(files), s);
    }
  }

  /** A poll's items, appended to what was read before, keep every source's records in order and in step. */
  lemma Arrived(library: Library, options: Options, files: Files, ledger: seq<Span>, items: seq<ReadItem>, from: nat,
          last: nat)
    requires Lawful(library) && ValidOptions(options) && options.maximumCaptureBytes == CAPTURE_LIMIT
    requires NamedFiles(files) && options.sourceId in files
    requires HandsOver(library, options, files[options.sourceId], items, from, last)
             && Boundary(files[options.sourceId].content, last)
    requires Records(files[options.sourceId].content, 0, last)
          == Records(files[options.sourceId].content, 0, from) + Records(files[options.sourceId].content, from, last)
    requires Of(ledger, options.sourceId) == RecordsBefore(files, options.sourceId, from)
             && InOrder(LogOf(files), ledger)
    requires forall item | item in items :: SpanOfItem(item).end <= Json.MAXIMUM_SAFE_INTEGER
    ensures InOrder(LogOf(files), ledger + SpansOfInputs(InputsOf(items)))
    ensures Of(ledger + SpansOfInputs(InputsOf(items)), options.sourceId)
            == RecordsBefore(files, options.sourceId, last)
    ensures forall s | s != options.sourceId :: Of(ledger + SpansOfInputs(InputsOf(items)), s) == Of(ledger, s)
    ensures forall x | x in InputsOf(items) :: CarriedInput(x)
  {
    hide HandsOver, Records, Of, InOrder, Boundary, RecordsBefore, CarriedInput, LogOf, Lawful, SpanOfItem,
      ValidOptions, IsUtf8;
    var id, file := options.sourceId, files[options.sourceId];
    HandedSpans(library, options, file, items, from, last);
    SpansOfInputsOf(items);
    NewRecordsInOrder(files, id, ledger, SpansOfItems(items), from, last);
    forall s: SourceId
      ensures Of(ledger + SpansOfItems(items), s) == if s == id then RecordsBefore(files, id, last) else Of(ledger, s)
    {
      NewRecords(files, id, ledger, SpansOfItems(items), from, last, s);
    }
    forall i | 0 <= i < |items| ensures CarriedInput(InputsOf(items)[i]) {
      HandedIsCarried(library, options, file, items, from, last, i);
    }
  }

  // ---------------------------------------------------------------- growing files

  /** The same files, each with what it had and possibly more. */
  ghost predicate Longer(files: Files, longer: Files) {
    && files.Keys == longer.Keys
    && forall s | s in files :: files[s].identity == longer[s].identity && files[s].content <= longer[s].content
  }

  lemma RecordsGrow(content: Text, longer: Text, offset: nat)
    requires offset <= |content| && content <= longer
    ensures Records(content, 0, offset) == Records(longer, 0, offset)
    ensures Records(content, 0, |content|) <= Records(longer, 0, |longer|)
  {
    hide Records, StartOf;
    RecordsOfPrefix(content, longer, 0, offset);
    RecordsOfPrefix(content, longer, 0, |content|);
    RecordsExtend(longer, |content|, |longer|);
  }

  lemma {:induction false} RecordsExtend(content: Text, middle: nat, last: nat)
    requires middle <= last <= |content|
    ensures Records(content, 0, middle) <= Records(content, 0, last)
    decreases last
  {
    if last > middle {
      RecordsExtend(content, middle, last - 1);
    }
  }

  lemma LogGrows(files: Files, longer: Files)
    requires Longer(files, longer)
    ensures Grew(LogOf(files), LogOf(longer))
  {
    hide Records;
    forall s: SourceId ensures RecordsOf(LogOf(files), s) <= RecordsOf(LogOf(longer), s) {
      if s in files {
        RecordsGrow(files[s].content, longer[s].content, 0);
        var a, b := Records(files[s].content, 0, |files[s].content|),
            Records(longer[s].content, 0, |longer[s].content|);
        assert a <= b;
        assert SpansOfLines(s, files[s].identity, a) <= SpansOfLines(s, longer[s].identity, b);
      }
    }
  }

  lemma RecordsBeforeGrow(files: Files, longer: Files, source: SourceId, offset: nat)
    requires Longer(files, longer) && source in files && offset <= |files[source].content|
    ensures offset <= |longer[source].content|
    ensures RecordsBefore(files, source, offset) == RecordsBefore(longer, source, offset)
  {
    hide Records;
    RecordsGrow(files[source].content, longer[source].content, offset);
  }

  /** A reader that follows a file follows it as it grows. */
  lemma FollowsGrows(reader: Reader, file: Snapshot, longer: Snapshot)
    requires reader.Follows(file) && file.identity == longer.identity && file.content <= longer.content
    ensures reader.Follows(longer)
    ensures reader.Floor() <= |file.content|
  {
    if reader.initialized {
      AnchorOfPrefix(file.content, longer.content, reader.readOffset);
      assert longer.content[reader.pendingStart..reader.readOffset]
              == file.content[reader.pendingStart..reader.readOffset];
    }
  }

  // ---------------------------------------------------------------- what the environment does

  /** The bytes that one poll reads at most. */
  const POLL_LIMIT := 4194304

  /** How the runtime opens a source. */
  function OptionsOf(id: SourceId, start: StartPosition, resume: Option<Resume>): Options {
    Options(id, start, id, MAXIMUM_EVENT_BYTES, CAPTURE_LIMIT, POLL_LIMIT, resume)
  }

  /** While the sources are polled, every file only grows, and nothing fails once it is open. */
  ghost predicate Legible(views: SourceId -> Views, files: Files, longer: Files) {
    forall s | s in files ::
        s in longer && AppendOnly(views(s), longer[s], |files[s].content|) && ReadsThrough(views(s))
  }

  /** The options that decide what a record becomes. */
  predicate Standard(options: Options) {
    && options.upstreamSenderId == options.sourceId && options.maximumRecordBytes == MAXIMUM_EVENT_BYTES
    && options.maximumCaptureBytes == CAPTURE_LIMIT && options.maximumPollBytes == POLL_LIMIT
  }

  lemma StandardItems(library: Library, options: Options, identity: Text, line: Line, at: Timestamp)
    requires Standard(options)
    ensures ItemOf(library, options, identity, line, at)
            == ItemOf(library, OptionsOf(options.sourceId, Oldest, None), identity, line, at)
  {
    hide EnvelopeVerdict, IsUtf8;
  }

  // ---------------------------------------------------------------- resuming

  /** resume_position */
  function ResumeOf(marks: Marks, source: SourceId): Result<Option<Resume>> {
    if source !in marks then Success(None)
    else
      match OffsetOf(marks[source])
      case None => Failure(CheckpointInvalid)
      case Some(offset) => Success(Some(Resume(offset.0, offset.1)))
  }

  /** The checkpoint sends a reader to the end of the last committed record of its source. */
  lemma ResumesAt(collectorId: Text, files: Files, d: Durable, source: SourceId)
    requires Sound(collectorId, LogOf(files), d, None) && source in files
    ensures var resume := ResumeOf(CheckpointMarks(d.files), source);
            && resume.Success?
            && (resume.value.Some? ==> resume.value.value.identity == files[source].identity)
            && var offset := if resume.value.Some? then resume.value.value.endOffset else 0;
               && offset <= |files[source].content| && Boundary(files[source].content, offset)
               && Of(d.committed, source) == RecordsBefore(files, source, offset)
  {
    hide Records, Of, Boundary, Shaped, SerializableRejection;
    var done := Of(d.committed, source);
    var log: seq<Span> := LogOf(files)[source];
    assert done <= log && StandsAt(MarkIn(CheckpointMarks(d.files), source), done);
    assert done == log[..|done|];
    LogUpTo(files, source, |done|);
    if done != [] {
      assert done[|done| - 1] == log[|done| - 1];
      LogRecord(files, source, |done| - 1);
    }
  }
}
