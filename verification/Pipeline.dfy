/** What the runtime holds between reading a record and committing it, as sequences of records. */
module Pipeline {
  import opened Exceptions
  import opened Octets
  import opened Foreign
  import opened Contract
  import opened Documents
  import opened Protocol
  import opened Json
  import opened RawEvents
  import opened Sequences
  import opened Rejections
  import opened RejectionDocuments
  import opened Serialization
  import BaselineMapper
  import BatchAssembler

  datatype PendingInput =
    | RawInput(raw: RawEvent)
    | RejectedInput(rejection: InputRejection)
    | MappedInput(event: ContractEvent)

  function SpanOfInput(input: PendingInput): Span {
    match input
    case RawInput(raw) => raw.source
    case RejectedInput(rejection) => rejection.source
    case MappedInput(event) => SpanOf(event)
  }

  function SpansOfInputs(inputs: seq<PendingInput>): (spans: seq<Span>)
    ensures |spans| == |inputs|
  {
    seq(|inputs|, i requires 0 <= i < |inputs| => SpanOfInput(inputs[i]))
  }

  function InputOf(item: ReadItem): PendingInput {
    match item
    case RawItem(raw) => RawInput(raw)
    case RejectedItem(rejection) => RejectedInput(rejection)
  }

  /** What mapping makes of a raw record. */
  function Translated(library: Library, raw: RawEvent): PendingInput {
    match BaselineMapper.Objection(library, raw)
    case Some((code, message)) => RejectedInput(BaselineMapper.Reject(library, raw, code, message))
    case None =>
      match BaselineMapper.EventFrom(library, raw)
      case Some(event) => MappedInput(event)
      case None => RawInput(raw)
  }

  /** The event that the input is or maps to. */
  function EventOfInput(library: Library, input: PendingInput): Option<ContractEvent> {
    match input
    case RawInput(raw) => BaselineMapper.EventFrom(library, raw)
    case MappedInput(event) => Some(event)
    case RejectedInput(_) => None
  }

  predicate AllMap(library: Library, inputs: seq<PendingInput>) {
    forall x | x in inputs :: EventOfInput(library, x).Some?
  }

  function EventsOf(library: Library, inputs: seq<PendingInput>): (events: seq<ContractEvent>)
    requires AllMap(library, inputs)
    ensures |events| == |inputs|
  {
    seq(|inputs|, i requires 0 <= i < |inputs| => EventOfInput(library, inputs[i]).value)
  }

  lemma EventsOfFront(library: Library, inputs: seq<PendingInput>)
    requires inputs != [] && AllMap(library, inputs)
    ensures AllMap(library, inputs[1..])
    ensures EventsOf(library, inputs) == [EventOfInput(library, inputs[0]).value] + EventsOf(library, inputs[1..])
  {
    hide EventOfInput;
  }

  function SpansOfOption(event: Option<ContractEvent>): seq<Span> {
    if event.Some? then [SpanOf(event.value)] else []
  }

  // ---------------------------------------------------------------- what the entries are like

  /** A rejection of this event, of this raw record, or this rejection, would be publishable. */
  predicate Carried(event: ContractEvent) {
    && Named(SpanOf(event)) && |event.rawPayload| <= MAXIMUM_SAFE_INTEGER
    && BaselineMapper.Worded(event.source.adapterType) && BaselineMapper.Worded(event.contentType)
  }

  predicate CarriedInput(input: PendingInput) {
    match input
    case RawInput(raw) =>
      && Named(raw.source) && |raw.rawPayload| <= MAXIMUM_SAFE_INTEGER
      && BaselineMapper.Worded(raw.adapterType) && BaselineMapper.Worded(raw.contentType)
    case RejectedInput(rejection) => Publishable(rejection)
    case MappedInput(event) => Carried(event)
  }

  lemma RejectedEventIsPublishable(library: Library, event: ContractEvent, code: RejectionCode, message: Text)
    requires Lawful(library) && Carried(event) && BaselineMapper.Worded(message)
    ensures Publishable(RejectEvent(library, event, code, message))
    ensures RejectEvent(library, event, code, message).source == SpanOf(event)
  {
    PayloadRejectionIsPublishable(library, code, message, SpanOf(event), event.source.adapterType, event.contentType,
        event.rawPayload);
  }

  /** An instant before 1970 that is not a whole second makes an event that no batch can hold. */
  lemma FractionBeforeEpochIsRefused(library: Library, event: ContractEvent, milliseconds: int)
    requires BaselineMapper.UtcTimestamp(library, milliseconds) == Some(event.eventTime)
    requires milliseconds < 0 && milliseconds % 1000 != 0
    ensures !BatchAssembler.EventOk(event)
  {
    BaselineMapper.FractionBeforeEpoch(library, milliseconds);
  }

  // ---------------------------------------------------------------- order

  /** The same records of every source, in the same order. */
  ghost predicate SameRecords(a: seq<Span>, b: seq<Span>) {
    forall s: SourceId :: Of(a, s) == Of(b, s)
  }

  ghost predicate Mentions(spans: seq<Span>, source: SourceId) {
    exists i :: 0 <= i < |spans| && spans[i].source == source
  }

  lemma {:induction false} NotMentioned(spans: seq<Span>, source: SourceId)
    requires !Mentions(spans, source)
    ensures Of(spans, source) == []
    decreases |spans|
  {
    if spans != [] {
      var front := spans[..|spans| - 1];
      assert !Mentions(front, source);
      NotMentioned(front, source);
    }
  }

  lemma OfOne(span: Span, source: SourceId)
    ensures Of([span], source) == if span.source == source then [span] else []
  {
    assert [span][..0] == [] && Of([], source) == [];
  }

  /** A record may be moved behind records of other sources. */
  lemma MoveBehind(before: seq<Span>, moved: Span, passed: seq<Span>, after: seq<Span>)
    requires !Mentions(passed, moved.source)
    ensures SameRecords(before + [moved] + passed + after, before + passed + [moved] + after)
  {
    forall s: SourceId ensures Of(before + [moved] + passed + after, s) == Of(before + passed + [moved] + after, s) {
      OfTwoOrders(before, moved, passed, after, s);
    }
  }

  lemma OfTwoOrders(before: seq<Span>, moved: Span, passed: seq<Span>, after: seq<Span>, s: SourceId)
    requires !Mentions(passed, moved.source)
    ensures Of(before + [moved] + passed + after, s) == Of(before + passed + [moved] + after, s)
  {
    hide Of, Mentions;
    OfConcat(before, [moved], s);
    OfConcat(before + [moved], passed, s);
    OfConcat(before + [moved] + passed, after, s);
    OfConcat(before, passed, s);
    OfConcat(before + passed, [moved], s);
    OfConcat(before + passed + [moved], after, s);
    OfOne(moved, s);
    if s == moved.source {
      NotMentioned(passed, s);
    }
  }

  lemma SameInOrder(log: Log, a: seq<Span>, b: seq<Span>)
    requires SameRecords(a, b) && InOrder(log, a)
    ensures InOrder(log, b)
  {
    hide Of;
  }

  // ---------------------------------------------------------------- work left

  function Weight(input: PendingInput): nat {
    match input
    case RawInput(_) => 5
    case MappedInput(_) => 4
    case RejectedInput(_) => 1
  }

  function WeightOf(inputs: seq<PendingInput>): nat {
    if inputs == [] then 0 else Weight(inputs[0]) + WeightOf(inputs[1..])
  }

  // ---------------------------------------------------------------- identifiers

  /** Every identifier in use was handed out before. */
  ghost predicate Issued(next: nat, d: Durable) {
    && (forall x | x in d.visible :: IsPublication(x) && IdOf(x) < next)
    && (forall id | id in d.landed :: id < next)
  }

  /** No publication has this identifier yet. */
  ghost predicate Unused(id: Id, d: Durable) {
    && (forall x | x in d.visible && IsPublication(x) :: IdOf(x) != id)
    && id !in d.landed
  }

  /** A document that carries the records that come next, under a new identifier, may be published. */
  lemma NewIsReady(collectorId: Text, log: Log, d: Durable, document: Document)
    requires Acceptable(collectorId, document) && Sound(collectorId, log, d, None)
    requires Unused(IdOf(document), d) && InOrder(log, d.committed + SpansOf(document))
    ensures Ready(collectorId, log, d, document)
  {
    hide Of, SerializableBatch, SerializableRejection;
  }

  // ---------------------------------------------------------------- a record that is overtaken

  /** The log as if the k-th record of a source did not exist. */
  function Without(log: Log, source: SourceId, k: nat): Log
    requires source in log && k < |log[source]|
  {
    log[source := log[source][..k] + log[source][k + 1..]]
  }

  lemma OfThree(before: seq<Span>, next: Span, later: seq<Span>, s: SourceId)
    ensures Of(before + [next] + later, s) == Of(before, s) + (if next.source == s then [next] else []) + Of(later, s)
  {
    OfConcat(before + [next], later, s);
    OfConcat(before, [next], s);
    OfOne(next, s);
  }

  lemma NextInLog(log: Log, before: seq<Span>, next: Span, later: seq<Span>)
    requires InOrder(log, before + [next] + later)
    ensures var s, k := next.source, |Of(before, next.source)|;
            && s in log && k < |log[s]| && log[s][k] == next
            && log[s][..k] == Of(before, s) && Of(later, s) <= log[s][k + 1..]
            && Of(before, s) + Of(later, s) <= Without(log, s, k)[s]
  {
    hide Of;
    var s := next.source;
    OfThree(before, next, later, s);
    SplitPrefix(Of(before, s), next, Of(later, s), RecordsOf(log, s));
  }

  /** Overtaking a record leaves the others in order. */
  lemma WithoutIsInOrder(log: Log, before: seq<Span>, next: Span, later: seq<Span>)
    requires Ordered(log) && InOrder(log, before + [next] + later)
    ensures var s, k := next.source, |Of(before, next.source)|;
            && s in log && k < |log[s]|
            && Ordered(Without(log, s, k)) && InOrder(Without(log, s, k), before)
            && InOrder(Without(log, s, k), before + later)
  {
    hide Of, Ordered;
    NextInLog(log, before, next, later);
    var source, k := next.source, |Of(before, next.source)|;
    var lane := Without(log, source, k);
    WithoutIsOrdered(log, source, k);
    forall s: SourceId ensures Of(before + later, s) <= RecordsOf(lane, s) {
      OfConcat(before, later, s);
      OfThree(before, next, later, s);
    }
    InOrderPrefix(lane, before, later);
  }

  lemma WithoutIsOrdered(log: Log, source: SourceId, k: nat)
    requires Ordered(log) && source in log && k < |log[source]|
    ensures Ordered(Without(log, source, k))
  {
    var records, lane := log[source], Without(log, source, k)[source];
    assert forall i | 0 <= i < |lane| :: lane[i] == if i < k then records[i] else records[i + 1];
    forall i | 0 <= i < |lane|
      ensures lane[i].source == source && lane[i].identity == lane[0].identity && lane[i].start < lane[i].end
      ensures i > 0 ==> lane[i - 1].end <= lane[i].start
    {
      if i == k && i > 0 {
        assert records[i - 1].end <= records[i].start < records[i].end <= records[i + 1].start;
      }
    }
  }

  /** A record that comes later is later in the log. */
  lemma LaterInLog(log: Log, before: seq<Span>, next: Span, passed: seq<Span>, rest: seq<Span>, i: nat)
    returns (k: nat, j: nat)
    requires InOrder(log, before + [next] + passed + rest) && i < |passed| && passed[i].source == next.source
    ensures k < j < |RecordsOf(log, next.source)|
    ensures RecordsOf(log, next.source)[k] == next && RecordsOf(log, next.source)[j] == passed[i]
  {
    hide InOrder;
    var s := next.source;
    k := |Of(before, s)|;
    assert before + [next] + passed + rest == before + [next] + (passed + rest);
    NextInLog(log, before, next, passed + rest);
    OfMember(passed, passed[i]);
    OfConcat(passed, rest, s);
    var m :| 0 <= m < |Of(passed, s)| && Of(passed, s)[m] == passed[i];
    j := k + 1 + m;
    assert log[s][j] == log[s][k + 1..][m] == Of(passed + rest, s)[m];
  }

  /** A record occurs once. */
  lemma NextIsAlone(log: Log, before: seq<Span>, next: Span, later: seq<Span>)
    requires Ordered(log) && InOrder(log, before + [next] + later)
    ensures next !in before + later
  {
    hide InOrder, Ordered;
    InOrderPrefix(log, before + [next], later);
    NextIsNew(log, before, [next], next);
    if next in later {
      NextIsNew(log, before + [next], later, next);
    }
  }

  /** Moving a record behind a later one of its source breaks the order. */
  lemma JumpBreaksOrder(log: Log, before: seq<Span>, next: Span, passed: seq<Span>, rest: seq<Span>)
    requires Ordered(log) && InOrder(log, before + [next] + passed + rest) && Mentions(passed, next.source)
    ensures !InOrder(log, before + passed + [next] + rest)
  {
    hide Ordered;
    var s, k := next.source, |Of(before, next.source)|;
    var i :| 0 <= i < |passed| && passed[i].source == s;
    OfMember(passed, passed[i]);
    assert before + [next] + passed + rest == before + [next] + (passed + rest);
    NextInLog(log, before, next, passed + rest);
    OfConcat(passed, rest, s);
    OfThree(before + passed, next, rest, s);
    OfConcat(before, passed, s);
    if InOrder(log, before + passed + [next] + rest) {
      var first := Of(passed, s)[0];
      assert Of(before + passed + [next] + rest, s)[k] == first == log[s][k] == next;
      assert Of(passed + rest, s)[0] == first == log[s][k + 1..][0] == log[s][k + 1];
      OrderedEnds(log, s, k, k + 1);
      assert false;
    }
  }

  lemma SameFile(log: Log, s: SourceId, i: nat, j: nat)
    requires Ordered(log) && s in log && i < |log[s]| && j < |log[s]|
    ensures log[s][i].identity == log[s][j].identity
  {
  }

  lemma LastMark(mark: Option<Mark>, spans: seq<Span>)
    requires spans != []
    ensures StandsAt(mark, spans) ==>
              mark.Some? && OffsetOf(mark.value) == Some((spans[|spans| - 1].identity, spans[|spans| - 1].end))
  {
  }

  /** Once a later record of the same file is committed, the checkpoint has overtaken this one. */
  lemma Overtakes(log: Log, d: Durable, before: seq<Span>, next: Span, later: seq<Span>)
    requires Ordered(log) && InOrder(log, before + [next] + later)
    requires CheckpointStands(d) && d.committed == before + later && Mentions(later, next.source)
    ensures AnyRegression(CheckpointMarks(d.files),
            map[next.source := RejectionMark(next.identity, next.start, next.end)])
  {
    hide InOrder, Ordered, StandsAt;
    var s, k := next.source, |Of(before, next.source)|;
    NextInLog(log, before, next, later);
    OfConcat(before, later, s);
    var i :| 0 <= i < |later| && later[i].source == s;
    OfMember(later, later[i]);
    var n := |Of(later, s)|;
    assert n > 0;
    var last := log[s][k + n];
    assert Of(later, s)[n - 1] == log[s][k + 1..][n - 1] == last;
    assert Of(d.committed, s)[|Of(d.committed, s)| - 1] == last;
    OrderedEnds(log, s, k, k + n);
    SameFile(log, s, k, k + n);
    LastMark(MarkIn(CheckpointMarks(d.files), s), Of(d.committed, s));
    assert StandsAt(MarkIn(CheckpointMarks(d.files), s), Of(d.committed, s));
    var marks := map[s := RejectionMark(next.identity, next.start, next.end)];
    assert s in marks && s in CheckpointMarks(d.files) && Regresses(CheckpointMarks(d.files)[s], marks[s]);
  }

  /** What is sound for one log is sound for another in which the committed records are in order too. */
  lemma SoundOtherwise(collectorId: Text, log: Log, lane: Log, d: Durable)
    requires Sound(collectorId, log, d, None) && Ordered(lane) && InOrder(lane, d.committed)
    ensures Sound(collectorId, lane, d, None)
  {
  }

  lemma NothingPending(collectorId: Text, log: Log, d: Durable)
    requires Sound(collectorId, log, d, None)
    ensures CheckpointStands(d)
    ensures forall p: Path | p in d.files :: !IsHold(p)
  {
  }
}
