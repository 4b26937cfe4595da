/**
 * The publication protocol as an invariant of the durable state, kept by each of its steps:
 * hold, write the manifest, show, commit the checkpoint, drop the manifest, release the hold.
 */
module Protocol {
  import opened Exceptions
  import opened Octets
  import opened Contract
  import opened Documents
  import opened Rejections
  import opened Serialization

  /** What every source file will ever contain, as records in file order. */
  type Log = map<SourceId, seq<Span>>

  function RecordsOf(log: Log, source: SourceId): seq<Span> {
    if source in log then log[source] else []
  }

  /** Records of one source follow one another in one file. */
  ghost predicate Ordered(log: Log) {
    forall s, i | s in log && 0 <= i < |log[s]| ::
      && log[s][i].source == s
      && log[s][i].identity == log[s][0].identity
      && log[s][i].start < log[s][i].end
      && (i > 0 ==> log[s][i - 1].end <= log[s][i].start)
  }

  function Of(spans: seq<Span>, source: SourceId): (r: seq<Span>)
    ensures |r| <= |spans|
  {
    if spans == [] then []
    else
      var last := spans[|spans| - 1];
      Of(spans[..|spans| - 1], source) + (if last.source == source then [last] else [])
  }

  /** Every source's records occur in the log's order, without gap or repetition, from the first one. */
  ghost predicate InOrder(log: Log, spans: seq<Span>) {
    forall s: SourceId :: Of(spans, s) <= RecordsOf(log, s)
  }

  ghost predicate EndsWith(whole: seq<Span>, end: seq<Span>) {
    |end| <= |whole| && whole[|whole| - |end|..] == end
  }

  datatype Durable = Durable(
    files: map<Path, Content>, visible: set<Document>, committed: seq<Span>, landed: set<Id>)

  predicate Acceptable(collectorId: Text, document: Document) {
    IsPublication(document) && SpansOf(document) != []
    && (if document.BatchDocument? then document.batch.collectorId == collectorId && SerializableBatch(document.batch)
        else document.rejected.collectorId == collectorId && SerializableRejection(document.rejected))
  }

  /** What is held, if anything, can be read back. */
  predicate Reloadable(held: Option<Document>) {
    held.Some? && held.value.BatchDocument? ==> Reparsable(held.value.batch)
  }

  function ManifestOf(batch: EventBatch): Manifest {
    Manifest(batch.batchId, batch.collectorId, batch.createdAt, EncodedBytes(batch), MarksOfEvents(batch.events))
  }

  /** No file under its final name is torn, and each says what its name promises. */
  ghost predicate ShapedAt(collectorId: Text, d: Durable, path: Path)
    requires path in d.files
  {
    d.files[path].Whole? &&
    var document := d.files[path].document;
    match path
    case SealedPath(id) => document.BatchDocument? && IdOf(document) == id && Acceptable(collectorId, document)
    case PendingPath(id) => document.RejectionDocument? && IdOf(document) == id && Acceptable(collectorId, document)
    case ManifestPath(id) =>
      && SealedPath(id) in d.files && d.files[SealedPath(id)].Whole? && d.files[SealedPath(id)].document.BatchDocument?
      && document == ManifestDocument(ManifestOf(d.files[SealedPath(id)].document.batch))
    case HandoffPath(id) => document.BatchDocument? && IdOf(document) == id && document in d.visible
    case RecordPath(id) => document.RejectionDocument? && IdOf(document) == id && document in d.visible
    case CheckpointPath => document.CheckpointDocument? && document.checkpoint.collectorId == collectorId
    case _ => true
  }

  ghost predicate Shaped(collectorId: Text, d: Durable) {
    forall p | p in d.files :: ShapedAt(collectorId, d, p)
  }

  /** At most one publication is held: this one. */
  ghost predicate Holds(d: Durable, held: Option<Document>) {
    && (held.Some? ==>
          IsPublication(held.value) && HoldPath(held.value) in d.files
          && d.files[HoldPath(held.value)] == Whole(held.value))
    && (forall p | p in d.files && IsHold(p) :: held.Some? && IsPublication(held.value) && p == HoldPath(held.value))
  }

  ghost predicate OneDocumentPerId(visible: set<Document>) {
    && (forall x | x in visible :: IsPublication(x))
    && (forall x, y | x in visible && y in visible :: IdOf(x) == IdOf(y) ==> x == y)
  }

  /** The checkpoint stands, for every source, at the end of its last committed record. */
  ghost predicate StandsAt(mark: Option<Mark>, spans: seq<Span>) {
    if spans == [] then mark.None?
    else
      && mark.Some?
      && OffsetOf(mark.value) == Some((spans[|spans| - 1].identity, spans[|spans| - 1].end))
  }

  function MarkIn(marks: Marks, source: SourceId): Option<Mark> {
    if source in marks then Some(marks[source]) else None
  }

  function CheckpointMarks(files: map<Path, Content>): Marks {
    if CheckpointPath in files && files[CheckpointPath].Whole? && files[CheckpointPath].document.CheckpointDocument?
    then files[CheckpointPath].document.checkpoint.sources
    else map[]
  }

  ghost predicate CheckpointStands(d: Durable) {
    forall s: SourceId :: StandsAt(MarkIn(CheckpointMarks(d.files), s), Of(d.committed, s))
  }

  /** A publication whose records come next, or the last one committed. */
  ghost predicate Next(log: Log, d: Durable, document: Document)
    requires IsPublication(document)
  {
    && (forall x | x in d.visible && IsPublication(x) :: IdOf(x) == IdOf(document) ==> x == document)
    && (if IdOf(document) in d.landed then document in d.visible && EndsWith(d.committed, SpansOf(document))
        else InOrder(log, d.committed + SpansOf(document)))
  }

  ghost predicate Carries(document: Document, span: Span) {
    IsPublication(document) && span in SpansOf(document)
  }

  /** Committed records are visible, and only the held publication may be visible before its commit. */
  ghost predicate CommittedIsVisible(d: Durable) {
    forall span | span in d.committed :: exists x :: x in d.visible && Carries(x, span)
  }

  ghost predicate VisibleIsCommitted(d: Durable, held: Option<Document>) {
    forall x, span | x in d.visible && Carries(x, span) :: span in d.committed || held == Some(x)
  }

  ghost predicate VisibleOnce(d: Durable) {
    forall x, y, span | x in d.visible && y in d.visible && Carries(x, span) && Carries(y, span) :: x == y
  }

  /** Exactly one of these documents carries the record. */
  ghost predicate OnlyIn(visible: set<Document>, span: Span) {
    && (exists x :: x in visible && Carries(x, span))
    && (forall x, y | x in visible && y in visible && Carries(x, span) && Carries(y, span) :: x == y)
  }

  ghost predicate Sound(collectorId: Text, log: Log, d: Durable, held: Option<Document>) {
    && Ordered(log)
    && Shaped(collectorId, d)
    && Holds(d, held)
    && OneDocumentPerId(d.visible)
    && CheckpointStands(d)
    && InOrder(log, d.committed)
    && (held.Some? ==> Acceptable(collectorId, held.value) && Next(log, d, held.value))
    && CommittedIsVisible(d)
    && VisibleIsCommitted(d, held)
    && VisibleOnce(d)
  }

  /** The publication may be published now, for the first time or again. */
  ghost predicate Ready(collectorId: Text, log: Log, d: Durable, document: Document) {
    && Acceptable(collectorId, document)
    && (|| Sound(collectorId, log, d, Some(document))
        || (&& Sound(collectorId, log, d, None)
            && Next(log, d, document)
            && (IdOf(document) !in d.landed ==> document !in d.visible)))
  }

  /** The most a publication can add to what is visible. */
  ghost predicate Shown(before: set<Document>, after: set<Document>, document: Document) {
    after == before || after == before + {document}
  }

  /** Committed records followed by those of a publication that is still to be committed. */
  function Outstanding(d: Durable, document: Document): seq<Span>
    requires IsPublication(document)
  {
    d.committed + (if IdOf(document) in d.landed then [] else SpansOf(document))
  }

  // ---------------------------------------------------------------- sequences of records

  lemma {:induction false} OfConcat(a: seq<Span>, b: seq<Span>, source: SourceId)
    ensures Of(a + b, source) == Of(a, source) + Of(b, source)
    decreases |b|
  {
    if b == [] {
      assert a + b == a;
    } else {
      var front := b[..|b| - 1];
      OfConcat(a, front, source);
      assert (a + b)[..|a + b| - 1] == a + front;
    }
  }

  lemma {:induction false} OfMember(spans: seq<Span>, span: Span)
    ensures span in spans <==> span in Of(spans, span.source)
    decreases |spans|
  {
    if spans != [] {
      OfMember(spans[..|spans| - 1], span);
      assert spans == spans[..|spans| - 1] + [spans[|spans| - 1]];
    }
  }

  lemma {:induction false} OrderedEnds(log: Log, s: SourceId, i: nat, j: nat)
    requires Ordered(log) && s in log
    requires i < j < |log[s]|
    ensures log[s][i].end < log[s][j].end
    decreases j
  {
    if i < j - 1 {
      OrderedEnds(log, s, i, j - 1);
    }
    assert log[s][j - 1].end <= log[s][j].start;
  }

  lemma InOrderPrefix(log: Log, a: seq<Span>, b: seq<Span>)
    requires InOrder(log, a + b)
    ensures InOrder(log, a)
  {
    forall s: SourceId ensures Of(a, s) <= RecordsOf(log, s) {
      OfConcat(a, b, s);
    }
  }

  /** Records that come next have not been committed. */
  lemma NextIsNew(log: Log, a: seq<Span>, b: seq<Span>, span: Span)
    requires Ordered(log) && InOrder(log, a + b)
    requires span in b
    ensures span !in a
  {
    var s := span.source;
    OfConcat(a, b, s);
    OfMember(a, span);
    OfMember(b, span);
    if span in a {
      var records := RecordsOf(log, s);
      var i :| 0 <= i < |Of(a, s)| && Of(a, s)[i] == span;
      var j :| 0 <= j < |Of(b, s)| && Of(b, s)[j] == span;
      assert Of(a + b, s)[i] == span && Of(a + b, s)[|Of(a, s)| + j] == span;
      OrderedEnds(log, s, i, |Of(a, s)| + j);
    }
  }

  // ---------------------------------------------------------------- the steps of a publication

  /** link into the outbox or the pending directory */
  lemma HoldKeeps(collectorId: Text, log: Log, d: Durable, document: Document, d': Durable)
    requires Ready(collectorId, log, d, document)
    requires Sound(collectorId, log, d, None)
    requires d' == d.(files := d.files[HoldPath(document) := Whole(document)])
    ensures Sound(collectorId, log, d', Some(document))
  {
    hide SerializableBatch, SerializableRejection, EncodedBytes, MarksOfEvents, Of;
    var path := HoldPath(document);
    forall p | p in d'.files ensures ShapedAt(collectorId, d', p) {
      if p != path {
        assert ShapedAt(collectorId, d, p);
      }
    }
    assert CheckpointMarks(d'.files) == CheckpointMarks(d.files);
  }

  /** link the recovery manifest */
  lemma ManifestKeeps(collectorId: Text, log: Log, d: Durable, document: Document, d': Durable)
    requires Sound(collectorId, log, d, Some(document)) && document.BatchDocument?
    requires d' == d.(files := d.files[ManifestPath(IdOf(document))
                                       := Whole(ManifestDocument(ManifestOf(document.batch)))])
    ensures Sound(collectorId, log, d', Some(document))
  {
    hide SerializableBatch, SerializableRejection, EncodedBytes, MarksOfEvents, Of;
    forall p | p in d'.files ensures ShapedAt(collectorId, d', p) {
      if p != ManifestPath(IdOf(document)) {
        assert ShapedAt(collectorId, d, p);
      }
    }
    assert CheckpointMarks(d'.files) == CheckpointMarks(d.files);
  }

  /** link into the handoff or the rejection records: the publication becomes visible */
  lemma ShowKeeps(collectorId: Text, log: Log, d: Durable, document: Document, d': Durable)
    requires Sound(collectorId, log, d, Some(document))
    requires d' == d.(files := d.files[ShowPath(document) := Whole(document)], visible := d.visible + {document})
    ensures Sound(collectorId, log, d', Some(document))
  {
    hide SerializableBatch, SerializableRejection, EncodedBytes, MarksOfEvents, Of;
    forall p | p in d'.files ensures ShapedAt(collectorId, d', p) {
      if p != ShowPath(document) {
        assert ShapedAt(collectorId, d, p);
      }
    }
    assert CheckpointMarks(d'.files) == CheckpointMarks(d.files);
    ShowOnce(log, d, document);
    forall span | span in d'.committed ensures exists x :: x in d'.visible && Carries(x, span) {
      var x :| x in d.visible && Carries(x, span);
      assert x in d'.visible;
    }
  }

  /** A publication shown for the first time shares no record with what was visible before. */
  lemma ShowOnce(log: Log, d: Durable, document: Document)
    requires Ordered(log) && IsPublication(document) && Next(log, d, document)
    requires VisibleOnce(d) && VisibleIsCommitted(d, Some(document))
    ensures VisibleOnce(d.(visible := d.visible + {document}))
    ensures VisibleIsCommitted(d.(visible := d.visible + {document}), Some(document))
  {
    if document !in d.visible {
      forall span | span in SpansOf(document) ensures span !in d.committed {
        NextIsNew(log, d.committed, SpansOf(document), span);
      }
      assert forall x, span | x in d.visible && Carries(x, span) :: span in d.committed;
    }
  }

  /** the backend moves visible batches away */
  lemma ClaimKeeps(collectorId: Text, log: Log, d: Durable, held: Option<Document>, d': Durable)
    requires Sound(collectorId, log, d, held)
    requires d' == d.(files := d'.files)
    requires d'.files.Keys <= d.files.Keys
    requires forall p | p in d'.files :: d'.files[p] == d.files[p]
    requires forall p | p in d.files && !p.HandoffPath? :: p in d'.files
    ensures Sound(collectorId, log, d', held)
  {
    hide SerializableBatch, SerializableRejection, EncodedBytes, MarksOfEvents, Of;
    forall p | p in d'.files ensures ShapedAt(collectorId, d', p) {
      assert ShapedAt(collectorId, d, p);
    }
    assert CheckpointMarks(d'.files) == CheckpointMarks(d.files);
  }

  /** unlink the manifest */
  lemma ManifestRemovalKeeps(collectorId: Text, log: Log, d: Durable, held: Option<Document>, id: Id, d': Durable)
    requires Sound(collectorId, log, d, held)
    requires d' == d.(files := d.files - {ManifestPath(id)})
    ensures Sound(collectorId, log, d', held)
  {
    hide SerializableBatch, SerializableRejection, EncodedBytes, MarksOfEvents, Of;
    forall p | p in d'.files ensures ShapedAt(collectorId, d', p) {
      assert ShapedAt(collectorId, d, p);
    }
    assert CheckpointMarks(d'.files) == CheckpointMarks(d.files);
  }

  /** unlink the held copy of a committed publication */
  lemma ReleaseKeeps(collectorId: Text, log: Log, d: Durable, document: Document, d': Durable)
    requires Sound(collectorId, log, d, Some(document)) && IdOf(document) in d.landed
    requires ManifestPath(IdOf(document)) !in d.files
    requires d' == d.(files := d.files - {HoldPath(document)})
    ensures Sound(collectorId, log, d', None)
    ensures Ready(collectorId, log, d', document)
  {
    hide SerializableBatch, SerializableRejection, EncodedBytes, MarksOfEvents, Of;
    forall p | p in d'.files ensures ShapedAt(collectorId, d', p) {
      assert ShapedAt(collectorId, d, p);
    }
    assert CheckpointMarks(d'.files) == CheckpointMarks(d.files);
    assert document in d.visible && EndsWith(d.committed, SpansOf(document));
    forall x, span | x in d'.visible && Carries(x, span) ensures span in d'.committed {
      if x == document {
        var spans := SpansOf(document);
        var i :| 0 <= i < |spans| && spans[i] == span;
        assert d.committed[|d.committed| - |spans|..][i] == span;
      }
    }
  }

  // ---------------------------------------------------------------- the commit

  lemma {:induction false} InOrderSpans(log: Log, spans: seq<Span>, span: Span)
    requires Ordered(log) && InOrder(log, spans) && span in spans
    ensures span.source in log && span in log[span.source] && span.start < span.end
  {
    OfMember(spans, span);
    var s := span.source;
    var i :| 0 <= i < |Of(spans, s)| && Of(spans, s)[i] == span;
    assert RecordsOf(log, s)[i] == span;
  }

  /** positions_for keeps, for every source, the end of its last record. */
  lemma {:induction false} MarksStand(events: seq<ContractEvent>, s: SourceId)
    requires forall e | e in events :: e.source.position.FilePosition?
    ensures StandsAt(MarkIn(MarksOfEvents(events), s), Of(SpansOfEvents(events), s))
    decreases |events|
  {
    if events != [] {
      var front := events[..|events| - 1];
      MarksStand(front, s);
      assert SpansOfEvents(events)[..|events| - 1] == SpansOfEvents(front);
      var last := events[|events| - 1];
      assert SpansOfEvents(events)[|events| - 1] == SpanOf(last);
    }
  }

  lemma DocumentMarksStand(log: Log, document: Document, s: SourceId)
    requires IsPublication(document) && Ordered(log)
    requires forall span | span in SpansOf(document) :: span.start < span.end
    ensures StandsAt(MarkIn(MarksOf(document), s), Of(SpansOf(document), s))
  {
    var spans := SpansOf(document);
    if document.BatchDocument? {
      var events := document.batch.events;
      forall e | e in events ensures e.source.position.FilePosition? {
        var i :| 0 <= i < |events| && events[i] == e;
        assert spans[i] == SpanOf(e) && spans[i] in spans;
      }
      MarksStand(events, s);
    } else {
      assert spans[..0] == [] && Of(spans[..0], s) == [];
    }
  }

  /** The spans of a publication that may be published are records of the log. */
  lemma NextSpans(log: Log, d: Durable, document: Document)
    requires Ordered(log) && InOrder(log, d.committed) && IsPublication(document) && Next(log, d, document)
    ensures forall span | span in SpansOf(document) :: span.start < span.end
  {
    forall span | span in SpansOf(document) ensures span.start < span.end {
      if IdOf(document) in d.landed {
        var spans := SpansOf(document);
        var i :| 0 <= i < |spans| && spans[i] == span;
        assert d.committed[|d.committed| - |spans|..][i] == span;
        InOrderSpans(log, d.committed, span);
      } else {
        InOrderSpans(log, d.committed + SpansOf(document), span);
      }
    }
  }

  /** The committed records of one source once the publication is committed. */
  lemma LandedOf(log: Log, d: Durable, document: Document, s: SourceId)
    requires IsPublication(document) && Next(log, d, document)
    ensures var after := if IdOf(document) in d.landed then d.committed else d.committed + SpansOf(document);
            && (Of(SpansOf(document), s) == [] ==> Of(after, s) == Of(d.committed, s))
            && (Of(SpansOf(document), s) != [] ==>
                  && Of(after, s) != []
                  && Of(after, s)[|Of(after, s)| - 1] == Of(SpansOf(document), s)[|Of(SpansOf(document), s)| - 1])
  {
    hide SpansOf, InOrder, Of;
    var spans := SpansOf(document);
    if IdOf(document) in d.landed {
      var front := d.committed[..|d.committed| - |spans|];
      assert d.committed == front + spans;
      OfConcat(front, spans, s);
    } else {
      OfConcat(d.committed, spans, s);
    }
  }

  lemma LaterEnds(log: Log, a: seq<Span>, b: seq<Span>, s: SourceId)
    requires Ordered(log) && Of(a + b, s) <= RecordsOf(log, s)
    requires Of(a, s) != [] && Of(b, s) != []
    ensures Of(a, s)[|Of(a, s)| - 1].end < Of(b, s)[|Of(b, s)| - 1].end
  {
    OfConcat(a, b, s);
    var i := |Of(a, s)| - 1;
    var j := |Of(a, s)| + |Of(b, s)| - 1;
    assert Of(a + b, s)[i] == Of(a, s)[i] && Of(a + b, s)[j] == Of(b, s)[|Of(b, s)| - 1];
    OrderedEnds(log, s, i, j);
  }

  lemma NoRegressionAt(log: Log, d: Durable, document: Document, s: SourceId)
    requires Ordered(log) && IsPublication(document) && Next(log, d, document)
    requires StandsAt(MarkIn(CheckpointMarks(d.files), s), Of(d.committed, s))
    requires StandsAt(MarkIn(MarksOf(document), s), Of(SpansOf(document), s))
    requires s in CheckpointMarks(d.files) && s in MarksOf(document)
    ensures !Regresses(CheckpointMarks(d.files)[s], MarksOf(document)[s])
  {
    hide Of, MarksOf, CheckpointMarks;
    assert Of(SpansOf(document), s) != [] && Of(d.committed, s) != [];
    if IdOf(document) in d.landed {
      LandedOf(log, d, document, s);
    } else {
      LaterEnds(log, d.committed, SpansOf(document), s);
    }
  }

  /** A commit in turn never regresses a file offset. */
  lemma NoRegression(collectorId: Text, log: Log, d: Durable, document: Document)
    requires Sound(collectorId, log, d, Some(document))
    ensures !AnyRegression(CheckpointMarks(d.files), MarksOf(document))
  {
    hide SerializableBatch, SerializableRejection, EncodedBytes, MarksOfEvents, Of;
    NextSpans(log, d, document);
    forall s | s in MarksOf(document) && s in CheckpointMarks(d.files)
      ensures !Regresses(CheckpointMarks(d.files)[s], MarksOf(document)[s])
    {
      DocumentMarksStand(log, document, s);
      NoRegressionAt(log, d, document, s);
    }
  }

  /** replace the checkpoint: the publication's records are committed */
  lemma LandKeeps(collectorId: Text, log: Log, d: Durable, document: Document, c: CheckpointState, d': Durable)
    requires Sound(collectorId, log, d, Some(document)) && document in d.visible
    requires c.collectorId == collectorId && c.sources == CheckpointMarks(d.files) + MarksOf(document)
    requires d' == Durable(
                 d.files[CheckpointPath := Whole(CheckpointDocument(c))], d.visible,
                 if IdOf(document) in d.landed then d.committed else d.committed + SpansOf(document),
                 d.landed + {IdOf(document)})
    ensures Sound(collectorId, log, d', Some(document))
  {
    hide SerializableBatch, SerializableRejection, EncodedBytes, MarksOfEvents, Of;
    forall p | p in d'.files ensures ShapedAt(collectorId, d', p) {
      if p != CheckpointPath {
        assert ShapedAt(collectorId, d, p);
      }
    }
    LandStands(collectorId, log, d, document, d');
    LandVisible(log, d, document, d');
    var spans := SpansOf(document);
    assert EndsWith(d'.committed, spans);
  }

  lemma LandStands(collectorId: Text, log: Log, d: Durable, document: Document, d': Durable)
    requires Ordered(log) && InOrder(log, d.committed) && CheckpointStands(d)
    requires IsPublication(document) && Next(log, d, document)
    requires CheckpointMarks(d'.files) == CheckpointMarks(d.files) + MarksOf(document)
    requires d'.committed == if IdOf(document) in d.landed then d.committed else d.committed + SpansOf(document)
    ensures CheckpointStands(d')
  {
    hide Of, MarksOf, CheckpointMarks, InOrder, SpansOf;
    NextSpans(log, d, document);
    forall s: SourceId ensures StandsAt(MarkIn(CheckpointMarks(d'.files), s), Of(d'.committed, s)) {
      DocumentMarksStand(log, document, s);
      LandedOf(log, d, document, s);
    }
  }

  lemma LandVisible(log: Log, d: Durable, document: Document, d': Durable)
    requires IsPublication(document) && document in d.visible && d'.visible == d.visible
    requires CommittedIsVisible(d) && VisibleIsCommitted(d, Some(document))
    requires d'.committed == if IdOf(document) in d.landed then d.committed else d.committed + SpansOf(document)
    ensures CommittedIsVisible(d') && VisibleIsCommitted(d', Some(document))
  {
    forall span | span in d'.committed ensures exists x :: x in d'.visible && Carries(x, span) {
      if span in d.committed {
        var x :| x in d.visible && Carries(x, span);
      } else {
        assert Carries(document, span);
      }
    }
  }

  // ---------------------------------------------------------------- what the invariant means

  /** The records at or before the checkpoint's offset are the committed ones. */
  lemma CommittedAtCheckpoint(collectorId: Text, log: Log, d: Durable, held: Option<Document>, span: Span)
    requires Sound(collectorId, log, d, held)
    requires span.source in log && span in log[span.source]
    ensures span in d.committed <==>
              && span.source in CheckpointMarks(d.files)
              && OffsetOf(CheckpointMarks(d.files)[span.source]).Some?
              && span.end <= OffsetOf(CheckpointMarks(d.files)[span.source]).value.1
  {
    hide SerializableBatch, SerializableRejection, EncodedBytes, Of, Shaped, Next, CommittedIsVisible,
      VisibleIsCommitted, VisibleOnce;
    var s := span.source;
    var done := Of(d.committed, s);
    assert StandsAt(MarkIn(CheckpointMarks(d.files), s), done);
    assert done <= RecordsOf(log, s);
    OfMember(d.committed, span);
    var i :| 0 <= i < |log[s]| && log[s][i] == span;
    if i < |done| {
      assert done[i] == span;
      if i < |done| - 1 {
        OrderedEnds(log, s, i, |done| - 1);
      }
    } else {
      if done != [] {
        OrderedEnds(log, s, |done| - 1, i);
      }
      if span in done {
        var j :| 0 <= j < |done| && done[j] == span;
        OrderedEnds(log, s, j, i);
      }
    }
  }

  /**
   * Exactly once: when the checkpoint of a source stands at or after a record's end, that record has become
   * visible, and every visible publication that carries it is one and the same.
   */
  lemma ExactlyOnce(collectorId: Text, log: Log, d: Durable, held: Option<Document>, span: Span)
    requires Sound(collectorId, log, d, held)
    requires span.source in log && span in log[span.source]
    requires span.source in CheckpointMarks(d.files)
    requires OffsetOf(CheckpointMarks(d.files)[span.source]).Some?
    requires span.end <= OffsetOf(CheckpointMarks(d.files)[span.source]).value.1
    ensures exists x :: x in d.visible && Carries(x, span)
    ensures forall x, y | x in d.visible && y in d.visible && Carries(x, span) && Carries(y, span) ::
              x == y && IdOf(x) == IdOf(y)
  {
    hide SerializableBatch, SerializableRejection, EncodedBytes, Of;
    CommittedAtCheckpoint(collectorId, log, d, held, span);
  }

  /** At most once: a record after the checkpoint is visible only in the publication that is being retried. */
  lemma NothingElseIsVisible(collectorId: Text, log: Log, d: Durable, held: Option<Document>, x: Document, span: Span)
    requires Sound(collectorId, log, d, held)
    requires x in d.visible && Carries(x, span) && span !in d.committed
    ensures held == Some(x) && HoldPath(x) in d.files && d.files[HoldPath(x)] == Whole(x)
  {
    hide SerializableBatch, SerializableRejection, EncodedBytes, Of;
  }

  /** Single in-flight publication: at most one of a sealed batch and a pending rejection exists. */
  lemma SingleInFlight(collectorId: Text, log: Log, d: Durable, held: Option<Document>, p: Path, q: Path)
    requires Sound(collectorId, log, d, held)
    requires p in d.files && q in d.files && IsHold(p) && IsHold(q)
    ensures p == q
    ensures d.files[p].Whole? && IsPublication(d.files[p].document)
    ensures !AnyRegression(CheckpointMarks(d.files), MarksOf(d.files[p].document))
  {
    hide SerializableBatch, SerializableRejection, EncodedBytes, Of, MarksOf, AnyRegression;
    NoRegression(collectorId, log, d, held.value);
  }

  // ---------------------------------------------------------------- growing files

  /** Every source has at least the records it had. */
  ghost predicate Grew(log: Log, longer: Log) {
    forall s: SourceId :: RecordsOf(log, s) <= RecordsOf(longer, s)
  }

  lemma InOrderGrows(log: Log, longer: Log, spans: seq<Span>)
    requires Grew(log, longer) && InOrder(log, spans)
    ensures InOrder(longer, spans)
  {
    hide Of;
    forall s: SourceId ensures Of(spans, s) <= RecordsOf(longer, s) {
      assert Of(spans, s) <= RecordsOf(log, s) <= RecordsOf(longer, s);
    }
  }

  /** What is sound stays sound when records are appended to the files. */
  lemma SoundGrows(collectorId: Text, log: Log, longer: Log, d: Durable, held: Option<Document>)
    requires Grew(log, longer) && Ordered(longer) && Sound(collectorId, log, d, held)
    ensures Sound(collectorId, longer, d, held)
  {
    hide InOrder, Shaped, Holds, OneDocumentPerId, CheckpointStands, CommittedIsVisible, VisibleIsCommitted,
      VisibleOnce, SerializableBatch, SerializableRejection, Grew;
    InOrderGrows(log, longer, d.committed);
    if held.Some? && IdOf(held.value) !in d.landed {
      InOrderGrows(log, longer, d.committed + SpansOf(held.value));
    }
  }

  lemma ReadyGrows(collectorId: Text, log: Log, longer: Log, d: Durable, document: Document)
    requires Grew(log, longer) && Ordered(longer) && Ready(collectorId, log, d, document)
    ensures Ready(collectorId, longer, d, document)
  {
    hide InOrder, Sound, Grew;
    if Sound(collectorId, log, d, Some(document)) {
      SoundGrows(collectorId, log, longer, d, Some(document));
    } else {
      SoundGrows(collectorId, log, longer, d, None);
      if IdOf(document) !in d.landed {
        InOrderGrows(log, longer, d.committed + SpansOf(document));
      }
    }
  }
}
