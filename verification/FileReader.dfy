/** The incremental file reader: a byte-at-a-time state machine that splits an append-only file at newlines. */
module FileReader {
  import opened Exceptions
  import opened Octets
  import opened Json
  import opened Contract
  import opened Foreign
  import opened Lines
  import opened RawEvents
  import opened Rejections
  import opened Serialization
  import opened Utf8

  const ANCHOR_SIZE := 64

  datatype StartPosition = Oldest | Newest

  datatype Resume = Resume(identity: Text, endOffset: nat)

  datatype Options = Options(
    sourceId: SourceId, startPosition: StartPosition, upstreamSenderId: Text, maximumRecordBytes: nat,
    maximumCaptureBytes: nat, maximumPollBytes: nat, resume: Option<Resume>)

  predicate ValidOptions(options: Options) {
    && options.sourceId != [] && options.upstreamSenderId != []
    && 1 <= options.maximumRecordBytes <= MAXIMUM_EVENT_BYTES
    && options.maximumCaptureBytes >= 1 && options.maximumPollBytes >= 1
  }

  /** The file at the path, seen at one moment. */
  datatype Snapshot = Snapshot(identity: Text, content: Text)

  /** What each access of one poll sees, in turn; None when the access fails. A broken stream may fail at any byte. */
  datatype Views = Views(
    inspected: Option<Snapshot>, anchored: Option<Snapshot>, streamed: Option<Snapshot>, broken: bool,
    rechecked: Option<Snapshot>, reanchored: Option<Snapshot>)

  datatype FileReadResult = FileReadResult(
    items: seq<ReadItem>, identity: Text, nextOffset: nat, hasPartialRecord: bool)

  datatype FileState = FileState(identity: Text, size: nat)

  // ---------------------------------------------------------------- texts

  function AbsentText(): (text: Text)
    ensures text != [] && IsAscii(text)
  {
    Ascii("missing_required_field: required input field is absent: ")
  }

  function WrongTypeText(): (text: Text)
    ensures text != [] && IsAscii(text)
  {
    Ascii("invalid_field_type: input field must be a string: ")
  }

  function EmptyText(): (text: Text)
    ensures text != [] && IsAscii(text)
  {
    Ascii("missing_required_field: input field must not be empty: ")
  }

  function TooLongText(): (text: Text)
    ensures text != [] && IsAscii(text)
  {
    Ascii("input record exceeds the configured byte limit")
  }

  function NotUtf8Text(): (text: Text)
    ensures text != [] && IsAscii(text)
  {
    Ascii("input record is not valid UTF-8")
  }

  function NotJsonText(): (text: Text)
    ensures text != [] && IsAscii(text)
  {
    Ascii("input record is not strict JSON: ")
  }

  function NotObjectText(): (text: Text)
    ensures text != [] && IsAscii(text)
  {
    Ascii("input record root must be a JSON object")
  }

  function EventIdText(): (text: Text)
    ensures text != [] && IsAscii(text)
  {
    Ascii("event_id")
  }

  function EndpointIdText(): (text: Text)
    ensures text != [] && IsAscii(text)
  {
    Ascii("endpoint_id")
  }

  function EventTypeText(): (text: Text)
    ensures text != [] && IsAscii(text)
  {
    Ascii("event_type")
  }

  function TimestampText(): (text: Text)
    ensures text != [] && IsAscii(text)
  {
    Ascii("timestamp")
  }

  function FileDropText(): (text: Text)
    ensures text != [] && IsAscii(text)
  {
    Ascii("file_drop")
  }

  function JsonTypeText(): (text: Text)
    ensures text != [] && IsAscii(text)
  {
    Ascii("application/json")
  }

  function FileText(): (text: Text)
    ensures text != [] && IsAscii(text)
  {
    Ascii("file")
  }

  // ---------------------------------------------------------------- what one record becomes

  /** required_envelope_string; the message is what() of the reader error it throws. */
  function RequiredField(members: seq<Member>, field: Text): Field {
    StringField(members, field, AbsentText(), WrongTypeText(), EmptyText())
  }

  datatype Verdict =
    | Accepted(document: Json, eventId: Text, endpointId: Text, eventTime: Text)
    | Rejected(code: RejectionCode, message: Text)

  function EnvelopeVerdict(document: Json): Verdict
    requires document.Obj?
  {
    var eventId := RequiredField(document.members, EventIdText());
    var endpointId := RequiredField(document.members, EndpointIdText());
    var eventType := RequiredField(document.members, EventTypeText());
    var eventTime := RequiredField(document.members, TimestampText());
    if eventId.Fault? then Rejected(eventId.code, eventId.message)
    else if endpointId.Fault? then Rejected(endpointId.code, endpointId.message)
    else if eventType.Fault? then Rejected(eventType.code, eventType.message)
    else if eventTime.Fault? then Rejected(eventTime.code, eventTime.message)
    else Accepted(document, eventId.text, endpointId.text, eventTime.text)
  }

  function VerdictOf(library: Library, options: Options, text: Text): Verdict {
    if |text| > options.maximumRecordBytes then
      Rejected(RecordTooLarge, TooLongText())
    else if !IsUtf8(text) then Rejected(InvalidUtf8, NotUtf8Text())
    else
      match library.parseStrict(text)
      case NotStrict(code) => Rejected(InvalidJson, NotJsonText() + code)
      case Document(document) =>
        if !document.Obj? then Rejected(InvalidFieldType, NotObjectText())
        else EnvelopeVerdict(document)
  }

  /** make_rejection, from the complete record. */
  function RejectionOf(library: Library, options: Options, identity: Text, line: Line,
                       code: RejectionCode, message: Text): InputRejection {
    RejectPayload(library, code, message, Span(options.sourceId, identity, line.start, line.end), FileDropText(),
                  JsonTypeText(), line.text, options.maximumCaptureBytes)
  }

  /** What a complete record becomes, however it was read. */
  function ItemOf(library: Library, options: Options, identity: Text, line: Line, at: Timestamp): ReadItem {
    match VerdictOf(library, options, line.text)
    case Rejected(code, message) => RejectedItem(RejectionOf(library, options, identity, line, code, message))
    case Accepted(document, eventId, endpointId, eventTime) =>
      RawItem(RawEvent(Span(options.sourceId, identity, line.start, line.end), FileText(), options.upstreamSenderId,
                       endpointId, eventId, eventTime, at, JsonTypeText(), line.text, document))
  }

  ghost predicate Describes(library: Library, options: Options, identity: Text, item: ReadItem, line: Line) {
    && item == ItemOf(library, options, identity, line, ReceivedAt(item))
    && (item.RawItem? ==> IsInstant(ReceivedAt(item)))
  }

  /** The items are what the records between two offsets become, one for one. */
  ghost predicate HandsOver(library: Library, options: Options, file: Snapshot, items: seq<ReadItem>, from: nat,
          last: nat) {
    && from <= last <= |file.content|
    && var lines := Records(file.content, from, last);
       && |items| == |lines|
       && forall i | 0 <= i < |items| :: Describes(library, options, file.identity, items[i], lines[i])
  }

  // ---------------------------------------------------------------- views of a growing file

  function AnchorOf(content: Text, offset: nat): Text
    requires offset <= |content|
  {
    content[offset - Least(offset, ANCHOR_SIZE)..offset]
  }

  ghost predicate Shows(view: Option<Snapshot>, file: Snapshot, least: nat) {
    view.Some? ==>
      view.value.identity == file.identity && view.value.content <= file.content && least <= |view.value.content|
  }

  /** The size the file has at least shown once a poll has read it. */
  function Seen(views: Views, least: nat): nat {
    if views.streamed.Some? && |views.streamed.value.content| > least then |views.streamed.value.content| else least
  }

  /** The path names one file that only grows, towards `file`. */
  ghost predicate AppendOnly(views: Views, file: Snapshot, least: nat) {
    var read := Seen(views, least);
    && Shows(views.inspected, file, least) && Shows(views.anchored, file, least) && Shows(views.streamed, file, least)
    && Shows(views.rechecked, file, read) && Shows(views.reanchored, file, read)
  }

  /** Once the file is open for reading, nothing fails any more. */
  predicate ReadsThrough(views: Views) {
    views.streamed.Some? ==>
      && !views.broken && views.reanchored.Some?
      && views.rechecked.Some? && |views.rechecked.value.content| <= MAXIMUM_SAFE_INTEGER
  }

  /** Nothing fails at all. */
  predicate AllSeen(views: Views) {
    && views.inspected.Some? && |views.inspected.value.content| <= MAXIMUM_SAFE_INTEGER && views.anchored.Some?
    && views.streamed.Some? && ReadsThrough(views)
  }

  function InspectFile(view: Option<Snapshot>): (state: Result<FileState>)
    ensures state.Success? ==> state.value.size <= MAXIMUM_SAFE_INTEGER
    ensures state.Failure? ==> state.error == ReaderError
  {
    if view.None? || |view.value.content| > MAXIMUM_SAFE_INTEGER then Failure(ReaderError)
    else Success(FileState(view.value.identity, |view.value.content|))
  }

  function ReadAnchor(view: Option<Snapshot>, endOffset: nat): (anchor: Result<Text>)
    ensures anchor.Failure? ==> anchor.error == ReaderError
  {
    if endOffset == 0 then Success([])
    else if view.None? || |view.value.content| < endOffset then Failure(ReaderError)
    else Success(AnchorOf(view.value.content, endOffset))
  }

  lemma AnchorOfPrefix(content: Text, longer: Text, offset: nat)
    requires offset <= |content| && content <= longer
    ensures AnchorOf(content, offset) == AnchorOf(longer, offset)
  {
  }

  /** However often it is read, the anchor of a growing file is the same. */
  lemma AnchorSeen(view: Option<Snapshot>, file: Snapshot, offset: nat)
    requires view.Some? ==> view.value.content <= file.content
    requires offset <= |file.content|
    ensures ReadAnchor(view, offset).Success? ==> ReadAnchor(view, offset).value == AnchorOf(file.content, offset)
    ensures offset == 0 <==> AnchorOf(file.content, offset) == []
  {
    if view.Some? && offset <= |view.value.content| {
      AnchorOfPrefix(view.value.content, file.content, offset);
    }
  }

  /** When nothing fails, looking again at what was read of a growing file finds it unchanged. */
  lemma LooksTheSame(views: Views, file: Snapshot, least: nat, offset: nat)
    requires AppendOnly(views, file, least) && views.streamed.Some? && offset <= Seen(views, least)
    ensures offset <= |file.content|
    ensures views.rechecked.Some? ==>
              views.rechecked.value.identity == file.identity && offset <= |views.rechecked.value.content|
    ensures ReadAnchor(views.reanchored, offset).Success? ==>
              ReadAnchor(views.reanchored, offset).value == AnchorOf(file.content, offset)
    ensures ReadsThrough(views) ==>
              InspectFile(views.rechecked).Success? && ReadAnchor(views.reanchored, offset).Success?
  {
    AnchorSeen(views.reanchored, file, offset);
  }

  class Reader {
    const library: Library
    const options: Options
    var identity: Text
    var readOffset: nat
    var pendingStart: nat
    var pendingLength: nat
    var pendingPayload: Text
    var pendingLast: Byte
    /** The bytes the SHA-256 accumulator has absorbed. */
    var pendingDigest: Text
    var readAnchor: Text
    var initialized: bool
    /** The incomplete record as read so far, not truncated. */
    ghost var pending: Text

    constructor (library: Library, options: Options)
      requires ValidOptions(options)
      ensures this.library == library && this.options == options && !initialized && Valid()
    {
      this.library, this.options := library, options;
      identity, readOffset, pendingStart, pendingLength, pendingPayload := [], 0, 0, 0, [];
      pendingLast, pendingDigest, readAnchor, initialized := 0, [], [], false;
      pending := [];
    }

    function StorageLimit(): nat {
      if options.maximumRecordBytes + 1 > options.maximumCaptureBytes then options.maximumRecordBytes + 1
      else options.maximumCaptureBytes
    }

    /** The pending fields describe the incomplete record; the digest lags one byte behind. */
    ghost predicate Valid()
      reads this
    {
      && ValidOptions(options)
      && pendingLength == |pending|
      && pendingPayload == pending[..Least(|pending|, StorageLimit())]
      && (if pending == [] then pendingLast == 0 && pendingDigest == []
          else pendingLast == pending[|pending| - 1] && pendingDigest == pending[..|pending| - 1])
    }

    /** Everything up to readOffset was read, and the records up to pendingStart were handed over. */
    ghost predicate At(file: Snapshot)
      reads this
    {
      && identity == file.identity
      && pendingStart <= readOffset <= |file.content|
      && Boundary(file.content, pendingStart)
      && NEWLINE !in file.content[pendingStart..readOffset]
      && pending == file.content[pendingStart..readOffset]
      && readAnchor == AnchorOf(file.content, readOffset)
    }

    /** The offset of the first record that was not handed over. */
    function Position(): nat
      reads this
    {
      if initialized then pendingStart else if options.resume.Some? then options.resume.value.endOffset else 0
    }

    /** The least size a later view of the file can have. */
    function Floor(): nat
      reads this
    {
      if initialized then readOffset else Position()
    }

    ghost predicate Follows(file: Snapshot)
      reads this
    {
      && options.maximumCaptureBytes <= options.maximumRecordBytes
      && (if initialized then At(file)
          else
            && options.startPosition.Oldest?
            && Position() <= |file.content| && Boundary(file.content, Position())
            && (options.resume.Some? ==> options.resume.value.identity == file.identity))
    }

    method ResetPending(nextStart: nat)
      requires ValidOptions(options)
      modifies this`pendingStart, this`pendingLength, this`pendingPayload, this`pendingLast, this`pendingDigest
      modifies this`pending
      ensures pendingStart == nextStart && pending == [] && Valid()
    {
      pendingStart, pendingLength, pendingPayload, pendingLast, pendingDigest := nextStart, 0, [], 0, [];
      pending := [];
    }

    /** The file is another one, is shorter than what was read, or differs just before the read offset. */
    predicate Replaced(state: FileState, anchor: Result<Text>)
      reads this
    {
      state.identity != identity || state.size < readOffset || (readAnchor != [] && anchor != Success(readAnchor))
    }

    /** The path names a shorter file than what was read, or another one: `file`, which from now on only grows. */
    ghost predicate StartsOver(views: Views, file: Snapshot)
      reads this
    {
      && initialized && options.maximumCaptureBytes <= options.maximumRecordBytes
      && InspectFile(views.inspected).Success?
      && (views.inspected.value.identity != identity || |views.inspected.value.content| < readOffset)
      && AppendOnly(views, file, 0)
    }

    method InitializeOrRefreshFile(views: Views, ghost file: Snapshot) returns (outcome: Result<()>)
      requires Valid()
      modifies this
      ensures Valid()
      ensures outcome.Failure? ==> outcome.error == ReaderError && initialized == old(initialized)
      ensures outcome.Success? ==> initialized
      ensures old(Follows(file)) && AppendOnly(views, file, old(Floor())) ==>
                && Follows(file) && Position() == old(Position()) && Floor() == old(Floor())
      ensures old(Follows(file)) && AppendOnly(views, file, old(Floor())) && AllSeen(views) ==> outcome.Success?
      ensures old(StartsOver(views, file)) ==> outcome.Success? && Follows(file) && Position() == 0 && Floor() == 0
    {
      hide AnchorOf, Boundary, ReadAnchor, Shows;
      ghost var over := StartsOver(views, file);
      ViewsOf(views, file, Floor());
      var state :- InspectFile(views.inspected);
      if initialized {
        outcome := Refresh(state, views);
        if over {
          AtTheStart(file);
        }
      } else {
        outcome := Initialize(state, views);
      }
    }

    lemma ViewsOf(views: Views, file: Snapshot, least: nat)
      requires Valid()
      ensures AppendOnly(views, file, least) && views.inspected.Some? ==>
                views.inspected.value.identity == file.identity && least <= |views.inspected.value.content|
      ensures AppendOnly(views, file, least) && views.anchored.Some? ==> ReadAnchor(views.anchored, least).Success?
      ensures AppendOnly(views, file, least) && least <= |file.content|
              && ReadAnchor(views.anchored, least).Success? ==>
                ReadAnchor(views.anchored, least).value == AnchorOf(file.content, least)
      ensures least <= |file.content| ==> (least == 0 <==> AnchorOf(file.content, least) == [])
      ensures StartsOver(views, file) ==> InspectFile(views.inspected).value.identity == file.identity
    {
      if AppendOnly(views, file, least) && least <= |file.content| {
        AnchorSeen(views.anchored, file, least);
      }
    }

    lemma AtTheStart(file: Snapshot)
      requires initialized && identity == file.identity && readOffset == pendingStart == 0 && pending == []
               && readAnchor == []
      ensures At(file)
    {
    }

    method Initialize(state: FileState, views: Views) returns (outcome: Result<()>)
      requires ValidOptions(options)
      modifies this
      ensures outcome.Failure? ==> outcome.error == ReaderError && initialized == old(initialized)
      ensures Valid()
      ensures readOffset == (if options.resume.Some? && options.resume.value.identity == state.identity
                                && options.resume.value.endOffset <= state.size then options.resume.value.endOffset
                             else if options.startPosition.Newest? then state.size else 0)
      ensures outcome.Success? <==> ReadAnchor(views.anchored, readOffset).Success?
      ensures outcome.Success? ==>
                && initialized && identity == state.identity && pendingStart == readOffset && pending == []
                && ReadAnchor(views.anchored, readOffset) == Success(readAnchor)
    {
      identity := state.identity;
      if options.resume.Some? && options.resume.value.identity == state.identity
         && options.resume.value.endOffset <= state.size {
        readOffset := options.resume.value.endOffset;
      } else {
        readOffset := if options.startPosition.Newest? then state.size else 0;
      }
      ResetPending(readOffset);
      readAnchor :- ReadAnchor(views.anchored, readOffset);
      initialized := true;
      return Success(());
    }

    method Refresh(state: FileState, views: Views) returns (outcome: Result<()>)
      requires Valid()
      modifies this
      ensures Valid() && initialized == old(initialized)
      ensures outcome.Failure? ==> outcome.error == ReaderError && unchanged(this)
      ensures outcome.Failure? <==>
                state.identity == old(identity) && state.size >= old(readOffset) && old(readAnchor) != []
                && ReadAnchor(views.anchored, old(readOffset)).Failure?
      ensures outcome.Success? ==>
                if old(Replaced(state, ReadAnchor(views.anchored, readOffset))) then
                  && identity == state.identity && readOffset == 0 && pendingStart == 0
                  && pending == [] && readAnchor == []
                else unchanged(this)
    {
      var canVerifyAnchor := state.identity == identity && state.size >= readOffset && readAnchor != [];
      var contentChanged := false;
      if canVerifyAnchor {
        var anchor :- ReadAnchor(views.anchored, readOffset);
        contentChanged := anchor != readAnchor;
      }
      if state.identity != identity || state.size < readOffset || contentChanged {
        identity := state.identity;
        readOffset := 0;
        ResetPending(0);
        readAnchor := [];
      }
      return Success(());
    }

    /** An over-long record whose stored prefix happens to end in a carriage return loses one captured byte. */
    predicate CaptureShortened(partial: Text)
      requires ValidOptions(options)
    {
      && |partial| > StorageLimit() && partial[|partial| - 1] == RETURN && partial[StorageLimit() - 1] == RETURN
      && options.maximumCaptureBytes > options.maximumRecordBytes
    }

    /** The stored prefix without the carriage return, and the digest brought up to the whole trimmed record. */
    method TakeStored() returns (payload: Text, byteLength: nat)
      requires Valid()
      modifies this`pendingDigest
      ensures pendingDigest == Trimmed(pending) && byteLength == |Trimmed(pending)|
      ensures var stored := pending[..Least(|pending|, StorageLimit())];
              payload == if pending != [] && pending[|pending| - 1] == RETURN then Trimmed(stored) else stored
    {
      payload := pendingPayload;
      byteLength := pendingLength;
      if pendingLast == RETURN {
        if payload != [] && payload[|payload| - 1] == RETURN {
          payload := payload[..|payload| - 1];
        }
        byteLength := byteLength - 1;
      } else if pendingLength != 0 {
        pendingDigest := pendingDigest + [pendingLast];
      }
    }

    /** finish_record: from the truncated storage and the lagging digest, exactly what the complete record becomes. */
    method FinishRecord(endOffset: nat) returns (item: ReadItem)
      requires Valid()
      modifies this`pendingDigest
      ensures Describes(library, options, identity, item, Line(pendingStart, endOffset, Trimmed(pending)))
              <==> !CaptureShortened(pending)
      ensures SpanOfItem(item) == Span(options.sourceId, identity, pendingStart, endOffset)
    {
      hide VerdictOf, IsUtf8, EnvelopeVerdict, FileText, FileDropText, JsonTypeText, Trimmed, CaptureShortened;
      var payload, byteLength := TakeStored();
      StoredPrefix(pending, payload);
      var payloadSha256 := library.sha256Hex(pendingDigest);
      var verdict := Judge(payload, byteLength, Trimmed(pending));
      match verdict {
        case Rejected(code, message) =>
          item := RejectedItem(MakeRejection(endOffset, payload, byteLength, code, message, payloadSha256));
        case Accepted(document, eventId, endpointId, eventTime) =>
          var now := Now();
          item := RawItem(RawEvent(Span(options.sourceId, identity, pendingStart, endOffset), FileText(),
                                   options.upstreamSenderId, endpointId, eventId, eventTime, now,
                                   JsonTypeText(), payload, document));
      }
    }

    /** The chain of checks on the stored payload decides as on the complete record. */
    method Judge(payload: Text, byteLength: nat, ghost text: Text) returns (verdict: Verdict)
      requires byteLength == |text| && (byteLength <= options.maximumRecordBytes ==> payload == text)
      ensures verdict == VerdictOf(library, options, text)
      ensures verdict.Accepted? ==> payload == text
    {
      hide IsUtf8, EnvelopeVerdict;
      if byteLength > options.maximumRecordBytes {
        return Rejected(RecordTooLarge, TooLongText());
      }
      var valid := IsValidUtf8(payload);
      if !valid {
        return Rejected(InvalidUtf8, NotUtf8Text());
      }
      match library.parseStrict(payload) {
        case NotStrict(code) => return Rejected(InvalidJson, NotJsonText() + code);
        case Document(document) =>
          if !document.Obj? {
            return Rejected(InvalidFieldType, NotObjectText());
          }
          return EnvelopeVerdict(document);
      }
    }

    /** What finish_record takes from the storage. */
    lemma StoredPrefix(partial: Text, payload: Text)
      requires ValidOptions(options)
      requires var stored := partial[..Least(|partial|, StorageLimit())];
               payload == if partial != [] && partial[|partial| - 1] == RETURN then Trimmed(stored) else stored
      ensures |Trimmed(partial)| <= options.maximumRecordBytes ==>
                payload == Trimmed(partial) && !CaptureShortened(partial)
      ensures |Trimmed(partial)| > options.maximumRecordBytes ==>
                var full := Trimmed(partial)[..Least(|Trimmed(partial)|, options.maximumCaptureBytes)];
                && (payload[..Least(|payload|, options.maximumCaptureBytes)] == full <==> !CaptureShortened(partial))
                && (CaptureShortened(partial) || |full| == Least(|payload|, options.maximumCaptureBytes))
    {
    }

    /** make_rejection, from the stored prefix. */
    function MakeRejection(endOffset: nat, payload: Text, byteLength: nat, code: RejectionCode, message: Text,
                           payloadSha256: Text): InputRejection
      reads this
    {
      var captureSize := Least(|payload|, options.maximumCaptureBytes);
      InputRejection(code, message, Span(options.sourceId, identity, pendingStart, endOffset), FileDropText(),
                     JsonTypeText(), byteLength, payload[..captureSize], byteLength > captureSize, payloadSha256)
    }

    /** The bytes this poll streamed so far became these items. */
    ghost predicate Streamed(file: Snapshot, items: seq<ReadItem>, from: nat)
      reads this
    {
      && initialized && At(file) && from <= pendingStart
      && StartOf(file.content, from, readOffset) == pendingStart
      && HandsOver(library, options, file, items, from, readOffset)
    }

    method Append(character: Byte)
      requires Valid()
      modifies this`pendingLength, this`pendingPayload, this`pendingLast, this`pendingDigest, this`pending
      ensures Valid() && pending == old(pending) + [character]
    {
      if pendingLength != 0 {
        pendingDigest := pendingDigest + [pendingLast];
      }
      pendingLength := pendingLength + 1;
      pendingLast := character;
      if |pendingPayload| < StorageLimit() {
        pendingPayload := pendingPayload + [character];
      }
      pending := pending + [character];
    }

    lemma OneRecordMore(file: Snapshot, from: nat, start: nat, before: Text, items: seq<ReadItem>, item: ReadItem)
      requires from <= start && start + |before| < |file.content|
               && StartOf(file.content, from, start + |before|) == start
      requires HandsOver(library, options, file, items, from, start + |before|)
      requires file.content[start..start + |before|] == before && file.content[start + |before|] == NEWLINE
      requires Describes(library, options, file.identity, item, Line(start, start + |before| + 1, Trimmed(before)))
      ensures HandsOver(library, options, file, items + [item], from, start + |before| + 1)
      ensures StartOf(file.content, from, start + |before| + 1) == start + |before| + 1
      ensures Boundary(file.content, start + |before| + 1)
    {
      hide Describes, Trimmed;
      var end := start + |before| + 1;
      assert LineAt(file.content, start, end) == Line(start, end, Trimmed(before));
      assert Records(file.content, from, end) == Records(file.content, from, end - 1)
              + [LineAt(file.content, start, end)];
    }

    lemma OneByteMore(file: Snapshot, from: nat, start: nat, before: Text, items: seq<ReadItem>)
      requires from <= start && start + |before| < |file.content|
               && StartOf(file.content, from, start + |before|) == start
      requires HandsOver(library, options, file, items, from, start + |before|)
      requires file.content[start..start + |before|] == before && file.content[start + |before|] != NEWLINE
      ensures HandsOver(library, options, file, items, from, start + |before| + 1)
      ensures StartOf(file.content, from, start + |before| + 1) == start
      ensures file.content[start..start + |before| + 1] == before + [file.content[start + |before|]]
      ensures NEWLINE !in file.content[start..start + |before| + 1]
    {
      hide Describes, Trimmed;
      var end := start + |before| + 1;
      assert file.content[start..end] == file.content[start..end - 1] + [file.content[end - 1]];
      assert Records(file.content, from, end) == Records(file.content, from, end - 1) + [];
    }

    /** The byte joins the anchor: the last bytes read, up to the anchor's size. */
    method PushAnchor(character: Byte, ghost content: Text)
      modifies this`readAnchor, this`readOffset
      ensures readOffset == old(readOffset) + 1
      ensures (old(readOffset) < |content| && character == content[old(readOffset)]
               && old(readAnchor) == AnchorOf(content, old(readOffset))) ==>
                readAnchor == AnchorOf(content, readOffset)
    {
      hide AnchorOf;
      if readOffset < |content| {
        AnchorGrows(content, readOffset);
      }
      readOffset := readOffset + 1;
      readAnchor := readAnchor + [character];
      if |readAnchor| > ANCHOR_SIZE {
        readAnchor := readAnchor[|readAnchor| - ANCHOR_SIZE..];
      }
    }

    /** A newline completes the record. */
    method CompleteRecord() returns (item: ReadItem)
      requires Valid()
      modifies this`pendingStart, this`pendingLength, this`pendingPayload, this`pendingLast, this`pendingDigest
      modifies this`pending
      ensures Valid() && pending == [] && pendingStart == readOffset
      ensures SpanOfItem(item).end == readOffset
      ensures options.maximumCaptureBytes <= options.maximumRecordBytes ==>
                Describes(library, options, identity, item, Line(old(pendingStart), readOffset, Trimmed(old(pending))))
    {
      hide Describes, Trimmed;
      item := FinishRecord(readOffset);
      ResetPending(readOffset);
    }

    /** One byte of the poll loop. */
    method Consume(character: Byte, ghost file: Snapshot, ghost items: seq<ReadItem>, ghost from: nat)
      returns (finished: seq<ReadItem>)
      requires Valid()
      modifies this
      ensures Valid() && initialized == old(initialized) && identity == old(identity)
      ensures readOffset == old(readOffset) + 1 && |finished| <= 1
      ensures forall item | item in finished :: SpanOfItem(item).end == readOffset
      ensures old(Streamed(file, items, from)) && options.maximumCaptureBytes <= options.maximumRecordBytes
              && old(readOffset) < |file.content| && character == file.content[old(readOffset)] ==>
                Streamed(file, items + finished, from)
    {
      hide Describes, HandsOver, Trimmed, StartOf, AnchorOf, Records, Last, Boundary, ValidOptions;
      ghost var streamed := Streamed(file, items, from) && options.maximumCaptureBytes <= options.maximumRecordBytes
                            && readOffset < |file.content| && character == file.content[readOffset];
      ghost var before, start := pending, pendingStart;
      PushAnchor(character, file.content);
      if character == NEWLINE {
        var item := CompleteRecord();
        finished := [item];
        if streamed {
          OneRecordMore(file, from, start, before, items, item);
        }
      } else {
        Append(character);
        finished := [];
        if streamed {
          OneByteMore(file, from, start, before, items);
          assert items + finished == items;
        }
      }
    }

    /** After the loop: a file that changed underneath is read again from its start, and the items are dropped. */
    method Recheck(identityAtOpen: Text, views: Views) returns (outcome: Result<()>)
      requires Valid()
      modifies this
      ensures Valid() && initialized == old(initialized)
      ensures outcome.Failure? ==> outcome.error == ReaderError
      ensures outcome.Failure? <==>
                || InspectFile(views.rechecked).Failure?
                || views.rechecked.value.identity != identityAtOpen || |views.rechecked.value.content| < old(readOffset)
                || ReadAnchor(views.reanchored, old(readOffset)) != Success(old(readAnchor))
      ensures outcome.Success? ==>
                unchanged(this) && readOffset <= MAXIMUM_SAFE_INTEGER
                && ReadAnchor(views.reanchored, readOffset) == Success(readAnchor)
      ensures unchanged(this)
              || (&& views.rechecked.Some?
                  && (|| views.rechecked.value.identity != identityAtOpen
                      || |views.rechecked.value.content| < old(readOffset)
                      || (&& ReadAnchor(views.reanchored, old(readOffset)).Success?
                          && ReadAnchor(views.reanchored, old(readOffset)).value != old(readAnchor))))
    {
      var state :- InspectFile(views.rechecked);
      var anchorChanged := false;
      if state.identity == identityAtOpen && state.size >= readOffset {
        var anchor :- ReadAnchor(views.reanchored, readOffset);
        anchorChanged := anchor != readAnchor;
      }
      if state.identity != identityAtOpen || state.size < readOffset || anchorChanged {
        identity := state.identity;
        readOffset := 0;
        ResetPending(0);
        readAnchor := [];
        return Failure(ReaderError);
      }
      return Success(());
    }

    /** The read loop: it stops at the record limit, at the byte limit, at the end of the file, or at an error. */
    method Stream(maximumRecords: nat, content: Text, broken: bool, ghost file: Snapshot, ghost from: nat)
      returns (items: seq<ReadItem>, bad: bool)
      requires Valid() && initialized
      modifies this
      ensures Valid() && initialized && identity == old(identity)
      ensures bad ==> broken
      ensures |items| <= maximumRecords
      ensures forall item | item in items :: SpanOfItem(item).end <= readOffset
      ensures old(readOffset) <= readOffset && (readOffset == old(readOffset) || readOffset <= |content|)
      ensures !bad ==>
                || |items| == maximumRecords || readOffset - old(readOffset) == options.maximumPollBytes
                || readOffset >= |content|
      ensures old(Streamed(file, [], from)) && content <= file.content
              && options.maximumCaptureBytes <= options.maximumRecordBytes ==>
                Streamed(file, items, from)
    {
      hide Streamed;
      ghost var growing := Streamed(file, [], from) && content <= file.content
                           && options.maximumCaptureBytes <= options.maximumRecordBytes;
      items, bad := [], false;
      var bytesRead := 0;
      while !bad && |items| < maximumRecords && bytesRead < options.maximumPollBytes && readOffset < |content|
        invariant Valid() && initialized && identity == old(identity)
        invariant bad ==> broken
        invariant |items| <= maximumRecords && bytesRead == readOffset - old(readOffset) <= options.maximumPollBytes
        invariant forall item | item in items :: SpanOfItem(item).end <= readOffset
        invariant readOffset == old(readOffset) || readOffset <= |content|
        invariant growing ==> Streamed(file, items, from)
        decreases |content| - readOffset
      {
        var finished := Consume(content[readOffset], file, items, from);
        items := items + finished;
        bytesRead := bytesRead + 1;
        var failing: bool := *;
        bad := broken && failing;
      }
    }

    /**
     * poll: `read` is what the loop finished, also when the poll then fails and drops it. On a file that only
     * grows, it is exactly the records from where the last poll stopped, whatever the limits cut off.
     */
    method Poll(maximumRecords: nat, views: Views, ghost file: Snapshot)
      returns (result: Result<FileReadResult>, ghost read: seq<ReadItem>)
      requires Valid()
      modifies this
      ensures Valid()
      ensures result.Failure? ==> result.error == ReaderError
      ensures result.Success? ==>
                && 0 < maximumRecords && initialized && result.value.items == read
                && result.value.identity == identity && result.value.nextOffset == readOffset
                && result.value.hasPartialRecord == (pending != [])
                && forall item | item in read :: SpanOfItem(item).end <= MAXIMUM_SAFE_INTEGER
      ensures |read| <= maximumRecords
      ensures old(Follows(file)) && AppendOnly(views, file, old(Floor())) ==>
                && Follows(file) && old(Floor()) <= Floor() <= Seen(views, old(Floor()))
                && old(Position()) <= Position() <= |file.content|
                && HandsOver(library, options, file, read, old(Position()), Position())
                && Records(file.content, 0, Position())
                   == Records(file.content, 0, old(Position())) + Records(file.content, old(Position()), Position())
      ensures old(Follows(file)) && AppendOnly(views, file, old(Floor())) && ReadsThrough(views) && result.Failure? ==>
                read == []
      ensures old(Follows(file)) && AppendOnly(views, file, old(Floor())) && AllSeen(views) && 0 < maximumRecords ==>
                && result.Success?
                && (|read| == maximumRecords || Floor() - old(Floor()) == options.maximumPollBytes
                    || Floor() >= |views.streamed.value.content|)
      ensures old(StartsOver(views, file)) && 0 < maximumRecords ==>
                && Follows(file)
                && Position() <= |file.content| && HandsOver(library, options, file, read, 0, Position())
                && (AllSeen(views) ==>
                      && result.Success?
                      && (|read| == maximumRecords || Floor() == options.maximumPollBytes
                          || Floor() >= |views.streamed.value.content|))
    {
      hide HandsOver, AnchorOf, Records, StartOf, InspectFile, ReadAnchor, Follows, Valid, AppendOnly, ReadsThrough,
        AllSeen;
      read := [];
      if Follows(file) {
        NothingYet(file, Position());
      }
      if maximumRecords == 0 {
        return Failure(ReaderError), read;
      }
      var _ :- InitializeOrRefreshFile(views, file);
      result, read := ReadOn(maximumRecords, views, file);
    }

    /** poll, once the file is known to be the one that was read before, or reading starts over. */
    method ReadOn(maximumRecords: nat, views: Views, ghost file: Snapshot)
      returns (result: Result<FileReadResult>, ghost read: seq<ReadItem>)
      requires Valid() && initialized && 0 < maximumRecords
      modifies this
      ensures Valid() && initialized
      ensures result.Failure? ==> result.error == ReaderError
      ensures result.Success? ==>
                && result.value.items == read
                && result.value.identity == identity && result.value.nextOffset == readOffset
                && result.value.hasPartialRecord == (pending != [])
                && forall item | item in read :: SpanOfItem(item).end <= MAXIMUM_SAFE_INTEGER
      ensures |read| <= maximumRecords
      ensures old(Follows(file)) && AppendOnly(views, file, old(Floor())) ==>
                && Follows(file) && old(Floor()) <= Floor() <= Seen(views, old(Floor()))
                && old(Position()) <= Position() <= |file.content|
                && HandsOver(library, options, file, read, old(Position()), Position())
                && Records(file.content, 0, Position())
                   == Records(file.content, 0, old(Position())) + Records(file.content, old(Position()), Position())
                && (ReadsThrough(views) && result.Failure? ==> read == [])
                && (AllSeen(views) ==>
                      && result.Success?
                      && (|read| == maximumRecords || Floor() - old(Floor()) == options.maximumPollBytes
                          || Floor() >= |views.streamed.value.content|))
    {
      hide HandsOver, AnchorOf, Records, StartOf, InspectFile, ReadAnchor;
      ghost var from, floor := Position(), Floor();
      ghost var growing := Follows(file) && AppendOnly(views, file, Floor());
      read := [];
      var identityAtOpen := identity;
      if growing {
        NothingYet(file, from);
      }
      if views.streamed.None? {
        return Failure(ReaderError), read;
      }
      if growing {
        StartsHere(file, from);
      }
      var items, bad := Stream(maximumRecords, views.streamed.value.content, views.broken, file, from);
      read := items;
      if growing {
        Settled(file, items, from);
        LooksTheSame(views, file, floor, readOffset);
      }
      if bad {
        return Failure(ReaderError), read;
      }
      var _ :- Recheck(identityAtOpen, views);
      return Success(FileReadResult(items, identity, readOffset, pendingLength != 0)), read;
    }

    lemma NothingYet(file: Snapshot, from: nat)
      requires Follows(file) && from == Position()
      ensures HandsOver(library, options, file, [], from, from)
      ensures from <= |file.content|
              && Records(file.content, 0, from) == Records(file.content, 0, from) + Records(file.content, from, from)
    {
      assert Records(file.content, from, from) == [];
    }

    lemma StartsHere(file: Snapshot, from: nat)
      requires Follows(file) && initialized && from == Position()
      ensures Streamed(file, [], from)
    {
      NoNewline(file.content, from, readOffset);
    }

    lemma Settled(file: Snapshot, items: seq<ReadItem>, from: nat)
      requires Streamed(file, items, from) && Boundary(file.content, from)
      ensures HandsOver(library, options, file, items, from, pendingStart)
      ensures Records(file.content, 0, pendingStart) == Records(file.content, 0, from)
              + Records(file.content, from, pendingStart)
    {
      RecordsSettle(file.content, from, readOffset);
      BoundaryStart(file.content, from);
      RecordsResume(file.content, 0, from, pendingStart);
    }
  }

  lemma HandsOverMore(library: Library, options: Options, file: Snapshot, x: seq<ReadItem>, y: seq<ReadItem>, from: nat,
          middle: nat, last: nat)
    requires HandsOver(library, options, file, x, from, middle) && HandsOver(library, options, file, y, middle, last)
    requires StartOf(file.content, from, middle) == middle
    ensures HandsOver(library, options, file, x + y, from, last)
  {
    hide Describes, Records;
    RecordsResume(file.content, from, middle, last);
  }

  lemma BoundaryBetween(content: Text, from: nat, last: nat)
    requires from <= last <= |content| && Boundary(content, last)
    ensures StartOf(content, from, last) == last
  {
  }

  datatype Poll = Poll(maximumRecords: nat, views: Views)

  /** From poll to poll, the path keeps naming one file that only grows, and what is opened can be read through. */
  ghost predicate Grows(polls: seq<Poll>, file: Snapshot, least: nat)
    decreases |polls|
  {
    polls != [] ==>
      && AppendOnly(polls[0].views, file, least) && ReadsThrough(polls[0].views)
      && Grows(polls[1..], file, Seen(polls[0].views, least))
  }

  lemma AppendOnlyFrom(views: Views, file: Snapshot, least: nat, less: nat)
    requires AppendOnly(views, file, least) && less <= least
    ensures AppendOnly(views, file, less) && Seen(views, less) <= Seen(views, least)
  {
  }

  /**
   * Any sequence of polls, whatever their limits and however the file grows between and during them: together
   * they hand over exactly the records between where reading began and where it stands, each once and in order.
   */
  method PollRepeatedly(reader: Reader, polls: seq<Poll>, ghost file: Snapshot) returns (handed: seq<ReadItem>)
    requires reader.Valid() && reader.Follows(file) && Grows(polls, file, reader.Floor())
    modifies reader
    ensures reader.Valid() && reader.Follows(file)
    ensures old(reader.Position()) <= reader.Position() <= |file.content|
    ensures HandsOver(reader.library, reader.options, file, handed, old(reader.Position()), reader.Position())
  {
    hide HandsOver, AppendOnly, ReadsThrough, Records, StartOf, AnchorOf, Reader.Follows, Reader.Valid, Seen;
    ghost var from, least := reader.Position(), reader.Floor();
    handed := [];
    reader.NothingYet(file, from);
    assert polls[0..] == polls;
    for i := 0 to |polls|
      invariant reader.Valid() && reader.Follows(file) && reader.Floor() <= least
      invariant Grows(polls[i..], file, least)
      invariant from <= reader.Position() <= |file.content|
      invariant HandsOver(reader.library, reader.options, file, handed, from, reader.Position())
    {
      assert polls[i..][0] == polls[i] && polls[i..][1..] == polls[i + 1..];
      AppendOnlyFrom(polls[i].views, file, least, reader.Floor());
      StandsAtBoundary(reader, file);
      ghost var middle := reader.Position();
      var result, read := reader.Poll(polls[i].maximumRecords, polls[i].views, file);
      BoundaryBetween(file.content, from, middle);
      HandsOverMore(reader.library, reader.options, file, handed, read, from, middle, reader.Position());
      if result.Success? {
        handed := handed + result.value.items;
      } else {
        assert read == [] && handed + [] == handed;
      }
      least := Seen(polls[i].views, least);
    }
  }

  lemma StandsAtBoundary(reader: Reader, file: Snapshot)
    requires reader.Follows(file)
    ensures reader.Position() <= |file.content| && Boundary(file.content, reader.Position())
  {
  }

  lemma {:induction false} NoNewline(content: Text, from: nat, last: nat)
    requires from <= last <= |content| && NEWLINE !in content[from..last]
    ensures Records(content, from, last) == [] && StartOf(content, from, last) == from
    decreases last
  {
    if last != from {
      assert content[from..last] == content[from..last - 1] + [content[last - 1]];
      NoNewline(content, from, last - 1);
    }
  }

  function Last(anchor: Text): Text {
    anchor[|anchor| - Least(|anchor|, ANCHOR_SIZE)..]
  }

  lemma AnchorGrows(content: Text, offset: nat)
    requires offset < |content|
    ensures Last(AnchorOf(content, offset) + [content[offset]]) == AnchorOf(content, offset + 1)
  {
  }
}
