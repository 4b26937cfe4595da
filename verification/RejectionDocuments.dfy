/** The signed document of a rejected input, and why every rejection of the pipeline has a valid one. */
module RejectionDocuments {
  import opened Exceptions
  import opened Octets
  import opened Foreign
  import opened Json
  import opened Contract
  import opened RawEvents
  import opened Rejections
  import opened Serialization
  import opened CanonicalJson
  import opened ContractSigner
  import opened Utf8
  import Base64
  import BaselineMapper
  import BatchAssembler
  import FileReader
  import Lines

  /** The position of a record as documents carry it. */
  predicate Named(source: Span) {
    && source.source != [] && IsUtf8(source.source)
    && source.identity != [] && IsUtf8(source.identity)
    && source.start <= source.end <= MAXIMUM_SAFE_INTEGER
  }

  /** The capture is the payload, or the first 64 KiB of a longer one. */
  predicate WellCaptured(rejection: InputRejection) {
    && IsLowerHex(rejection.payloadSha256, 64)
    && rejection.byteLength <= MAXIMUM_SAFE_INTEGER
    && |rejection.capture| == Least(rejection.byteLength, CAPTURE_LIMIT)
    && rejection.captureTruncated == (rejection.byteLength > CAPTURE_LIMIT)
  }

  predicate Publishable(rejection: InputRejection) {
    && Named(rejection.source) && WellCaptured(rejection)
    && BaselineMapper.Worded(rejection.message)
    && BaselineMapper.Worded(rejection.adapterType) && BaselineMapper.Worded(rejection.contentType)
  }

  /** What publish_rejection fills in before it signs. */
  function DocumentOf(id: Id, collectorId: Text, at: Timestamp, rejection: InputRejection,
          sha256: Text): RejectedEvent {
    RejectedEvent(id, collectorId, at, rejection.source, rejection.adapterType, rejection.code, rejection.message,
                  RejectedPayload(rejection.contentType, rejection.byteLength, sha256,
                                  Base64.EncodePadded(rejection.capture), rejection.captureTruncated),
                  Integrity([], None))
  }

  /** Enough of the collector's identity for its documents to be valid. */
  predicate Credentials(collectorId: Text, keyId: Text) {
    MatchesIdentifier(collectorId, true) && MatchesIdentifier(keyId, false)
  }

  lemma ValidPayloadOf(rejection: InputRejection)
    requires Publishable(rejection)
    ensures ValidPayload(RejectedPayload(rejection.contentType, rejection.byteLength, rejection.payloadSha256,
                                         Base64.EncodePadded(rejection.capture), rejection.captureTruncated))
  {
    hide Base64.DecodedSize, Base64.EncodePadded, IsLowerHex;
    Base64.DecodedSizeOfEncoded(rejection.capture);
  }

  /** Whatever is publishable is accepted before signing and after it. */
  lemma PublishableIsValid(id: Id, collectorId: Text, at: Timestamp, rejection: InputRejection, integrity: Integrity)
    requires Publishable(rejection) && Credentials(collectorId, integrity.keyId) && at.Rfc3339?
    ensures var document := DocumentOf(id, collectorId, at, rejection, rejection.payloadSha256)
                            .(integrity := integrity);
            && ValidUnsigned(document)
            && (integrity.value.Some? && IsSignature(integrity.value.value) ==> SerializableRejection(document))
  {
    hide ValidPayload, IsUtf8, MatchesIdentifier, IsSignature, Base64.EncodePadded;
    ValidPayloadOf(rejection);
    AsciiIsUtf8(rejection.message);
    AsciiIsUtf8(rejection.adapterType);
    AsciiIsUtf8(rejection.contentType);
  }

  lemma HexIsAscii(value: Text, length: nat)
    requires IsLowerHex(value, length)
    ensures IsAscii(value)
  {
  }

  lemma PaddedIsAscii(bytes: Text)
    ensures IsAscii(Base64.EncodePadded(bytes))
  {
    var sextets := Base64.Split(bytes);
    Base64.CharactersAreBase64(sextets);
    assert forall i | 0 <= i < |sextets| :: Base64.IsBase64Character(Base64.Characters(sextets, false)[i]);
  }

  lemma CodeIsAscii(code: RejectionCode)
    ensures IsAscii(CodeText(code))
  {
    hide Ascii;
  }

  lemma PartsAreCanonicalizable(rejected: RejectedEvent)
    requires Named(rejected.source) && IsUtf8(rejected.adapterType) && IsUtf8(rejected.message)
    requires IsUtf8(rejected.payload.contentType) && IsUtf8(rejected.payload.sha256) && IsUtf8(rejected.payload.capture)
    requires rejected.payload.byteLength <= MAXIMUM_SAFE_INTEGER && IsUtf8(rejected.integrity.keyId)
    ensures Canonicalizable(RejectedSourceJson(rejected)) && Canonicalizable(RejectedPayloadJson(rejected.payload))
    ensures Canonicalizable(RejectionReasonJson(rejected)) && Canonicalizable(IntegrityJson(rejected.integrity, false))
  {
    hide Ascii, IsUtf8, CodeText;
    AllLiterals();
    CodeIsAscii(rejected.code);
    AsciiIsUtf8(CodeText(rejected.code));
  }

  /** Every literal is UTF-8. */
  lemma AllLiterals()
    ensures forall s :: IsUtf8(Ascii(s))
  {
    hide Ascii, IsUtf8;
    forall s ensures IsUtf8(Ascii(s)) {
      AsciiIsUtf8(Ascii(s));
    }
  }

  lemma WholeIsCanonicalizable(rejected: RejectedEvent)
    requires IsUtf8(rejected.collectorId) && IsUtf8(rejected.rejectedAt.text) && IsUtf8(UuidText(rejected.rejectionId))
    requires Canonicalizable(RejectedSourceJson(rejected)) && Canonicalizable(RejectedPayloadJson(rejected.payload))
    requires Canonicalizable(RejectionReasonJson(rejected)) && Canonicalizable(IntegrityJson(rejected.integrity, false))
    ensures Canonicalizable(RejectionJson(rejected, false))
  {
    hide Ascii, IsUtf8, UuidText, RejectedSourceJson, RejectedPayloadJson, RejectionReasonJson, IntegrityJson;
    AllLiterals();
  }

  /** A publishable rejection can be signed. */
  lemma PublishableIsCanonicalizable(id: Id, collectorId: Text, at: Timestamp, rejection: InputRejection, keyId: Text)
    requires Publishable(rejection) && Credentials(collectorId, keyId) && IsAscii(at.text)
    ensures var document := DocumentOf(id, collectorId, at, rejection, rejection.payloadSha256)
                            .(integrity := Integrity(keyId, None));
            Canonicalizable(RejectionJson(document, false))
  {
    hide IsUtf8, MatchesIdentifier, IsLowerHex, IsAscii, UuidText, Base64.EncodePadded, Canonicalizable, RejectionJson;
    var document := DocumentOf(id, collectorId, at, rejection,
        rejection.payloadSha256).(integrity := Integrity(keyId, None));
    BatchAssembler.IdentifierIsAscii(collectorId, true);
    AsciiIsUtf8(collectorId);
    BatchAssembler.IdentifierIsAscii(keyId, false);
    AsciiIsUtf8(keyId);
    AsciiIsUtf8(at.text);
    HexIsAscii(rejection.payloadSha256, 64);
    AsciiIsUtf8(rejection.payloadSha256);
    BatchAssembler.UuidIsAscii(id);
    AsciiIsUtf8(UuidText(id));
    PaddedIsAscii(rejection.capture);
    AsciiIsUtf8(Base64.EncodePadded(rejection.capture));
    AsciiIsUtf8(rejection.message);
    AsciiIsUtf8(rejection.adapterType);
    AsciiIsUtf8(rejection.contentType);
    PartsAreCanonicalizable(document);
    WholeIsCanonicalizable(document);
  }

  // ---------------------------------------------------------------- the three places that reject

  lemma PayloadRejectionIsPublishable(library: Library, code: RejectionCode, message: Text, source: Span,
          adapterType: Text, contentType: Text, payload: Text)
    requires Lawful(library) && Named(source) && |payload| <= MAXIMUM_SAFE_INTEGER
    requires BaselineMapper.Worded(message) && BaselineMapper.Worded(adapterType) && BaselineMapper.Worded(contentType)
    ensures Publishable(RejectPayload(library, code, message, source, adapterType, contentType, payload, CAPTURE_LIMIT))
  {
    hide IsUtf8, IsLowerHex;
  }

  lemma FieldIsWorded(members: seq<Member>, field: Text)
    requires IsAscii(field)
    ensures FileReader.RequiredField(members, field).Fault? ==>
              BaselineMapper.Worded(FileReader.RequiredField(members, field).message)
  {
    hide FileReader.AbsentText, FileReader.WrongTypeText, FileReader.EmptyText;
  }

  lemma EnvelopeIsWorded(document: Json)
    requires document.Obj?
    ensures var verdict := FileReader.EnvelopeVerdict(document);
            verdict.Rejected? ==> BaselineMapper.Worded(verdict.message)
  {
    hide FileReader.RequiredField, BaselineMapper.Worded, FileReader.EventIdText, FileReader.EndpointIdText,
      FileReader.EventTypeText, FileReader.TimestampText;
    FieldIsWorded(document.members, FileReader.EventIdText());
    FieldIsWorded(document.members, FileReader.EndpointIdText());
    FieldIsWorded(document.members, FileReader.EventTypeText());
    FieldIsWorded(document.members, FileReader.TimestampText());
  }

  lemma VerdictIsWorded(library: Library, options: FileReader.Options, text: Text)
    requires Lawful(library)
    ensures var verdict := FileReader.VerdictOf(library, options, text);
            verdict.Rejected? ==> BaselineMapper.Worded(verdict.message)
  {
    hide IsUtf8, FileReader.EnvelopeVerdict, FileReader.TooLongText, FileReader.NotUtf8Text, FileReader.NotJsonText,
      FileReader.NotObjectText;
    var parsed := library.parseStrict(text);
    if parsed.Document? && parsed.value.Obj? {
      EnvelopeIsWorded(parsed.value);
    }
  }

  /** The reader's rejections: an over-long record, bad UTF-8, bad JSON, a missing field. */
  lemma ReaderRejectionIsPublishable(library: Library, options: FileReader.Options, identity: Text, item: ReadItem,
          line: Lines.Line)
    requires Lawful(library) && options.maximumCaptureBytes == CAPTURE_LIMIT
    requires FileReader.Describes(library, options, identity, item, line) && item.RejectedItem?
    requires Named(Span(options.sourceId, identity, line.start, line.end)) && |line.text| <= MAXIMUM_SAFE_INTEGER
    ensures Publishable(item.rejection)
  {
    hide IsUtf8, FileReader.VerdictOf;
    VerdictIsWorded(library, options, line.text);
    var verdict := FileReader.VerdictOf(library, options, line.text);
    PayloadRejectionIsPublishable(library, verdict.code, verdict.message,
        Span(options.sourceId, identity, line.start, line.end),
                                  FileReader.FileDropText(), FileReader.JsonTypeText(), line.text);
  }

  /** The mapper's rejections. */
  lemma MapperRejectionIsPublishable(library: Library, raw: RawEvent, code: RejectionCode, message: Text)
    requires Lawful(library) && Named(raw.source) && |raw.rawPayload| <= MAXIMUM_SAFE_INTEGER
    requires BaselineMapper.Worded(message) && BaselineMapper.Worded(raw.adapterType)
             && BaselineMapper.Worded(raw.contentType)
    ensures Publishable(BaselineMapper.Reject(library, raw, code, message))
  {
    hide IsUtf8;
    PayloadRejectionIsPublishable(library, code, message, raw.source, raw.adapterType, raw.contentType, raw.rawPayload);
  }

  /** reject_event: an event that the queue or every batch refuses. */
  function RejectEvent(library: Library, event: ContractEvent, code: RejectionCode, message: Text): InputRejection {
    RejectPayload(library, code, message, SpanOf(event), event.source.adapterType, event.contentType, event.rawPayload,
        CAPTURE_LIMIT)
  }
}
