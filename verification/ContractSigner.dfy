/** Signatures over canonical documents, under an uninterpreted HMAC. */
module ContractSigner {
  import opened Exceptions
  import opened Octets
  import opened Json
  import opened Contract
  import opened Foreign
  import opened Rejections
  import opened Serialization
  import opened CanonicalJson
  import opened Utf8
  import Base64
  import BatchAssembler

  function SigningDomain(): Text {
    Ascii("TRIVIKRAMA-COLLECTOR-CONTRACT-V1\n")
  }

  /** What is signed: the domain and the canonical text of the document without its signature. */
  function SigningInput(document: Json): Text {
    SigningDomain() + Canonical(document)
  }

  function CodeText(code: RejectionCode): Text {
    match code
    case InvalidJson => Ascii("invalid_json")
    case InvalidUtf8 => Ascii("invalid_utf8")
    case MissingRequiredField => Ascii("missing_required_field")
    case InvalidFieldType => Ascii("invalid_field_type")
    case InvalidTimestamp => Ascii("invalid_timestamp")
    case InvalidIpAddress => Ascii("invalid_ip_address")
    case UnsupportedEventType => Ascii("unsupported_event_type")
    case RecordTooLarge => Ascii("record_too_large")
    case MappingFailed => Ascii("mapping_failed")
    case OcsfValidationFailed => Ascii("ocsf_validation_failed")
  }

  function RejectedSourceJson(rejected: RejectedEvent): Json {
    Obj([Member(Ascii("adapter_type"), Str(rejected.adapterType)),
         Member(Ascii("file_identity"), Str(rejected.source.identity)),
         Member(Ascii("record_end_offset"), Int(rejected.source.end)),
         Member(Ascii("record_start_offset"), Int(rejected.source.start)),
         Member(Ascii("source_id"), Str(rejected.source.source))])
  }

  function RejectedPayloadJson(payload: RejectedPayload): Json {
    Obj([Member(Ascii("byte_length"), Int(payload.byteLength)),
         Member(Ascii("capture"), Str(payload.capture)),
         Member(Ascii("capture_encoding"), Str(Ascii("base64"))),
         Member(Ascii("capture_truncated"), Bool(payload.captureTruncated)),
         Member(Ascii("content_type"), Str(payload.contentType)),
         Member(Ascii("sha256"), Str(payload.sha256))])
  }

  function RejectionReasonJson(rejected: RejectedEvent): Json {
    Obj([Member(Ascii("code"), Str(CodeText(rejected.code))),
         Member(Ascii("message"), Str(rejected.message)),
         Member(Ascii("stage"), Str(Ascii("input_validation")))])
  }

  function RejectionJson(rejected: RejectedEvent, signed: bool): Json {
    Obj([Member(Ascii("collector_id"), Str(rejected.collectorId)),
         Member(Ascii("contract_version"), Str(Ascii("1.0.0"))),
         Member(Ascii("integrity"), IntegrityJson(rejected.integrity, signed)),
         Member(Ascii("message_type"), Str(Ascii("rejected_event"))),
         Member(Ascii("payload"), RejectedPayloadJson(rejected.payload)),
         Member(Ascii("rejected_at"), Str(rejected.rejectedAt.text)),
         Member(Ascii("rejection"), RejectionReasonJson(rejected)),
         Member(Ascii("rejection_id"), Str(UuidText(rejected.rejectionId))),
         Member(Ascii("source"), RejectedSourceJson(rejected))])
  }

  class Signer {
    const library: Library
    const keyId: Text
    const key: Text

    constructor (library: Library, keyId: Text, key: Text)
      ensures this.library == library && this.keyId == keyId && this.key == key
    {
      this.library, this.keyId, this.key := library, keyId, key;
    }

    /** The signature a document of this signer carries. */
    function SignatureOf(document: Json): Text {
      Base64.EncodeUrl(library.hmacSha256(key, SigningInput(document)))
    }

    /** signing_input and signature_for */
    method SignatureFor(document: Json) returns (signature: Result<Text>)
      ensures signature.Success? <==>
                Canonicalizable(document) && |library.hmacSha256(key, SigningInput(document))| == Base64.DIGEST_BYTES
      ensures signature.Success? ==> signature.value == SignatureOf(document) && IsSignature(signature.value)
      ensures signature.Failure? ==> signature.error == ContractError
    {
      hide Canonicalizable, Canonical, SigningDomain, Base64.EncodeUrl;
      var canonical :- Canonicalize(document);
      var digest := library.hmacSha256(key, SigningDomain() + canonical);
      if |digest| != Base64.DIGEST_BYTES {
        return Failure(ContractError);
      }
      var encoded := Base64.EncodeSignature(digest);
      SignatureShape(encoded);
      return Success(encoded);
    }

    function UnsignedBatch(batch: EventBatch): EventBatch {
      batch.(integrity := Integrity(keyId, None))
    }

    function UnsignedRejection(rejected: RejectedEvent): RejectedEvent {
      rejected.(integrity := Integrity(keyId, None))
    }

    /** to_json_document accepts the batch without a signature, and its document has a canonical form. */
    predicate BatchSignable(batch: EventBatch) {
      && EnvelopeFault(UnsignedBatch(batch), false).None? && FirstFault(batch.events).None?
      && Canonicalizable(BatchJson(UnsignedBatch(batch), false))
    }

    method SignBatch(batch: EventBatch) returns (result: Result<EventBatch>)
      ensures result.Success? ==>
                && BatchSignable(batch)
                && var signature := SignatureOf(BatchJson(UnsignedBatch(batch), false));
                   result.value == batch.(integrity := Integrity(keyId, Some(signature)))
      ensures result.Success? ==> IsSignature(result.value.integrity.value.value)
      ensures BatchSignable(batch) && Lawful(library) ==> result.Success?
    {
      hide Canonicalizable, Canonical, BatchJson, FirstFault, SigningInput, IsSignature, Base64.EncodeUrl;
      var candidate := UnsignedBatch(batch);
      if EnvelopeFault(candidate, false).Some? || FirstFault(candidate.events).Some? {
        return Failure(ContractError);
      }
      var signature :- SignatureFor(BatchJson(candidate, false));
      return Success(batch.(integrity := Integrity(keyId, Some(signature))));
    }

    method SignRejection(rejected: RejectedEvent) returns (result: Result<RejectedEvent>)
      ensures result.Success? ==>
                var signature := SignatureOf(RejectionJson(UnsignedRejection(rejected), false));
                result.value == rejected.(integrity := Integrity(keyId, Some(signature)))
      ensures result.Success? ==> IsSignature(result.value.integrity.value.value)
      ensures (&& Canonicalizable(RejectionJson(UnsignedRejection(rejected), false)) && Lawful(library)
               && ValidUnsigned(UnsignedRejection(rejected))) ==> result.Success?
      ensures result.Failure? ==> result.error == ContractError
    {
      hide Canonicalizable, Canonical, RejectionJson, ValidUnsigned, SigningInput, IsSignature, Base64.EncodeUrl;
      var candidate := UnsignedRejection(rejected);
      if !ValidUnsigned(candidate) {
        return Failure(ContractError);
      }
      var signature :- SignatureFor(RejectionJson(candidate, false));
      return Success(rejected.(integrity := Integrity(keyId, Some(signature))));
    }

    /** verify */
    method VerifyBatch(batch: EventBatch) returns (valid: bool)
      ensures valid ==> Verifies(batch)
      ensures Verifies(batch) && Lawful(library) && BatchSignable(batch) ==> valid
    {
      hide Canonicalizable, Canonical, BatchJson, FirstFault, SigningInput, IsSignature, Base64.EncodeUrl;
      if batch.integrity.keyId != keyId || batch.integrity.value.None? {
        return false;
      }
      if EnvelopeFault(UnsignedBatch(batch), false).Some? || FirstFault(batch.events).Some? {
        return false;
      }
      var expected := SignatureFor(BatchJson(UnsignedBatch(batch), false));
      return expected.Success? && expected.value == batch.integrity.value.value;
    }

    ghost predicate Verifies(batch: EventBatch) {
      && batch.integrity.keyId == keyId
      && batch.integrity.value == Some(SignatureOf(BatchJson(UnsignedBatch(batch), false)))
    }

    /** Signing does not change what is signed, so a signed batch verifies. */
    lemma SignedVerifies(batch: EventBatch)
      ensures Verifies(batch.(integrity := Integrity(keyId, Some(SignatureOf(BatchJson(UnsignedBatch(batch), false))))))
    {
      var signed := batch.(integrity := Integrity(keyId, Some(SignatureOf(BatchJson(UnsignedBatch(batch), false)))));
      assert UnsignedBatch(signed) == UnsignedBatch(batch);
    }

    /**
     * Two batches that verify with the same signature have the same signed document, up to member order,
     * unless the HMAC of two different inputs collides.
     */
    lemma SignatureCoversDocument(x: EventBatch, y: EventBatch)
      requires Lawful(library) && Verifies(x) && Verifies(y) && x.integrity == y.integrity
      requires Proper(BatchJson(UnsignedBatch(x), false)) && Proper(BatchJson(UnsignedBatch(y), false))
      ensures var a, b := BatchJson(UnsignedBatch(x), false), BatchJson(UnsignedBatch(y), false);
              && library.hmacSha256(key, SigningInput(a)) == library.hmacSha256(key, SigningInput(b))
              && (SigningInput(a) == SigningInput(b) <==> Same(a, b))
    {
      hide Proper, Canonical, BatchJson, SigningDomain, Base64.EncodeUrl;
      var a, b := BatchJson(UnsignedBatch(x), false), BatchJson(UnsignedBatch(y), false);
      Base64.SignatureInjective(library.hmacSha256(key, SigningInput(a)), library.hmacSha256(key, SigningInput(b)));
      CanonicalIdentifies(a, b);
      assert SigningInput(a)[|SigningDomain()|..] == Canonical(a)
             && SigningInput(b)[|SigningDomain()|..] == Canonical(b);
    }
  }

  lemma SignatureShape(encoded: Text)
    requires |encoded| == Base64.SIGNATURE_CHARACTERS && Base64.IsUrlText(encoded)
    ensures IsSignature(encoded)
  {
  }

  lemma SameButIntegrity(batch: EventBatch, unsigned: EventBatch)
    requires unsigned == batch.(integrity := Integrity(batch.integrity.keyId, None))
    ensures var before, after := BatchAssembler.BatchMembers(batch), BatchJson(unsigned, false).members;
            && |before| == 9 && |after| == 9 && after == before[6 := after[6]] && before[6].key == after[6].key
            && before[6].value == IntegrityJson(batch.integrity.(value := Some(BatchAssembler.Placeholder())), true)
            && after[6].value == IntegrityJson(unsigned.integrity, false)
  {
    hide EventsJson, UuidText, IntegrityJson, Ascii;
  }

  lemma IntegrityShrinks(integrity: Integrity)
    requires integrity.value.Some? && Canonicalizable(IntegrityJson(integrity, true))
    ensures Canonicalizable(IntegrityJson(integrity.(value := None), false))
  {
    hide Ascii, IsUtf8;
    var before, after := IntegrityJson(integrity, true).members,
        IntegrityJson(integrity.(value := None), false).members;
    assert after[0] == before[0] && after[1] == before[1] && |after| == 2;
  }

  /** A sealed batch can be signed. */
  lemma SealedIsSignable(signer: Signer, batch: EventBatch)
    requires BatchAssembler.SignedSize(batch).Encoded? && batch.integrity == Integrity(signer.keyId, None)
    ensures signer.BatchSignable(batch)
  {
    hide BatchJson, Canonicalizable, FirstFault, MatchesIdentifier, TreeOk, TextOk, Dump, IntegrityJson;
    var before := BatchAssembler.BatchMembers(batch);
    BatchAssembler.BatchObjects(batch);
    DumpableIsCanonicalizable(Obj(before), 0);
    SameButIntegrity(batch, signer.UnsignedBatch(batch));
    UnsignedObject(signer.UnsignedBatch(batch));
    MembersCanonicalizable(before, BatchJson(signer.UnsignedBatch(batch), false).members, batch.integrity);
  }

  lemma UnsignedObject(batch: EventBatch)
    ensures BatchJson(batch, false).Obj?
  {
    hide EventsJson, UuidText, IntegrityJson, Ascii;
  }

  lemma MembersCanonicalizable(before: seq<Member>, after: seq<Member>, integrity: Integrity)
    requires |before| == 9 && |after| == 9 && after == before[6 := after[6]] && before[6].key == after[6].key
    requires before[6].value == IntegrityJson(integrity.(value := Some(BatchAssembler.Placeholder())), true)
    requires after[6].value == IntegrityJson(integrity.(value := None), false)
    requires Canonicalizable(Obj(before))
    ensures Canonicalizable(Obj(after))
  {
    hide IsUtf8, IntegrityJson;
    assert Obj(before).members == before;
    assert forall i | 0 <= i < 9 :: IsUtf8(before[i].key) && Canonicalizable(before[i].value);
    IntegrityShrinks(integrity.(value := Some(BatchAssembler.Placeholder())));
    assert integrity.(value := Some(BatchAssembler.Placeholder())).(value := None) == integrity.(value := None);
    assert forall i | 0 <= i < 9 && i != 6 :: after[i] == before[i];
  }

  /** Validated text and safe numbers are what the canonical form needs. */
  lemma {:induction false} DumpableIsCanonicalizable(value: Json, depth: nat)
    requires TreeOk(value, depth) && TextOk(value)
    ensures Canonicalizable(value)
    decreases value
  {
    hide IsUtf8;
    match value {
      case Arr(items) =>
        forall i | 0 <= i < |items| ensures Canonicalizable(items[i]) {
          DumpableIsCanonicalizable(items[i], depth + 1);
        }
      case Obj(members) =>
        forall i | 0 <= i < |members| ensures Canonicalizable(members[i].value) {
          DumpableIsCanonicalizable(members[i].value, depth + 1);
        }
      case _ =>
    }
  }
}
