/** Rejected inputs, the documents made of them, and what the contract demands of such a document. */
module Rejections {
  import opened Exceptions
  import opened Octets
  import opened Json
  import opened Contract
  import opened Serialization
  import opened Utf8
  import Base64

  const CAPTURE_LIMIT := 65536

  datatype InputRejection = InputRejection(
    code: RejectionCode, message: Text, source: Span, adapterType: Text, contentType: Text,
    byteLength: nat, capture: Text, captureTruncated: bool, payloadSha256: Text)

  predicate IsLowerHex(value: Text, length: nat) {
    |value| == length && forall i | 0 <= i < |value| :: IsDigit(value[i]) || 0x61 <= value[i] <= 0x66
  }

  /** validate_rejected_payload accepts. */
  predicate ValidPayload(payload: RejectedPayload) {
    && payload.contentType != []
    && IsLowerHex(payload.sha256, 64)
    && payload.byteLength <= MAXIMUM_SAFE_INTEGER
    && Base64.DecodedSize(payload.capture).Some?
    && var captured := Base64.DecodedSize(payload.capture).value;
    && captured <= CAPTURE_LIMIT
    && (if payload.captureTruncated then payload.byteLength > CAPTURE_LIMIT && captured == CAPTURE_LIMIT
        else captured == payload.byteLength)
  }

  /** to_json_document accepts the rejected event before it is signed. */
  predicate ValidUnsigned(rejected: RejectedEvent) {
    && MatchesIdentifier(rejected.collectorId, true)
    && rejected.rejectedAt.Rfc3339?
    && rejected.source.source != [] && rejected.adapterType != [] && rejected.source.identity != []
    && rejected.source.start <= rejected.source.end <= MAXIMUM_SAFE_INTEGER
    && rejected.message != []
    && ValidPayload(rejected.payload)
    && MatchesIdentifier(rejected.integrity.keyId, false)
  }

  predicate ValidRejection(rejected: RejectedEvent) {
    && ValidUnsigned(rejected)
    && rejected.integrity.value.Some? && IsSignature(rejected.integrity.value.value)
  }

  /** serialize(rejected, true) succeeds: valid, and every text in it is UTF-8. */
  predicate SerializableRejection(rejected: RejectedEvent) {
    && ValidRejection(rejected)
    && IsUtf8(rejected.source.source) && IsUtf8(rejected.adapterType) && IsUtf8(rejected.source.identity)
    && IsUtf8(rejected.message) && IsUtf8(rejected.payload.contentType)
  }
}
