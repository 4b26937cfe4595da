/** What a file reader hands over: accepted records and rejected inputs. */
module RawEvents {
  import opened Octets
  import opened Foreign
  import opened Json
  import opened Contract
  import opened Rejections

  datatype RawEvent = RawEvent(
    source: Span, adapterType: Text, upstreamSenderId: Text, endpointId: Text, upstreamEventId: Text,
    eventTime: Text, receivedTime: Timestamp, contentType: Text, rawPayload: Text, decoded: Json)

  datatype ReadItem = RawItem(raw: RawEvent) | RejectedItem(rejection: InputRejection)

  function SpanOfItem(item: ReadItem): Span {
    if item.RawItem? then item.raw.source else item.rejection.source
  }

  /** The one part of an item that does not come from the file. */
  function ReceivedAt(item: ReadItem): Timestamp {
    if item.RawItem? then item.raw.receivedTime else Rfc3339([])
  }

  function Least(a: nat, b: nat): nat {
    if a < b then a else b
  }

  /** A rejection of a payload that is at hand: its first bytes, whether that is all of it, and its digest. */
  function RejectPayload(library: Library, code: RejectionCode, message: Text, source: Span, adapterType: Text,
                         contentType: Text, payload: Text, captureLimit: nat): InputRejection {
    InputRejection(code, message, source, adapterType, contentType, |payload|,
        payload[..Least(|payload|, captureLimit)],
                   |payload| > captureLimit, library.sha256Hex(payload))
  }

  datatype Field = Value(text: Text) | Fault(code: RejectionCode, message: Text)

  /** A member that must be a nonempty string, and how its absence is worded. */
  function StringField(members: seq<Member>, name: Text, absent: Text, wrongType: Text, empty: Text): Field {
    var found := Lookup(members, name);
    if found == [] then Fault(MissingRequiredField, absent + name)
    else if !found[0].Str? then Fault(InvalidFieldType, wrongType + name)
    else if found[0].text == [] then Fault(MissingRequiredField, empty + name)
    else Value(found[0].text)
  }
}
