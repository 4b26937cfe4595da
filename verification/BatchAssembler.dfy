/** The batch under construction and its incremental byte accounting. */
module BatchAssembler {
  import opened Exceptions
  import opened Octets
  import opened Json
  import opened JsonSizes
  import opened Contract
  import opened Serialization
  import opened Utf8

  datatype AddResult = Accepted | FlushRequired | EventTooLarge | InvalidEvent

  /** Forty-three characters: the width of the signature that will be added. */
  function Placeholder(): Text {
    seq(SIGNATURE_LENGTH, _ => 0x41)
  }

  function WithPlaceholder(batch: EventBatch): EventBatch {
    batch.(integrity := batch.integrity.(value := Some(Placeholder())))
  }

  /** signed_size: the serialized size once a signature of fixed width is added, or what refuses it. */
  function SignedSize(batch: EventBatch): Encoding {
    Serialize(WithPlaceholder(batch), true)
  }

  function BatchMembers(batch: EventBatch): seq<Member> {
    BatchJson(WithPlaceholder(batch), true).members
  }

  /** The size of the text, before any limit is applied to it. */
  function TextSize(batch: EventBatch): nat {
    |Dump(BatchJson(WithPlaceholder(batch), true))|
  }

  /** An event whose document is contract-valid where a batch places it. */
  predicate EventOk(event: ContractEvent) {
    EventFault(event).None? && TreeOk(EventJson(event), 2) && TextOk(EventJson(event))
  }

  predicate EnvelopeOk(batch: EventBatch) {
    SignedSize(batch.(events := [])).Encoded?
  }

  // ---------------------------------------------------------------- sizes

  lemma CountAndEvents(batch: EventBatch, event: ContractEvent)
    ensures var before, after := BatchMembers(batch), BatchMembers(batch.(events := batch.events + [event]));
            && |before| == 9 && |after| == 9
            && before[4] == Member(Ascii("event_count"), Int(|batch.events|))
            && before[5] == Member(Ascii("events"), Arr(EventsJson(batch.events)))
            && after == before[4 := Member(Ascii("event_count"), Int(|batch.events| + 1))]
                              [5 := Member(Ascii("events"), Arr(EventsJson(batch.events) + [EventJson(event)]))]
  {
    hide EventJson, UuidText, IntegrityJson;
    assert EventsJson(batch.events + [event]) == EventsJson(batch.events) + [EventJson(event)];
  }

  lemma MemberSizes(key: Text, count: nat, items: seq<Json>)
    ensures |DumpMember(Member(key, Int(count)))| == |QuotedText(key)| + 1 + DigitCount(count)
    ensures |DumpMember(Member(key, Arr(items)))| == |QuotedText(key)| + 3 + |DumpItems(items)|
  {
    NatTextLength(count);
  }

  lemma TextSizeOfMembers(batch: EventBatch)
    ensures TextSize(batch) == 2 + |DumpMembers(BatchMembers(batch))|
  {
    hide EventsJson, UuidText, IntegrityJson, DumpMembers, Ascii;
    var document := BatchJson(WithPlaceholder(batch), true);
    assert Dump(document) == [OPEN_BRACE] + DumpMembers(document.members) + [CLOSE_BRACE];
  }

  /** Two changed members of an object. */
  lemma TwoChanges(members: seq<Member>, i: nat, x: Member, j: nat, y: Member)
    requires i < j < |members|
    ensures |DumpMembers(members[i := x][j := y])|
         == |DumpMembers(members)| + |DumpMember(x)| - |DumpMember(members[i])|
             + |DumpMember(y)| - |DumpMember(members[j])|
  {
    hide DumpMember, DumpMembers;
    DumpMembersUpdate(members, i, x);
    DumpMembersUpdate(members[i := x], j, y);
  }

  /** Appending an event costs its text, a comma unless it is the first, and the growth of the event count. */
  lemma TextSizeOfAppend(batch: EventBatch, event: ContractEvent)
    ensures TextSize(batch.(events := batch.events + [event]))
         == TextSize(batch) + |Dump(EventJson(event))| + (if batch.events == [] then 0 else 1)
            + DigitCount(|batch.events| + 1) - DigitCount(|batch.events|)
  {
    hide EventJson, EventsJson, BatchJson, BatchMembers, TextSize, Dump, DumpItems, DumpMember, DumpMembers, Ascii,
      DigitCount, QuotedText;
    var after := batch.(events := batch.events + [event]);
    var n, items := |batch.events|, EventsJson(batch.events);
    var count := Member(Ascii("event_count"), Int(n + 1));
    var events := Member(Ascii("events"), Arr(items + [EventJson(event)]));
    CountAndEvents(batch, event);
    TextSizeOfMembers(batch);
    TextSizeOfMembers(after);
    TwoChanges(BatchMembers(batch), 4, count, 5, events);
    MemberSizes(Ascii("event_count"), n, items);
    MemberSizes(Ascii("event_count"), n + 1, items);
    MemberSizes(Ascii("events"), n, items);
    MemberSizes(Ascii("events"), n, items + [EventJson(event)]);
    DumpItemsSnoc(items, EventJson(event));
    NoItems(batch);
  }

  lemma NoItems(batch: EventBatch)
    ensures EventsJson(batch.events) == [] <==> batch.events == []
  {
    hide EventJson;
    assert |EventsJson(batch.events)| == |batch.events|;
  }

  // ---------------------------------------------------------------- acceptance

  lemma EnvelopeMembers(batch: EventBatch)
    ensures var bare, full := BatchMembers(batch.(events := [])), BatchMembers(batch);
            && |bare| == 9 && |full| == 9
            && full == bare[4 := Member(Ascii("event_count"), Int(|batch.events|))]
                           [5 := Member(Ascii("events"), Arr(EventsJson(batch.events)))]
  {
    hide EventJson, UuidText, IntegrityJson;
  }

  lemma {:induction false} FaultFree(events: seq<ContractEvent>)
    ensures FirstFault(events).None? <==> forall e | e in events :: EventFault(e).None?
    decreases |events|
  {
    hide EventFault;
    if events != [] {
      FaultFree(events[1..]);
      assert events == [events[0]] + events[1..];
    }
  }

  lemma TreeOfMembers(bare: seq<Member>, full: seq<Member>, events: seq<ContractEvent>)
    requires |bare| == 9 && |events| <= MAXIMUM_EVENTS_PER_BATCH
    requires full == bare[4 := Member(Ascii("event_count"), Int(|events|))]
                         [5 := Member(Ascii("events"), Arr(EventsJson(events)))]
    requires TreeOk(Obj(bare), 0)
    ensures TreeOk(Obj(full), 0) <==> forall i | 0 <= i < |events| :: TreeOk(EventJson(events[i]), 2)
  {
    hide EventJson, Ascii;
    var list := Arr(EventsJson(events));
    assert full[5].value == list && full[4].value == Int(|events|);
    assert forall i | 0 <= i < 9 && i != 4 && i != 5 :: full[i] == bare[i];
    assert TreeOk(list, 1) <==> forall i | 0 <= i < |events| :: TreeOk(EventsJson(events)[i], 2);
    assert TreeOk(Obj(full), 0) <==> forall i | 0 <= i < 9 :: TreeOk(full[i].value, 1);
    assert forall i | 0 <= i < 9 :: TreeOk(bare[i].value, 1);
    assert (forall i | 0 <= i < 9 :: TreeOk(full[i].value, 1)) <==> TreeOk(full[5].value, 1) by {
      assert TreeOk(full[4].value, 1);
    }
    assert forall i | 0 <= i < |events| :: EventsJson(events)[i] == EventJson(events[i]);
  }

  lemma TextOfMembers(bare: seq<Member>, full: seq<Member>, events: seq<ContractEvent>)
    requires |bare| == 9 && bare[4].key == Ascii("event_count") && bare[5].key == Ascii("events")
    requires full == bare[4 := Member(Ascii("event_count"), Int(|events|))]
                         [5 := Member(Ascii("events"), Arr(EventsJson(events)))]
    requires TextOk(Obj(bare))
    ensures TextOk(Obj(full)) <==> forall i | 0 <= i < |events| :: TextOk(EventJson(events[i]))
  {
    hide EventJson, Ascii, IsUtf8;
    var list := Arr(EventsJson(events));
    assert full[5].value == list && full[4].value == Int(|events|);
    assert forall i | 0 <= i < 9 && i != 4 && i != 5 :: full[i] == bare[i];
    assert TextOk(list) <==> forall i | 0 <= i < |events| :: TextOk(EventsJson(events)[i]);
    assert forall i | 0 <= i < 9 :: IsUtf8(bare[i].key) && TextOk(bare[i].value);
    assert TextOk(Obj(full)) <==> forall i | 0 <= i < 9 :: IsUtf8(full[i].key) && TextOk(full[i].value);
    assert (forall i | 0 <= i < 9 :: IsUtf8(full[i].key) && TextOk(full[i].value)) <==> TextOk(full[5].value) by {
      assert TextOk(full[4].value) && IsUtf8(full[4].key) && IsUtf8(full[5].key);
    }
    assert forall i | 0 <= i < |events| :: EventsJson(events)[i] == EventJson(events[i]);
  }

  /** The envelope accepts exactly the contract-valid events that fit the 8 MiB limit. */
  lemma Acceptance(batch: EventBatch)
    requires EnvelopeOk(batch) && |batch.events| <= MAXIMUM_EVENTS_PER_BATCH
    ensures SignedSize(batch).Encoded? <==>
              (forall e | e in batch.events :: EventOk(e)) && TextSize(batch) <= MAXIMUM_BATCH_BYTES
    ensures SignedSize(batch).Encoded? ==> |SignedSize(batch).text| == TextSize(batch)
    ensures FirstFault(batch.events).Some? ==> SignedSize(batch) == Refused(FirstFault(batch.events).value)
    ensures FirstFault(batch.events).None? && SignedSize(batch).Refused? ==> SignedSize(batch).fault == OtherFault
  {
    hide EventJson, EventsJson, EventFault, BatchJson, IntegrityJson, FirstFault, TreeOk, TextOk, Dump;
    var bare, full := BatchMembers(batch.(events := [])), BatchMembers(batch);
    EnvelopeMembers(batch);
    BatchObjects(batch);
    FaultFree(batch.events);
    assert forall i | 0 <= i < |batch.events| :: batch.events[i] in batch.events;
    EnvelopeKeys(batch);
    TreeOfMembers(bare, full, batch.events);
    TextOfMembers(bare, full, batch.events);
  }

  lemma EnvelopeKeys(batch: EventBatch)
    ensures var bare := BatchMembers(batch.(events := []));
            |bare| == 9 && bare[4].key == Ascii("event_count") && bare[5].key == Ascii("events")
  {
    hide EventsJson, UuidText, IntegrityJson;
  }

  lemma BatchObjects(batch: EventBatch)
    ensures BatchJson(WithPlaceholder(batch), true) == Obj(BatchMembers(batch))
    ensures BatchJson(WithPlaceholder(batch.(events := [])), true) == Obj(BatchMembers(batch.(events := [])))
  {
    hide EventsJson, UuidText, IntegrityJson;
  }

  // ---------------------------------------------------------------- the signature

  function SignedWith(batch: EventBatch, signature: Text): EventBatch {
    batch.(integrity := batch.integrity.(value := Some(signature)))
  }

  lemma {:induction false} PlainText(s: Text)
    requires forall i | 0 <= i < |s| :: s[i] >= 0x20 && s[i] != QUOTE && s[i] != BACKSLASH
    ensures EscapeBytes(s) == s
    decreases |s|
  {
    if s != [] {
      PlainText(s[1..]);
    }
  }

  lemma PlainSignature(signature: Text)
    requires IsSignature(signature)
    ensures IsAscii(signature) && |QuotedText(signature)| == SIGNATURE_LENGTH + 2
  {
    PlainText(signature);
  }

  lemma PlaceholderIsSignature()
    ensures IsSignature(Placeholder())
  {
  }

  /** The integrity member is as long, and as valid, whatever the signature is. */
  lemma IntegrityMember(integrity: Integrity, x: Text, y: Text)
    requires IsSignature(x) && IsSignature(y)
    ensures var a := IntegrityJson(integrity.(value := Some(x)), true);
            var b := IntegrityJson(integrity.(value := Some(y)), true);
            && |Dump(a)| == |Dump(b)|
            && (TreeOk(a, 1) <==> TreeOk(b, 1)) && (TextOk(a) <==> TextOk(b))
  {
    hide Ascii, QuotedText, IsSignature, IsUtf8, EscapeBytes;
    PlainSignature(x);
    PlainSignature(y);
    AsciiIsUtf8(x);
    AsciiIsUtf8(y);
    var a := IntegrityJson(integrity.(value := Some(x)), true).members;
    var b := IntegrityJson(integrity.(value := Some(y)), true).members;
    assert a[2].key == b[2].key && a[2].value == Str(x) && b[2].value == Str(y);
    assert b == a[2 := b[2]];
    DumpMembersUpdate(a, 2, b[2]);
  }

  lemma SignatureChangesIntegrity(batch: EventBatch, signature: Text)
    ensures var before, after := BatchMembers(batch), BatchJson(SignedWith(batch, signature), true).members;
            && |before| == 9 && |after| == 9 && before[6].key == after[6].key
            && before[6].value == IntegrityJson(batch.integrity.(value := Some(Placeholder())), true)
            && after[6].value == IntegrityJson(batch.integrity.(value := Some(signature)), true)
            && after == before[6 := after[6]]
  {
    hide EventsJson, UuidText, IntegrityJson, Ascii;
  }

  lemma OneMemberChanges(before: seq<Member>, after: seq<Member>, k: nat)
    requires k < |before| && |after| == |before| && after == before[k := after[k]] && before[k].key == after[k].key
    requires |Dump(before[k].value)| == |Dump(after[k].value)|
    requires TreeOk(before[k].value, 1) <==> TreeOk(after[k].value, 1)
    requires TextOk(before[k].value) <==> TextOk(after[k].value)
    ensures |Dump(Obj(before))| == |Dump(Obj(after))|
    ensures TreeOk(Obj(before), 0) <==> TreeOk(Obj(after), 0)
    ensures TextOk(Obj(before)) <==> TextOk(Obj(after))
  {
    hide IsUtf8;
    DumpMembersUpdate(before, k, after[k]);
    assert forall i | 0 <= i < |before| && i != k :: before[i] == after[i];
  }

  /** What was measured with the placeholder is what is serialized once signed: never over the limit. */
  lemma AnySignatureFits(batch: EventBatch, signature: Text)
    requires IsSignature(signature) && SignedSize(batch).Encoded?
    ensures Serialize(SignedWith(batch, signature), true).Encoded?
    ensures |Serialize(SignedWith(batch, signature), true).text| == |SignedSize(batch).text|
  {
    hide EventsJson, UuidText, IntegrityJson, Ascii, Dump, TreeOk, TextOk, IsSignature, Placeholder, FirstFault,
      MatchesIdentifier;
    PlaceholderIsSignature();
    IntegrityMember(batch.integrity, Placeholder(), signature);
    SignatureChangesIntegrity(batch, signature);
    OneMemberChanges(BatchMembers(batch), BatchJson(SignedWith(batch, signature), true).members, 6);
  }

  // ---------------------------------------------------------------- the collector's own envelope

  const ENVELOPE_LIMIT := 9100

  lemma {:induction false} EscapesAreShort(s: Text)
    ensures |EscapeBytes(s)| <= 6 * |s|
    decreases |s|
  {
    if s != [] {
      EscapesAreShort(s[1..]);
    }
  }

  predicate Brief(member: Member) {
    |DumpMember(member)| <= 1000
  }

  lemma BriefText(key: Text, text: Text)
    requires |key| <= 20 && |text| <= 90
    ensures Brief(Member(key, Str(text)))
  {
    EscapesAreShort(key);
    EscapesAreShort(text);
  }

  lemma {:induction false} BriefMembers(members: seq<Member>)
    requires forall i | 0 <= i < |members| :: Brief(members[i])
    ensures |DumpMembers(members)| <= 1001 * |members|
    decreases |members|
  {
    hide DumpMember;
    if |members| > 1 {
      BriefMembers(members[1..]);
    }
  }

  lemma BriefIntegrity(keyId: Text)
    requires |keyId| <= 64
    ensures var integrity := IntegrityJson(Integrity(keyId, Some(Placeholder())), true);
            Brief(Member(Ascii("integrity"), integrity)) && TreeOk(integrity, 1)
    ensures IsAscii(keyId) ==> TextOk(IntegrityJson(Integrity(keyId, Some(Placeholder())), true))
  {
    hide Ascii, EscapeBytes, IsUtf8;
    EscapesAreShort(keyId);
    EscapesAreShort(Placeholder());
    EscapesAreShort(Ascii("integrity"));
    EscapesAreShort(Ascii("algorithm"));
    EscapesAreShort(Ascii("HMAC-SHA256"));
    EscapesAreShort(Ascii("key_id"));
    EscapesAreShort(Ascii("value"));
    AsciiIsUtf8(Placeholder());
    AsciiIsUtf8(Ascii("algorithm"));
    AsciiIsUtf8(Ascii("HMAC-SHA256"));
    AsciiIsUtf8(Ascii("key_id"));
    AsciiIsUtf8(Ascii("value"));
    var members := IntegrityJson(Integrity(keyId, Some(Placeholder())), true).members;
    assert members[1..] == [members[1], members[2]] && members[1..][1..] == [members[2]];
    assert |DumpMembers(members)| == |DumpMember(members[0])| + 1 + |DumpMembers(members[1..])|;
    assert |DumpMembers(members[1..])| == |DumpMember(members[1])| + 1 + |DumpMembers([members[2]])|;
    assert |DumpMember(members[0])| <= 125;
    assert |DumpMember(members[1])| <= 425;
    assert |DumpMember(members[2])| <= 293;
    assert |Dump(Obj(members))| == 2 + |DumpMembers(members)|;
    if IsAscii(keyId) {
      AsciiIsUtf8(keyId);
    }
  }

  predicate PlainMember(member: Member) {
    Brief(member) && TreeOk(member.value, 1) && IsUtf8(member.key) && TextOk(member.value)
  }

  lemma PlainString(key: Text, text: Text)
    requires |key| <= 20 && |text| <= 90 && IsAscii(key) && IsAscii(text)
    ensures PlainMember(Member(key, Str(text)))
  {
    hide Brief;
    BriefText(key, text);
    AsciiIsUtf8(key);
    AsciiIsUtf8(text);
  }

  lemma PlainCounts()
    ensures PlainMember(Member(Ascii("event_count"), Int(0))) && PlainMember(Member(Ascii("events"), Arr([])))
  {
    hide Ascii, EscapeBytes, IsUtf8;
    EscapesAreShort(Ascii("event_count"));
    EscapesAreShort(Ascii("events"));
    assert |Dump(Int(0))| == 1 && |Dump(Arr([]))| == 2;
    AsciiIsUtf8(Ascii("event_count"));
    AsciiIsUtf8(Ascii("events"));
  }

  lemma UuidIsAscii(id: Id)
    ensures IsAscii(UuidText(id))
  {
    forall i | 0 <= i < 36 ensures UuidText(id)[i] < 128 {
      assert 0 <= id / Sixteen(i) % 4 < 4 && 0 <= id / Sixteen(i) % 16 < 16;
    }
  }

  lemma IdentifierIsAscii(value: Text, lowercaseOnly: bool)
    requires MatchesIdentifier(value, lowercaseOnly)
    ensures IsAscii(value) && |value| <= 64
  {
  }

  lemma PlainEnvelope(batch: EventBatch)
    requires MatchesIdentifier(batch.collectorId, true) && MatchesIdentifier(batch.integrity.keyId, false)
    requires |batch.createdAt.text| == 24 && IsAscii(batch.createdAt.text) && batch.events == []
    ensures forall i | 0 <= i < |BatchMembers(batch)| :: PlainMember(BatchMembers(batch)[i])
    ensures |BatchMembers(batch)| == 9
  {
    hide Ascii, UuidText, MatchesIdentifier, PlainMember, IntegrityJson;
    IdentifierIsAscii(batch.collectorId, true);
    IdentifierIsAscii(batch.integrity.keyId, false);
    UuidIsAscii(batch.batchId);
    PlainString(Ascii("batch_id"), UuidText(batch.batchId));
    PlainString(Ascii("collector_id"), batch.collectorId);
    PlainString(Ascii("contract_version"), Ascii("1.0.0"));
    PlainString(Ascii("created_at"), batch.createdAt.text);
    PlainString(Ascii("message_type"), Ascii("event_batch"));
    PlainString(Ascii("ocsf_schema_version"), Ascii("1.1.0"));
    PlainCounts();
    PlainIntegrity(batch.integrity.keyId);
    assert EventsJson([]) == [];
  }

  lemma PlainIntegrity(keyId: Text)
    requires |keyId| <= 64 && IsAscii(keyId)
    ensures PlainMember(Member(Ascii("integrity"), IntegrityJson(Integrity(keyId, Some(Placeholder())), true)))
  {
    hide Ascii, IntegrityJson, Brief, TreeOk, TextOk;
    BriefIntegrity(keyId);
    AsciiIsUtf8(Ascii("integrity"));
  }

  /** A valid collector and key make a valid envelope, and a small one. */
  lemma EnvelopeIsSmall(batch: EventBatch)
    requires MatchesIdentifier(batch.collectorId, true) && MatchesIdentifier(batch.integrity.keyId, false)
    requires batch.createdAt.Rfc3339? && |batch.createdAt.text| == 24 && IsAscii(batch.createdAt.text)
    ensures EnvelopeOk(batch) && TextSize(batch.(events := [])) <= ENVELOPE_LIMIT
  {
    hide BatchMembers, BatchJson, DumpMembers, MatchesIdentifier, IsUtf8, Placeholder;
    var bare := batch.(events := []);
    PlaceholderIsSignature();
    PlainEnvelope(bare);
    BriefMembers(BatchMembers(bare));
    TextSizeOfMembers(bare);
    BatchObjects(bare);
    assert bare.(events := []) == bare;
  }

  /** Any of the collector's batches could hold the event alone. */
  ghost predicate Representable(event: ContractEvent, maximumBytes: nat) {
    EventOk(event) && |Dump(EventJson(event))| + ENVELOPE_LIMIT <= maximumBytes
  }

  /** A batch with this envelope could hold the event alone. */
  ghost predicate FitsAlone(batch: EventBatch, event: ContractEvent, maximumBytes: nat) {
    EventOk(event) && TextSize(batch.(events := [event])) <= maximumBytes
  }

  lemma OneEvent(batch: EventBatch, event: ContractEvent)
    requires EnvelopeOk(batch)
    ensures var one := batch.(events := [event]);
            && (SignedSize(one).Encoded? <==> EventOk(event) && TextSize(one) <= MAXIMUM_BATCH_BYTES)
            && (SignedSize(one).Encoded? ==> |SignedSize(one).text| == TextSize(one))
            && (SignedSize(one).Refused? ==>
                  SignedSize(one).fault == if EventFault(event).Some? then EventFault(event).value else OtherFault)
            && TextSize(one) == TextSize(batch.(events := [])) + |Dump(EventJson(event))|
    ensures |SignedSize(batch.(events := [])).text| == TextSize(batch.(events := []))
  {
    hide EventJson, EventsJson, EventFault, BatchJson, IntegrityJson, TreeOk, TextOk, Dump, TextSize, EventOk,
      Serialize;
    var one, bare := batch.(events := [event]), batch.(events := []);
    assert one.(events := []) == bare && bare.(events := []) == bare;
    Acceptance(one);
    Acceptance(bare);
    FaultFree([event]);
    assert bare.events + [event] == [event];
    TextSizeOfAppend(bare, event);
    assert [event][0] == event;
    assert FirstFault([event]) == EventFault(event) || EventFault(event).None?;
  }

  class Assembler {
    const maximumEvents: nat
    const maximumBytes: nat
    const maximumDwell: nat
    var batch: Option<EventBatch>
    var startedAt: int
    var emptyBytes: nat
    var encodedBytes: nat

    ghost predicate Valid()
      reads this
    {
      && 1 <= maximumEvents <= MAXIMUM_EVENTS_PER_BATCH
      && 1 <= maximumBytes <= MAXIMUM_BATCH_BYTES
      && (batch.Some? ==>
            && EnvelopeOk(batch.value)
            && |batch.value.events| <= maximumEvents
            && (forall e | e in batch.value.events :: EventOk(e))
            && emptyBytes == TextSize(batch.value.(events := []))
            && encodedBytes == TextSize(batch.value)
            && emptyBytes <= encodedBytes <= maximumBytes)
    }

    function Events(): seq<ContractEvent>
      reads this
    {
      if batch.Some? then batch.value.events else []
    }

    constructor (maximumEvents: nat, maximumBytes: nat, maximumDwell: nat)
      requires 1 <= maximumEvents <= MAXIMUM_EVENTS_PER_BATCH
      requires 1 <= maximumBytes <= MAXIMUM_BATCH_BYTES
      requires 1 <= maximumDwell <= 5
      ensures Valid() && batch == None
      ensures this.maximumEvents == maximumEvents && this.maximumBytes == maximumBytes
              && this.maximumDwell == maximumDwell
    {
      this.maximumEvents, this.maximumBytes, this.maximumDwell := maximumEvents, maximumBytes, maximumDwell;
      batch, startedAt, emptyBytes, encodedBytes := None, 0, 0, 0;
    }

    method Begin(batchId: Id, collectorId: Text, createdAt: Timestamp, keyId: Text, now: int) returns (outcome: Outcome)
      requires Valid()
      modifies this
      ensures Valid()
      ensures outcome.Fail? ==> batch == old(batch)
      ensures outcome.Pass? ==>
                && old(batch).None? && startedAt == now
                && batch == Some(EventBatch(batchId, collectorId, createdAt, [], Integrity(keyId, None)))
      ensures old(batch).None? && outcome.Fail? ==>
                var bare := EventBatch(batchId, collectorId, createdAt, [], Integrity(keyId, None));
                !EnvelopeOk(bare) || TextSize(bare) > maximumBytes
    {
      hide TextSize, Serialize;
      if batch.Some? {
        return Fail(AssemblerError);
      }
      var bare := EventBatch(batchId, collectorId, createdAt, [], Integrity(keyId, None));
      assert bare.(events := []) == bare;
      match SignedSize(bare) {
        case Refused(_) => return Fail(ContractError);
        case Encoded(text) =>
          Acceptance(bare);
          if |text| > maximumBytes {
            return Fail(AssemblerError);
          }
          emptyBytes := |text|;
          encodedBytes := |text|;
          startedAt := now;
          batch := Some(bare);
          return Pass;
      }
    }

    /** try_add: exactly which events are accepted, which must wait for a flush, and which no batch can hold. */
    method TryAdd(event: ContractEvent) returns (result: Result<AddResult>)
      requires Valid()
      modifies this`batch, this`encodedBytes
      ensures Valid()
      ensures result.Success? <==> old(batch).Some?
      ensures result.Failure? ==> batch == None
      ensures result.Success? ==>
                var before := old(batch).value;
                var after := before.(events := before.events + [event]);
                var roomy := |before.events| < maximumEvents && TextSize(after) <= maximumBytes;
                && (result.value.Accepted? <==> FitsAlone(before, event, maximumBytes) && roomy)
                && (result.value.FlushRequired? <==> FitsAlone(before, event, maximumBytes) && !roomy)
                && (result.value.EventTooLarge? <==>
                      || EventFault(event) == Some(RecordTooLargeFault)
                      || (EventOk(event) && maximumBytes < TextSize(before.(events := [event])) <= MAXIMUM_BATCH_BYTES))
                && batch == Some(if result.value.Accepted? then after else before)
      ensures result.Success? && result.value.FlushRequired? ==> Events() != []
    {
      hide TextSize, Serialize, EventFault, EventOk, Dump, EventJson, DigitCount;
      if batch.None? {
        return Failure(AssemblerError);
      }
      var current := batch.value;
      OneEvent(current, event);
      OkIsFaultFree(event);
      var contribution: nat;
      match SignedSize(current.(events := [event])) {
        case Refused(fault) =>
          return Success(if fault.RecordTooLargeFault? then EventTooLarge else InvalidEvent);
        case Encoded(text) =>
          if |text| < emptyBytes {
            return Failure(AssemblerError);
          }
          contribution := |text| - emptyBytes;
      }
      if contribution > maximumBytes - emptyBytes {
        return Success(EventTooLarge);
      }
      var count := |current.events|;
      TextSizeOfAppend(current, event);
      SmallCounts();
      if current.events == [] {
        assert current.(events := []) == current;
      }
      if count >= maximumEvents {
        return Success(FlushRequired);
      }
      DigitCountGrows(count);
      var next := DecimalDigitCount(count + 1);
      var here := DecimalDigitCount(count);
      var framing := (if count == 0 then 0 else 1) + (next - here);
      if framing > maximumBytes - encodedBytes || contribution > maximumBytes - encodedBytes - framing {
        return Success(FlushRequired);
      }
      batch := Some(current.(events := current.events + [event]));
      encodedBytes := encodedBytes + contribution + framing;
      assert batch.value.(events := []) == current.(events := []);
      return Success(Accepted);
    }

    predicate Full()
      reads this
    {
      batch.Some? && |batch.value.events| >= maximumEvents
    }

    predicate Empty()
      reads this
    {
      batch.None? || batch.value.events == []
    }

    predicate ShouldFlush(now: int)
      reads this
    {
      batch.Some? && batch.value.events != [] && now - startedAt >= maximumDwell
    }

    /** seal: the accounting error is unreachable, and what is sealed serializes within the limit once signed. */
    method Seal() returns (result: Result<EventBatch>)
      requires Valid()
      modifies this`batch, this`emptyBytes, this`encodedBytes
      ensures Valid()
      ensures result.Success? <==> !old(Empty())
      ensures result.Failure? ==> batch == old(batch)
      ensures result.Success? ==>
                && result.value == old(batch).value && batch == None
                && SignedSize(result.value).Encoded?
                && |SignedSize(result.value).text| == old(encodedBytes) <= maximumBytes
    {
      hide TextSize, Serialize, EventOk;
      if Empty() {
        return Failure(AssemblerError);
      }
      Acceptance(batch.value);
      match SignedSize(batch.value) {
        case Refused(_) => return Failure(ContractError);
        case Encoded(text) =>
          if |text| != encodedBytes || |text| > maximumBytes {
            return Failure(AssemblerError);
          }
      }
      result := Success(batch.value);
      batch := None;
      emptyBytes, encodedBytes := 0, 0;
    }

    method DiscardEmpty() returns (outcome: Outcome)
      requires Valid()
      modifies this`batch, this`emptyBytes, this`encodedBytes
      ensures Valid()
      ensures outcome.Pass? <==> old(batch).Some? && old(batch).value.events == []
      ensures batch == if outcome.Pass? then None else old(batch)
    {
      if batch.None? || batch.value.events != [] {
        return Fail(AssemblerError);
      }
      batch := None;
      emptyBytes, encodedBytes := 0, 0;
      return Pass;
    }
  }

  lemma SmallCounts()
    ensures DigitCount(0) == 1 && DigitCount(1) == 1
  {
  }

  lemma OkIsFaultFree(event: ContractEvent)
    ensures EventOk(event) ==> EventFault(event).None?
  {
    hide EventFault, TreeOk, TextOk, EventJson;
  }
}
