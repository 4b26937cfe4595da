/** The bounded FIFO queue with its global and per-source accounting. */
module BoundedEventQueue {
  import opened Exceptions
  import opened Octets
  import opened Json
  import opened Contract
  import opened Serialization

  const MAXIMUM_U64 := 0xFFFF_FFFF_FFFF_FFFF

  datatype Admission =
    | Admitted
    | EventLimitReached
    | ByteLimitReached
    | SourceEventLimitReached
    | SourceByteLimitReached
    | EventTooLarge

  datatype Entry = Entry(event: ContractEvent, sourceId: SourceId, bytes: nat)

  datatype Usage = Usage(events: nat, bytes: nat)

  function SumOf(sizes: seq<nat>): nat {
    if sizes == [] then 0 else sizes[0] + SumOf(sizes[1..])
  }

  function AccountedTexts(event: ContractEvent): seq<Text> {
    [Dump(event.ocsf), event.eventId, event.source.sourceId, event.source.adapterType, event.source.upstreamSenderId,
     event.source.originalEndpointId, event.source.upstreamEventId, event.eventTime.text,
     event.receivedTime.text, event.contentType, event.rawPayload, Dump(PositionJson(event.source.position))]
  }

  function Lengths(texts: seq<Text>): seq<nat> {
    seq(|texts|, i requires 0 <= i < |texts| => |texts[i]|)
  }

  /** Every counted byte of an event. */
  function EventBytes(event: ContractEvent): nat {
    SumOf(Lengths(AccountedTexts(event)))
  }

  /** accounted_bytes: throws exactly when the sum does not fit 64 bits. */
  method AccountedBytes(event: ContractEvent) returns (result: Result<nat>)
    ensures result.Success? <==> EventBytes(event) <= MAXIMUM_U64
    ensures result.Success? ==> result.value == EventBytes(event)
  {
    hide Dump, PositionJson;
    var texts := AccountedTexts(event);
    var total := 0;
    assert Lengths(texts)[0..] == Lengths(texts);
    for i := 0 to |texts|
      invariant total <= MAXIMUM_U64
      invariant total + SumOf(Lengths(texts)[i..]) == EventBytes(event)
    {
      assert Lengths(texts)[i..][0] == |texts[i]| && Lengths(texts)[i..][1..] == Lengths(texts)[i + 1..];
      if |texts[i]| > MAXIMUM_U64 - total {
        return Failure(AccountingError);
      }
      total := total + |texts[i]|;
    }
    return Success(total);
  }

  // ---------------------------------------------------------------- the recomputed totals

  function BytesOf(entries: seq<Entry>): nat {
    if entries == [] then 0 else entries[0].bytes + BytesOf(entries[1..])
  }

  function From(entries: seq<Entry>, source: SourceId): seq<Entry> {
    if entries == [] then []
    else if entries[0].sourceId == source then [entries[0]] + From(entries[1..], source)
    else From(entries[1..], source)
  }

  lemma {:induction false} BytesOfSnoc(entries: seq<Entry>, entry: Entry)
    ensures BytesOf(entries + [entry]) == BytesOf(entries) + entry.bytes
    decreases |entries|
  {
    if entries == [] {
      assert entries + [entry] == [entry];
    } else {
      BytesOfSnoc(entries[1..], entry);
      assert (entries + [entry])[1..] == entries[1..] + [entry];
    }
  }

  lemma {:induction false} FromSnoc(entries: seq<Entry>, entry: Entry, source: SourceId)
    ensures From(entries + [entry], source) == From(entries, source)
            + (if entry.sourceId == source then [entry] else [])
    decreases |entries|
  {
    if entries == [] {
      assert entries + [entry] == [entry];
    } else {
      FromSnoc(entries[1..], entry, source);
      assert (entries + [entry])[1..] == entries[1..] + [entry];
    }
  }

  /** A source has a usage entry exactly when it has queued events, and it is their recomputed total. */
  ghost predicate UsageIs(usage: map<SourceId, Usage>, entries: seq<Entry>) {
    && (forall s: SourceId :: s in usage <==> From(entries, s) != [])
    && (forall s | s in usage :: usage[s] == Usage(|From(entries, s)|, BytesOf(From(entries, s))))
  }

  lemma PushKeepsUsage(usage: map<SourceId, Usage>, entries: seq<Entry>, entry: Entry)
    requires UsageIs(usage, entries)
    ensures var current := if entry.sourceId in usage then usage[entry.sourceId] else Usage(0, 0);
            UsageIs(usage[entry.sourceId := Usage(current.events + 1, current.bytes + entry.bytes)], entries + [entry])
  {
    hide From;
    var source := entry.sourceId;
    var current := if source in usage then usage[source] else Usage(0, 0);
    var after := usage[source := Usage(current.events + 1, current.bytes + entry.bytes)];
    BytesOfSnoc(From(entries, source), entry);
    forall s: SourceId
      ensures s in after <==> From(entries + [entry], s) != []
      ensures s in after ==> after[s] == Usage(|From(entries + [entry], s)|, BytesOf(From(entries + [entry], s)))
    {
      FromSnoc(entries, entry, s);
      assert s != source ==> From(entries + [entry], s) == From(entries, s);
    }
  }

  function BytesOfEvents(events: seq<ContractEvent>): nat {
    if events == [] then 0 else EventBytes(events[0]) + BytesOfEvents(events[1..])
  }

  lemma {:induction false} FromIsPart(entries: seq<Entry>, source: SourceId)
    ensures |From(entries, source)| <= |entries| && BytesOf(From(entries, source)) <= BytesOf(entries)
    decreases |entries|
  {
    if entries != [] {
      FromIsPart(entries[1..], source);
    }
  }

  lemma EmptyUsage(usage: map<SourceId, Usage>, entries: seq<Entry>)
    requires UsageIs(usage, entries) && entries == []
    ensures usage == map[]
  {
    assert forall s: SourceId :: s !in usage;
  }

  lemma UsageOf(usage: map<SourceId, Usage>, entries: seq<Entry>, source: SourceId)
    requires UsageIs(usage, entries)
    ensures (if source in usage then usage[source] else Usage(0, 0))
            == Usage(|From(entries, source)|, BytesOf(From(entries, source)))
  {
  }

  lemma PopKeepsUsage(usage: map<SourceId, Usage>, entries: seq<Entry>)
    requires UsageIs(usage, entries) && entries != []
    ensures var s := entries[0].sourceId;
            && s in usage && usage[s].events > 0 && usage[s].bytes >= entries[0].bytes
            && UsageIs(if usage[s].events == 1 then usage - {s}
                       else usage[s := Usage(usage[s].events - 1, usage[s].bytes - entries[0].bytes)], entries[1..])
  {
    var s := entries[0].sourceId;
    var rest := From(entries[1..], s);
    assert From(entries, s) == [entries[0]] + rest;
    assert From(entries, s)[1..] == rest;
    assert forall t: SourceId :: t != s ==> From(entries, t) == From(entries[1..], t);
  }

  class Queue {
    const maximumEvents: nat
    const maximumBytes: nat
    const maximumEventsPerSource: nat
    const maximumBytesPerSource: nat
    var entries: seq<Entry>
    var usage: map<SourceId, Usage>
    var bytes: nat

    ghost predicate Valid()
      reads this
    {
      && 1 <= maximumEventsPerSource <= maximumEvents
      && 1 <= maximumBytesPerSource <= maximumBytes <= MAXIMUM_U64
      && bytes == BytesOf(entries) <= maximumBytes
      && |entries| <= maximumEvents
      && UsageIs(usage, entries)
      && (forall s | s in usage :: usage[s].events <= maximumEventsPerSource && usage[s].bytes <= maximumBytesPerSource)
      && (forall i | 0 <= i < |entries| ::
            entries[i].sourceId == entries[i].event.source.sourceId && entries[i].bytes == EventBytes(entries[i].event))
    }

    /** The queued events, oldest first. */
    function Contents(): seq<ContractEvent>
      reads this
    {
      seq(|entries|, i requires 0 <= i < |entries| reads this => entries[i].event)
    }

    constructor (maximumEvents: nat, maximumBytes: nat, maximumEventsPerSource: nat, maximumBytesPerSource: nat)
      requires 1 <= maximumEventsPerSource <= maximumEvents
      requires 1 <= maximumBytesPerSource <= maximumBytes <= MAXIMUM_U64
      ensures Valid() && Contents() == []
      ensures this.maximumEvents == maximumEvents && this.maximumBytes == maximumBytes
      ensures this.maximumEventsPerSource == maximumEventsPerSource
              && this.maximumBytesPerSource == maximumBytesPerSource
    {
      this.maximumEvents, this.maximumBytes := maximumEvents, maximumBytes;
      this.maximumEventsPerSource, this.maximumBytesPerSource := maximumEventsPerSource, maximumBytesPerSource;
      entries, usage, bytes := [], map[], 0;
    }

    /** An empty queue admits the event. */
    ghost predicate AdmitsAlone(event: ContractEvent) {
      && EventBytes(event) <= maximumBytesPerSource
      && |event.rawPayload| <= MAXIMUM_EVENT_BYTES
    }

    /** What admission comes to when every total is recomputed from the queued entries. */
    ghost function Verdict(event: ContractEvent): Admission
      reads this`entries
    {
      var same := From(entries, event.source.sourceId);
      if |event.rawPayload| > MAXIMUM_EVENT_BYTES then EventTooLarge
      else if |entries| + 1 > maximumEvents then EventLimitReached
      else if BytesOf(entries) + EventBytes(event) > maximumBytes then ByteLimitReached
      else if |same| + 1 > maximumEventsPerSource then SourceEventLimitReached
      else if BytesOf(same) + EventBytes(event) > maximumBytesPerSource then SourceByteLimitReached
      else Admitted
    }

    /** No emptying makes room for the event, and it is not turned away as too large either. */
    ghost predicate NeverFits(event: ContractEvent) {
      maximumBytesPerSource < EventBytes(event) <= MAXIMUM_U64 && |event.rawPayload| <= MAXIMUM_EVENT_BYTES
    }

    /** Whatever their sources, these events fit one after the other. */
    ghost predicate HasRoomFor(events: seq<ContractEvent>)
      reads this`entries
    {
      RoomBeside(entries, events)
    }

    ghost predicate RoomBeside(entries: seq<Entry>, events: seq<ContractEvent>) {
      && |entries| + |events| <= maximumEventsPerSource
      && BytesOf(entries) + BytesOfEvents(events) <= maximumBytesPerSource
      && (forall e | e in events :: |e.rawPayload| <= MAXIMUM_EVENT_BYTES)
    }

    lemma RoomForFirst(events: seq<ContractEvent>)
      requires Valid() && events != [] && HasRoomFor(events)
      ensures AdmitsAlone(events[0]) && Verdict(events[0]) == Admitted
    {
      hide EventBytes, UsageIs;
      FromIsPart(entries, events[0].source.sourceId);
    }

    lemma TwoFit(events: seq<ContractEvent>)
      requires Valid() && Contents() == [] && |events| == 2 && maximumEventsPerSource >= 2
      requires forall e | e in events ::
                2 * EventBytes(e) <= maximumBytesPerSource && |e.rawPayload| <= MAXIMUM_EVENT_BYTES
      ensures HasRoomFor(events)
    {
      hide EventBytes, UsageIs;
      assert |entries| == |Contents()|;
      assert events[0] in events && events[1] in events && events[1..][0] == events[1] && events[1..][1..] == [];
      assert BytesOfEvents(events) == EventBytes(events[0]) + (EventBytes(events[1]) + BytesOfEvents([]));
    }

    lemma RoomForRest(before: seq<Entry>, events: seq<ContractEvent>)
      requires Valid() && events != [] && RoomBeside(before, events)
      requires |entries| == |before| + 1 && entries[..|before|] == before && entries[|before|].event == events[0]
      ensures HasRoomFor(events[1..])
    {
      hide EventBytes, UsageIs;
      BytesOfSnoc(before, entries[|before|]);
      assert entries == before + [entries[|before|]];
    }

    /** try_push: the counters decide as the recomputed totals would. */
    method TryPush(event: ContractEvent) returns (result: Result<Admission>)
      requires Valid()
      modifies this`entries, this`usage, this`bytes
      ensures Valid()
      ensures result.Failure? <==> EventBytes(event) > MAXIMUM_U64
      ensures Contents() == if result == Success(Admitted) then old(Contents()) + [event] else old(Contents())
      ensures result.Success? ==> result.value == old(Verdict(event))
      ensures AdmitsAlone(event) ==> result.Success?
      ensures AdmitsAlone(event) && old(Contents()) == [] ==> result == Success(Admitted)
      ensures old(Contents()) == [] ==>
                (NeverFits(event) <==> result.Success? && !result.value.Admitted? && !result.value.EventTooLarge?)
      ensures result == Success(Admitted) ==>
                |entries| == |old(entries)| + 1 && entries[..|old(entries)|] == old(entries)
                && entries[|old(entries)|].event == event
    {
      hide Dump, EventBytes, UsageIs;
      if entries == [] {
        EmptyUsage(usage, entries);
      }
      UsageOf(usage, entries, event.source.sourceId);
      var eventBytes :- AccountedBytes(event);
      if |event.rawPayload| > MAXIMUM_EVENT_BYTES {
        return Success(EventTooLarge);
      }
      if |entries| >= maximumEvents {
        return Success(EventLimitReached);
      }
      if eventBytes > maximumBytes || eventBytes > MAXIMUM_U64 - bytes || bytes + eventBytes > maximumBytes {
        return Success(ByteLimitReached);
      }
      var source := event.source.sourceId;
      if source in usage && usage[source].events >= maximumEventsPerSource {
        return Success(SourceEventLimitReached);
      }
      var sourceBytes := if source in usage then usage[source].bytes else 0;
      if eventBytes > maximumBytesPerSource || eventBytes > MAXIMUM_U64 - sourceBytes
         || sourceBytes + eventBytes > maximumBytesPerSource {
        return Success(SourceByteLimitReached);
      }
      var entry := Entry(event, source, eventBytes);
      PushKeepsUsage(usage, entries, entry);
      BytesOfSnoc(entries, entry);
      entries := entries + [entry];
      bytes := bytes + eventBytes;
      var updated := if source in usage then usage[source] else Usage(0, 0);
      usage := usage[source := Usage(updated.events + 1, updated.bytes + eventBytes)];
      return Success(Admitted);
    }

    /** FIFO, and the accounting error is unreachable. */
    method TryPop() returns (result: Result<Option<ContractEvent>>)
      requires Valid()
      modifies this`entries, this`usage, this`bytes
      ensures Valid()
      ensures result.Success?
      ensures old(Contents()) == [] ==> result.value == None && Contents() == []
      ensures old(Contents()) != [] ==> result.value == Some(old(Contents())[0]) && Contents() == old(Contents())[1..]
    {
      hide EventBytes;
      if entries == [] {
        return Success(None);
      }
      var entry := entries[0];
      PopKeepsUsage(usage, entries);
      entries := entries[1..];
      bytes := bytes - entry.bytes;
      if entry.sourceId !in usage || usage[entry.sourceId].events == 0 || usage[entry.sourceId].bytes < entry.bytes {
        return Failure(AccountingError);
      }
      var left := Usage(usage[entry.sourceId].events - 1, usage[entry.sourceId].bytes - entry.bytes);
      usage := if left.events == 0 then usage - {entry.sourceId} else usage[entry.sourceId := left];
      return Success(Some(entry.event));
    }
  }
}
