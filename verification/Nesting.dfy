/** How deep documents nest: what the tree check and the strict scanner make of the same value. */
module Nesting {
  import opened Octets
  import opened Json
  import opened Contract
  import opened Serialization

  lemma {:induction false} ShallowMore(value: Json, n: nat, m: nat)
    requires n <= m && Shallow(value, n)
    ensures Shallow(value, m)
    decreases value
  {
    match value {
      case Arr(items) =>
        forall i | 0 <= i < |items| ensures Shallow(items[i], m - 1) {
          ShallowMore(items[i], n - 1, m - 1);
        }
      case Obj(members) =>
        forall i | 0 <= i < |members| ensures Shallow(members[i].value, m - 1) {
          ShallowMore(members[i].value, n - 1, m - 1);
        }
      case _ =>
    }
  }

  /** The tree check lets one container more through than the scanner, when that one is empty. */
  lemma {:induction false} TreeIsShallow(value: Json, depth: nat)
    requires TreeOk(value, depth)
    ensures Shallow(value, MAXIMUM_NESTING + 1 - depth)
    decreases value
  {
    match value {
      case Arr(items) =>
        forall i | 0 <= i < |items| ensures Shallow(items[i], MAXIMUM_NESTING - depth) {
          TreeIsShallow(items[i], depth + 1);
        }
      case Obj(members) =>
        forall i | 0 <= i < |members| ensures Shallow(members[i].value, MAXIMUM_NESTING - depth) {
          TreeIsShallow(members[i].value, depth + 1);
        }
      case _ =>
    }
  }

  /** A shallow value passes the tree check wherever there is room below it. */
  lemma {:induction false} ShallowIsTree(value: Json, containers: nat, at: nat, depth: nat)
    requires Shallow(value, containers) && TreeOk(value, at) && depth + containers <= MAXIMUM_NESTING
    ensures TreeOk(value, depth)
    decreases value
  {
    match value {
      case Arr(items) =>
        forall i | 0 <= i < |items| ensures TreeOk(items[i], depth + 1) {
          ShallowIsTree(items[i], containers - 1, at + 1, depth + 1);
        }
      case Obj(members) =>
        forall i | 0 <= i < |members| ensures TreeOk(members[i].value, depth + 1) {
          ShallowIsTree(members[i].value, containers - 1, at + 1, depth + 1);
        }
      case _ =>
    }
  }

  lemma {:induction false} TreeHigher(value: Json, depth: nat, higher: nat)
    requires TreeOk(value, depth) && higher <= depth
    ensures TreeOk(value, higher)
    decreases value
  {
    match value {
      case Arr(items) =>
        forall i | 0 <= i < |items| ensures TreeOk(items[i], higher + 1) {
          TreeHigher(items[i], depth + 1, higher + 1);
        }
      case Obj(members) =>
        forall i | 0 <= i < |members| ensures TreeOk(members[i].value, higher + 1) {
          TreeHigher(members[i].value, depth + 1, higher + 1);
        }
      case _ =>
    }
  }

  // ---------------------------------------------------------------- batches

  /** A batch can be read back exactly when every event nests at most 126 containers. */
  lemma BatchNests(batch: EventBatch)
    ensures Reparsable(batch) <==> forall e | e in batch.events :: Shallow(EventJson(e), MAXIMUM_NESTING - 2)
  {
    hide EventJson, UuidText, Ascii;
    var members, list := BatchJson(batch, true).members, Arr(EventsJson(batch.events));
    assert members[5].value == list && members[6].value == IntegrityJson(batch.integrity, true);
    assert Shallow(members[6].value, MAXIMUM_NESTING - 1);
    assert Reparsable(batch) <==> forall i | 0 <= i < 9 :: Shallow(members[i].value, MAXIMUM_NESTING - 1);
    assert (forall i | 0 <= i < 9 :: Shallow(members[i].value, MAXIMUM_NESTING - 1)) <==>
        Shallow(list, MAXIMUM_NESTING - 1);
    if Shallow(list, MAXIMUM_NESTING - 1) {
      forall e | e in batch.events ensures Shallow(EventJson(e), MAXIMUM_NESTING - 2) {
        var i :| 0 <= i < |batch.events| && batch.events[i] == e;
        assert EventsJson(batch.events)[i] == EventJson(e);
      }
    } else {
      var i :| 0 <= i < |batch.events| && !Shallow(EventsJson(batch.events)[i], MAXIMUM_NESTING - 2);
      assert batch.events[i] in batch.events;
    }
  }

  /** An event nests as its OCSF document does, when its mapping is flat. */
  lemma EventNests(event: ContractEvent)
    requires event.source.position.FilePosition? && Shallow(event.mapping, 1)
    ensures Shallow(EventJson(event), MAXIMUM_NESTING - 2) <==> Shallow(event.ocsf, MAXIMUM_NESTING - 3)
  {
    hide Ascii;
    var members := EventJson(event).members;
    var k := if event.mapping.Null? then 3 else 4;
    SourceNests(event.source);
    ShallowMore(event.mapping, 1, MAXIMUM_NESTING - 3);
    assert |members| == k + 4 && members[k].value == event.ocsf && members[k + 3].value == SourceJson(event.source);
    assert k == 4 ==> members[3].value == event.mapping;
    assert forall i | 0 <= i < 3 || k < i < k + 3 :: members[i].value.Str?;
    assert Shallow(EventJson(event), MAXIMUM_NESTING - 2)
      <==> forall i | 0 <= i < |members| :: Shallow(members[i].value, MAXIMUM_NESTING - 3);
  }

  lemma SourceNests(source: EventSource)
    requires source.position.FilePosition?
    ensures Shallow(SourceJson(source), MAXIMUM_NESTING - 3)
  {
    hide Ascii;
    var members := SourceJson(source).members;
    assert Shallow(PositionJson(source.position), MAXIMUM_NESTING - 4);
    assert forall i | 0 <= i < |members| :: Shallow(members[i].value, MAXIMUM_NESTING - 4);
  }

  // ---------------------------------------------------------------- deep values

  /** Arrays within arrays. */
  function Nested(n: nat): Json
    requires n > 0
  {
    if n == 1 then Arr([]) else Arr([Nested(n - 1)])
  }

  lemma {:induction false} NestedIs(n: nat, containers: nat, depth: nat)
    requires n > 0
    ensures Shallow(Nested(n), containers) <==> n <= containers
    ensures TreeOk(Nested(n), depth) <==> depth + n - 1 <= MAXIMUM_NESTING
    ensures TextOk(Nested(n))
    decreases n
  {
    if n > 1 {
      var inner := Nested(n - 1);
      assert Nested(n) == Arr([inner]) && [inner][0] == inner;
      NestedIs(n - 1, if containers > 0 then containers - 1 else 0, depth + 1);
    }
  }
}
