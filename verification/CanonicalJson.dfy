/** The canonical form of a JSON value: compact text with object members in UTF-16 key order. */
module CanonicalJson {
  import opened Exceptions
  import opened Octets
  import opened Json
  import opened JsonReader
  import opened Lexicographic
  import opened Sequences
  import opened Serialization
  import opened Utf8
  import opened Utf16

  // ---------------------------------------------------------------- member order

  predicate Before(x: Member, y: Member) {
    Less(SortKey(x.key), SortKey(y.key))
  }

  /** A member at its place in a sorted list, after its equals. */
  function Insert(sorted: seq<Member>, member: Member): (inserted: seq<Member>)
    ensures |inserted| == |sorted| + 1
    ensures forall m :: m in inserted <==> m in sorted || m == member
  {
    if sorted == [] then [member]
    else
      var last := sorted[|sorted| - 1];
      if Before(member, last) then Insert(sorted[..|sorted| - 1], member) + [last] else sorted + [member]
  }

  function SortMembers(members: seq<Member>): (sorted: seq<Member>)
    ensures |sorted| == |members|
    ensures forall m :: m in sorted <==> m in members
  {
    if members == [] then []
    else
      var last := members[|members| - 1];
      assert members == members[..|members| - 1] + [last];
      Insert(SortMembers(members[..|members| - 1]), last)
  }

  /** What an insertion does once the place is found. */
  lemma {:induction false} InsertAt(sorted: seq<Member>, j: nat, member: Member)
    requires j <= |sorted|
    requires forall k | j <= k < |sorted| :: Before(member, sorted[k])
    requires j > 0 ==> !Before(member, sorted[j - 1])
    ensures Insert(sorted, member) == sorted[..j] + [member] + sorted[j..]
    decreases |sorted|
  {
    hide Before;
    if j < |sorted| {
      var front := sorted[..|sorted| - 1];
      InsertAt(front, j, member);
      assert front[..j] == sorted[..j] && front[j..] + [sorted[|sorted| - 1]] == sorted[j..];
    } else {
      assert sorted[..j] == sorted && sorted[j..] == [];
    }
  }

  method InsertInPlace(a: array<Member>, i: nat)
    requires i < a.Length
    modifies a
    ensures a[..i + 1] == Insert(old(a[..i]), old(a[i]))
    ensures a[i + 1..] == old(a[i + 1..])
  {
    hide Before, Insert;
    var member := a[i];
    var j := i;
    while j > 0 && Before(member, a[j - 1])
      invariant 0 <= j <= i
      invariant a[..j] == old(a[..j])
      invariant a[j + 1..i + 1] == old(a[j..i])
      invariant a[i + 1..] == old(a[i + 1..])
      invariant forall k | j <= k < i :: Before(member, old(a[k]))
    {
      a[j] := a[j - 1];
      j := j - 1;
    }
    a[j] := member;
    ghost var sorted := old(a[..i]);
    InsertAt(sorted, j, member);
    assert sorted[..j] == old(a[..j]) && sorted[j..] == old(a[j..i]);
    assert a[..i + 1] == a[..j] + [a[j]] + a[j + 1..i + 1];
  }

  /** The sort, in place. */
  method SortInPlace(a: array<Member>)
    modifies a
    ensures a[..] == SortMembers(old(a[..]))
  {
    hide Insert;
    ghost var was := a[..];
    for i := 0 to a.Length
      invariant a[..i] == SortMembers(was[..i])
      invariant a[i..] == was[i..]
    {
      InsertInPlace(a, i);
      assert was[..i + 1][..i] == was[..i];
    }
    assert was[..a.Length] == was && a[..a.Length] == a[..];
  }

  // ---------------------------------------------------------------- the canonical form

  /** Safe integers and UTF-8 text throughout. */
  predicate Canonicalizable(value: Json)
    decreases value
  {
    match value
    case Int(number) => IsSafe(number)
    case Str(text) => IsUtf8(text)
    case Arr(items) => forall i | 0 <= i < |items| :: Canonicalizable(items[i])
    case Obj(members) => forall i | 0 <= i < |members| :: IsUtf8(members[i].key) && Canonicalizable(members[i].value)
    case _ => true
  }

  /** Every object's members in canonical order. */
  function Arrange(value: Json): Json
    decreases value, 0
  {
    match value
    case Arr(items) => Arr(seq(|items|, i requires 0 <= i < |items| => Arrange(items[i])))
    case Obj(members) => Obj(SortMembers(ArrangeMembers(members)))
    case _ => value
  }

  function ArrangeMembers(members: seq<Member>): (arranged: seq<Member>)
    ensures |arranged| == |members|
    ensures forall i | 0 <= i < |members| :: arranged[i].key == members[i].key
    decreases members, 1
  {
    seq(|members|, i requires 0 <= i < |members| => Member(members[i].key, Arrange(members[i].value)))
  }

  function Canonical(value: Json): Text {
    Dump(Arrange(value))
  }

  lemma {:induction false} InsertArranged(sorted: seq<Member>, member: Member)
    ensures ArrangeMembers(Insert(sorted, member))
            == Insert(ArrangeMembers(sorted), Member(member.key, Arrange(member.value)))
    decreases |sorted|
  {
    hide Arrange;
    var arranged := Member(member.key, Arrange(member.value));
    if sorted != [] {
      var front, last := sorted[..|sorted| - 1], sorted[|sorted| - 1];
      var all := ArrangeMembers(sorted);
      assert all[..|all| - 1] == ArrangeMembers(front);
      if Before(member, last) {
        InsertArranged(front, member);
        assert ArrangeMembers(Insert(front, member) + [last]) == ArrangeMembers(Insert(front, member))
                + [all[|all| - 1]];
      } else {
        assert ArrangeMembers(sorted + [member]) == all + [arranged];
      }
    } else {
      assert ArrangeMembers([member]) == [arranged];
    }
  }

  /** Sorting by key and arranging the values commute. */
  lemma {:induction false} SortArranged(members: seq<Member>)
    ensures ArrangeMembers(SortMembers(members)) == SortMembers(ArrangeMembers(members))
    decreases |members|
  {
    hide Arrange;
    if members != [] {
      var front, last := members[..|members| - 1], members[|members| - 1];
      var all := ArrangeMembers(members);
      assert all[..|all| - 1] == ArrangeMembers(front);
      SortArranged(front);
      InsertArranged(SortMembers(front), last);
    }
  }

  /** The switch of append_string. */
  method AppendEscaped(output: Text, byte: Byte) returns (text: Text)
    ensures text == output + EscapeByte(byte)
  {
    if byte == QUOTE {
      text := output + [BACKSLASH, QUOTE];
    } else if byte == BACKSLASH {
      text := output + [BACKSLASH, BACKSLASH];
    } else if byte == 0x08 {
      text := output + [BACKSLASH, 0x62];
    } else if byte == 0x09 {
      text := output + [BACKSLASH, 0x74];
    } else if byte == 0x0A {
      text := output + [BACKSLASH, 0x6E];
    } else if byte == 0x0C {
      text := output + [BACKSLASH, 0x66];
    } else if byte == 0x0D {
      text := output + [BACKSLASH, 0x72];
    } else if byte < 0x20 {
      text := output + [BACKSLASH, 0x75, ZERO, ZERO];
      text := text + [HexDigit(byte / 16)];
      text := text + [HexDigit(byte % 16)];
    } else {
      text := output + [byte];
    }
  }

  /** append_string */
  method AppendString(output: Text, value: Text) returns (result: Result<Text>)
    ensures result.Success? <==> IsUtf8(value)
    ensures result.Success? ==> result.value == output + QuotedText(value)
    ensures result.Failure? ==> result.error == ContractError
  {
    hide IsUtf8, EscapeByte;
    var decoded :- Checked(value);
    var text := output + [QUOTE];
    assert value[0..] == value;
    for i := 0 to |value|
      invariant text + EscapeBytes(value[i..]) == output + [QUOTE] + EscapeBytes(value)
    {
      assert value[i..][0] == value[i] && value[i..][1..] == value[i + 1..];
      ghost var before := text;
      text := AppendEscaped(text, value[i]);
      assert before + (EscapeByte(value[i]) + EscapeBytes(value[i + 1..])) == text + EscapeBytes(value[i + 1..]);
    }
    assert value[|value|..] == [] && text + [] == text;
    assert text + [QUOTE] == output + ([QUOTE] + EscapeBytes(value) + [QUOTE]);
    return Success(text + [QUOTE]);
  }

  /** The decoding that append_string runs for its errors alone. */
  method Checked(value: Text) returns (result: Result<()>)
    ensures result.Success? <==> IsUtf8(value)
    ensures result.Failure? ==> result.error == ContractError
  {
    var values :- DecodeUtf8(value);
    return Success(());
  }


  /** append_value */
  method AppendValue(output: Text, value: Json) returns (result: Result<Text>)
    ensures result.Success? <==> Canonicalizable(value)
    ensures result.Success? ==> result.value == output + Canonical(value)
    ensures result.Failure? ==> result.error == ContractError
    decreases value, 1
  {
    match value {
      case Null => return Success(output + NullText());
      case Bool(flag) => return Success(output + if flag then TrueText() else FalseText());
      case Int(number) =>
        if number > MAXIMUM_SAFE_INTEGER || number < -MAXIMUM_SAFE_INTEGER {
          return Failure(ContractError);
        }
        return Success(output + IntText(number));
      case Str(text) =>
        result := AppendString(output, text);
      case Arr(items) =>
        result := AppendItems(output, value);
      case Obj(members) =>
        result := AppendMembers(output, value);
    }
  }

  lemma DumpNothing()
    ensures DumpItems([]) == [] && DumpMembers([]) == []
  {
  }

  lemma DumpArray(items: seq<Json>)
    ensures Dump(Arr(items)) == [OPEN_BRACKET] + DumpItems(items) + [CLOSE_BRACKET]
  {
  }

  method AppendItems(output: Text, value: Json) returns (result: Result<Text>)
    requires value.Arr?
    ensures result.Success? <==> Canonicalizable(value)
    ensures result.Success? ==> result.value == output + Canonical(value)
    ensures result.Failure? ==> result.error == ContractError
    decreases value, 0
  {
    hide IsUtf8, Dump, DumpItems;
    ghost var arranged := Arrange(value).items;
    DumpNothing();
    DumpArray(arranged);
    var text := output + [OPEN_BRACKET];
    for i := 0 to |value.items|
      invariant text == output + [OPEN_BRACKET] + DumpItems(arranged[..i])
      invariant forall k | 0 <= k < i :: Canonicalizable(value.items[k])
    {
      ghost var before := text;
      if i != 0 {
        text := text + [COMMA];
      }
      text :- AppendValue(text, value.items[i]);
      assert arranged[..i + 1] == arranged[..i] + [arranged[i]];
      DumpItemsSnoc(arranged[..i], arranged[i]);
    }
    assert arranged[..|value.items|] == arranged;
    return Success(text + [CLOSE_BRACKET]);
  }

  /** The vector of members that append_value fills and sorts. */
  method OrderMembers(members: seq<Member>) returns (result: Result<seq<Member>>)
    ensures result.Success? <==> forall i | 0 <= i < |members| :: IsUtf8(members[i].key)
    ensures result.Success? ==> result.value == SortMembers(members)
    ensures result.Failure? ==> result.error == ContractError
  {
    hide IsUtf8, SortMembers, SortKey;
    var n := |members|;
    var vector := new Member[n](i requires 0 <= i < n => members[i]);
    for i := 0 to n
      invariant vector[..] == members
      invariant forall k | 0 <= k < i :: IsUtf8(members[k].key)
    {
      var sortKey :- Utf16Units(members[i].key);
    }
    SortInPlace(vector);
    return Success(vector[..]);
  }

  method AppendMembers(output: Text, value: Json) returns (result: Result<Text>)
    requires value.Obj?
    ensures result.Success? <==> Canonicalizable(value)
    ensures result.Success? ==> result.value == output + Canonical(value)
    ensures result.Failure? ==> result.error == ContractError
    decreases value, 0
  {
    hide IsUtf8, Dump, DumpMember, DumpMembers, SortMembers, SortKey, Arrange, ArrangeMembers, Canonical,
      Canonicalizable, QuotedText;
    if exists i :: 0 <= i < |value.members| && !IsUtf8(value.members[i].key) {
      KeysFirst(value);
    }
    var sorted :- OrderMembers(value.members);
    var text := output + [OPEN_BRACE];
    ghost var prefix := text;
    DumpNothing();
    assert ArrangeMembers(sorted)[..0] == [];
    for i := 0 to |sorted|
      invariant text == prefix + DumpMembers(ArrangeMembers(sorted)[..i])
      invariant forall k | 0 <= k < i :: IsUtf8(sorted[k].key) && Canonicalizable(sorted[k].value)
    {
      SortedIsMember(value, sorted, i);
      text :- AppendMember(text, i != 0, sorted[i]);
      AppendedMember(sorted, i);
      Extends(prefix, DumpMembers(ArrangeMembers(sorted)[..i]), if i != 0 then [COMMA] else [],
              QuotedText(sorted[i].key), [COLON], Canonical(sorted[i].value));
    }
    assert ArrangeMembers(sorted)[..|sorted|] == ArrangeMembers(sorted);
    AllSorted(value, sorted);
    assert prefix + DumpMembers(ArrangeMembers(sorted)) + [CLOSE_BRACE]
        == output + ([OPEN_BRACE] + DumpMembers(ArrangeMembers(sorted)) + [CLOSE_BRACE]);
    return Success(text + [CLOSE_BRACE]);
  }

  method AppendMember(output: Text, follows: bool, member: Member) returns (result: Result<Text>)
    requires IsUtf8(member.key)
    ensures result.Success? <==> Canonicalizable(member.value)
    ensures result.Success? ==>
              result.value == output + (if follows then [COMMA] else []) + QuotedText(member.key) + [COLON]
                  + Canonical(member.value)
    ensures result.Failure? ==> result.error == ContractError
    decreases member.value, 2
  {
    hide IsUtf8, Canonical, Canonicalizable, QuotedText;
    var text := if follows then output + [COMMA] else output;
    var quoted := AppendString(text, member.key);
    assert quoted.Success?;
    text := quoted.value + [COLON];
    result := AppendValue(text, member.value);
  }

  lemma KeysFirst(value: Json)
    requires value.Obj? && exists i :: 0 <= i < |value.members| && !IsUtf8(value.members[i].key)
    ensures !Canonicalizable(value)
  {
    hide IsUtf8;
  }

  lemma SortedIsMember(value: Json, sorted: seq<Member>, i: nat)
    requires value.Obj? && sorted == SortMembers(value.members) && i < |sorted|
    ensures sorted[i] in value.members && (value decreases to sorted[i].value)
    ensures Canonicalizable(value) ==> IsUtf8(sorted[i].key) && Canonicalizable(sorted[i].value)
  {
    hide IsUtf8;
    assert sorted[i] in sorted;
    var k :| 0 <= k < |value.members| && value.members[k] == sorted[i];
  }

  lemma AllSorted(value: Json, sorted: seq<Member>)
    requires value.Obj? && sorted == SortMembers(value.members)
    ensures Arrange(value) == Obj(ArrangeMembers(sorted))
    ensures Canonical(value) == [OPEN_BRACE] + DumpMembers(ArrangeMembers(sorted)) + [CLOSE_BRACE]
    ensures (forall i | 0 <= i < |sorted| :: IsUtf8(sorted[i].key) && Canonicalizable(sorted[i].value)) ==>
              Canonicalizable(value)
  {
    hide IsUtf8, SortMembers, DumpMembers;
    SortArranged(value.members);
    forall i | 0 <= i < |value.members| ensures value.members[i] in sorted {
      assert value.members[i] in value.members;
    }
  }

  lemma AppendedMember(sorted: seq<Member>, i: nat)
    requires i < |sorted|
    ensures var arranged := ArrangeMembers(sorted);
            DumpMembers(arranged[..i + 1])
              == DumpMembers(arranged[..i]) + (if i == 0 then [] else [COMMA]) + QuotedText(sorted[i].key) + [COLON]
                  + Canonical(sorted[i].value)
  {
    hide *;
    var arranged := ArrangeMembers(sorted);
    ArrangedText(sorted, i);
    OneMemberMore(arranged, i, QuotedText(sorted[i].key), Canonical(sorted[i].value));
  }

  lemma OneMemberMore(arranged: seq<Member>, i: nat, key: Text, value: Text)
    requires i < |arranged| && DumpMember(arranged[i]) == key + [COLON] + value
    ensures DumpMembers(arranged[..i + 1]) == DumpMembers(arranged[..i]) + (if i == 0 then [] else [COMMA]) + key
            + [COLON] + value
  {
    hide *;
    var before := DumpMembers(arranged[..i]);
    var comma := if i == 0 then [] else [COMMA];
    assert arranged[..i + 1] == arranged[..i] + [arranged[i]];
    DumpMembersSnoc(arranged[..i], arranged[i]);
    Associates(before + comma, key, [COLON], value);
  }

  lemma ArrangedText(sorted: seq<Member>, i: nat)
    requires i < |sorted|
    ensures DumpMember(ArrangeMembers(sorted)[i]) == QuotedText(sorted[i].key) + [COLON] + Canonical(sorted[i].value)
  {
  }

  /** canonicalize */
  method Canonicalize(value: Json) returns (result: Result<Text>)
    ensures result.Success? <==> Canonicalizable(value)
    ensures result.Success? ==> result.value == Canonical(value)
    ensures result.Failure? ==> result.error == ContractError
  {
    hide Canonicalizable, Canonical;
    result := AppendValue([], value);
    assert [] + Canonical(value) == Canonical(value);
  }

  // ---------------------------------------------------------------- canonical texts and member order

  /** No object repeats a key, as in the documents the collector builds and parses. */
  predicate DistinctKeys(value: Json)
    decreases value
  {
    match value
    case Arr(items) => forall i | 0 <= i < |items| :: DistinctKeys(items[i])
    case Obj(members) =>
      && KeysDiffer(members)
      && forall i | 0 <= i < |members| :: DistinctKeys(members[i].value)
    case _ => true
  }

  predicate KeysDiffer(members: seq<Member>) {
    forall i, j | 0 <= i < j < |members| :: members[i].key != members[j].key
  }

  /** Equal documents, up to the order in which objects list their members. */
  predicate Same(x: Json, y: Json)
    decreases x
  {
    match x
    case Arr(items) =>
      y.Arr? && |items| == |y.items| && forall i | 0 <= i < |items| :: Same(items[i], y.items[i])
    case Obj(members) =>
      && y.Obj? && |members| == |y.members|
      && forall i | 0 <= i < |members| :: IsAmong(members[i], y.members)
    case _ => x == y
  }

  predicate IsAmong(member: Member, others: seq<Member>)
    decreases member
  {
    exists j :: 0 <= j < |others| && member.key == others[j].key && Same(member.value, others[j].value)
  }

  predicate KeysValid(members: seq<Member>) {
    forall i | 0 <= i < |members| :: IsUtf8(members[i].key)
  }

  ghost predicate Ascending(members: seq<Member>) {
    forall i, j | 0 <= i < j < |members| :: Before(members[i], members[j])
  }

  lemma BeforeIsStrict(x: Member, y: Member, z: Member)
    requires IsUtf8(x.key) && IsUtf8(y.key)
    ensures x.key != y.key ==> Before(x, y) != Before(y, x)
    ensures x.key == y.key ==> !Before(x, y)
    ensures Before(x, y) && Before(y, z) ==> Before(x, z)
  {
    hide SortKey, IsUtf8, Less;
    SortKeysAreTotal(x.key, y.key);
    if Before(x, y) && Before(y, z) {
      Transitive(SortKey(x.key), SortKey(y.key), SortKey(z.key));
    }
  }

  lemma {:induction false} InsertAscends(sorted: seq<Member>, member: Member)
    requires Ascending(sorted) && KeysValid(sorted) && IsUtf8(member.key)
    requires forall i | 0 <= i < |sorted| :: sorted[i].key != member.key
    ensures Ascending(Insert(sorted, member)) && KeysValid(Insert(sorted, member))
    decreases |sorted|
  {
    hide Before, IsUtf8;
    if sorted != [] {
      var front, last := sorted[..|sorted| - 1], sorted[|sorted| - 1];
      if Before(member, last) {
        InsertAscends(front, member);
        forall i | 0 <= i < |sorted| ensures Before(Insert(front, member)[i], last) {
          assert Insert(front, member)[i] in Insert(front, member);
        }
      } else {
        forall i | 0 <= i < |sorted| ensures Before(sorted[i], member) {
          BeforeIsStrict(last, member, member);
          BeforeIsStrict(sorted[i], last, member);
        }
      }
    }
  }

  lemma {:induction false} SortAscends(members: seq<Member>)
    requires KeysDiffer(members) && KeysValid(members)
    ensures Ascending(SortMembers(members)) && KeysValid(SortMembers(members))
    decreases |members|
  {
    hide Before, IsUtf8, Insert;
    if members != [] {
      var front := members[..|members| - 1];
      SortAscends(front);
      forall i | 0 <= i < |front| ensures SortMembers(front)[i].key != members[|members| - 1].key {
        assert SortMembers(front)[i] in front;
      }
      InsertAscends(SortMembers(front), members[|members| - 1]);
    }
  }

  /** An ascending list is determined by its elements. */
  lemma {:induction false} AscendingIsUnique(x: seq<Member>, y: seq<Member>)
    requires Ascending(x) && Ascending(y) && KeysValid(x) && KeysValid(y)
    requires forall m :: m in x <==> m in y
    ensures x == y
    decreases |x|
  {
    hide Before, IsUtf8;
    assert y != [] ==> y[0] in y;
    if x != [] {
      assert x[0] in y && y != [] && y[0] in x;
      BeforeIsStrict(x[0], y[0], y[0]);
      BeforeIsStrict(x[0], x[0], x[0]);
      BeforeIsStrict(y[0], x[0], x[0]);
      var i :| 0 <= i < |y| && y[i] == x[0];
      var j :| 0 <= j < |x| && x[j] == y[0];
      assert x[0] == y[0];
      TailElements(x, y);
      AscendingIsUnique(x[1..], y[1..]);
      assert x == [x[0]] + x[1..] && y == [y[0]] + y[1..];
    }
  }

  lemma TailElements(x: seq<Member>, y: seq<Member>)
    requires Ascending(x) && Ascending(y) && KeysValid(x) && x != [] && y != [] && x[0] == y[0]
    requires forall m :: m in x <==> m in y
    ensures forall m :: m in x[1..] <==> m in y[1..]
  {
    hide Before, IsUtf8;
    BeforeIsStrict(x[0], x[0], x[0]);
    assert x == [x[0]] + x[1..] && y == [y[0]] + y[1..];
    assert forall i | 0 < i < |x| :: Before(x[0], x[i]);
    assert forall i | 0 < i < |y| :: Before(y[0], y[i]);
    assert x[0] !in x[1..] && y[0] !in y[1..];
    forall m ensures m in x[1..] <==> m in y[1..] {
      assert m in x <==> m == x[0] || m in x[1..];
      assert m in y <==> m == y[0] || m in y[1..];
    }
  }

  /** The order in which an object lists its members does not reach the canonical form. */
  lemma SortForgetsOrder(x: seq<Member>, y: seq<Member>)
    requires KeysDiffer(x) && KeysDiffer(y) && KeysValid(x) && KeysValid(y)
    ensures SortMembers(x) == SortMembers(y) <==> forall m :: m in x <==> m in y
  {
    hide Before, IsUtf8, SortMembers;
    SortAscends(x);
    SortAscends(y);
    if forall m :: m in x <==> m in y {
      AscendingIsUnique(SortMembers(x), SortMembers(y));
    }
  }

  // ---------------------------------------------------------------- the main theorem

  /** What canonicalize requires and the document type guarantees. */
  predicate Proper(value: Json) {
    Canonicalizable(value) && DistinctKeys(value)
  }

  lemma ArrangedKeys(members: seq<Member>)
    requires Proper(Obj(members))
    ensures KeysDiffer(ArrangeMembers(members)) && KeysValid(ArrangeMembers(members))
  {
    hide IsUtf8, Arrange;
    assert Obj(members).members == members;
  }

  lemma ProperPart(value: Json)
    requires Proper(value)
    ensures value.Arr? ==> forall i | 0 <= i < |value.items| :: Proper(value.items[i])
    ensures value.Obj? ==> forall i | 0 <= i < |value.members| :: Proper(value.members[i].value)
  {
    hide IsUtf8, KeysDiffer;
  }

  /** Arranging identifies exactly the documents that are the same up to member order. */
  lemma {:induction false} ArrangeForgetsOrder(x: Json, y: Json)
    requires Proper(x) && Proper(y)
    ensures Arrange(x) == Arrange(y) <==> Same(x, y)
    decreases x
  {
    hide Proper, IsUtf8, Canonicalizable, DistinctKeys;
    ProperPart(x);
    ProperPart(y);
    if x.Arr? && y.Arr? && |x.items| == |y.items| {
      forall i | 0 <= i < |x.items| ensures Arrange(x.items[i]) == Arrange(y.items[i]) <==>
          Same(x.items[i], y.items[i]) {
        ArrangeForgetsOrder(x.items[i], y.items[i]);
      }
      ArraysArrange(x, y);
    } else if x.Obj? && y.Obj? {
      forall i, j | 0 <= i < |x.members| && 0 <= j < |y.members|
        ensures Arrange(x.members[i].value) == Arrange(y.members[j].value) <==>
                  Same(x.members[i].value, y.members[j].value)
      {
        ArrangeForgetsOrder(x.members[i].value, y.members[j].value);
      }
      ObjectsArrange(x.members, y.members);
    } else {
      assert x.Arr? ==> |Arrange(x).items| == |x.items|;
      assert y.Arr? ==> |Arrange(y).items| == |y.items|;
    }
  }

  lemma ArraysArrange(x: Json, y: Json)
    requires x.Arr? && y.Arr? && |x.items| == |y.items|
    requires forall i | 0 <= i < |x.items| :: Arrange(x.items[i]) == Arrange(y.items[i]) <==>
              Same(x.items[i], y.items[i])
    ensures Arrange(x) == Arrange(y) <==> Same(x, y)
  {
    var a, b := Arrange(x).items, Arrange(y).items;
    assert Same(x, y) <==> forall i | 0 <= i < |x.items| :: Same(x.items[i], y.items[i]);
    assert forall i | 0 <= i < |x.items| :: a[i] == Arrange(x.items[i]) && b[i] == Arrange(y.items[i]);
    if a == b {
      assert forall i | 0 <= i < |x.items| :: a[i] == b[i];
    }
  }

  /** Every member of one object has its equal in the other. */
  ghost predicate Matched(x: seq<Member>, y: seq<Member>) {
    forall i | 0 <= i < |x| :: IsAmong(x[i], y)
  }

  lemma SameIsMatched(x: seq<Member>, y: seq<Member>)
    ensures Same(Obj(x), Obj(y)) <==> |x| == |y| && Matched(x, y)
  {
    hide IsAmong;
  }

  lemma ObjectsArrange(x: seq<Member>, y: seq<Member>)
    requires Proper(Obj(x)) && Proper(Obj(y))
    requires forall i, j | 0 <= i < |x| && 0 <= j < |y| ::
               Arrange(x[i].value) == Arrange(y[j].value) <==> Same(x[i].value, y[j].value)
    ensures Arrange(Obj(x)) == Arrange(Obj(y)) <==> Same(Obj(x), Obj(y))
  {
    hide Proper, KeysDiffer, KeysValid, IsUtf8, Same, Arrange, Matched, SortMembers;
    var a, b := ArrangeMembers(x), ArrangeMembers(y);
    ArrangedKeys(x);
    ArrangedKeys(y);
    SortForgetsOrder(a, b);
    SameIsMatched(x, y);
    ArrangeOfObject(x);
    ArrangeOfObject(y);
    if SortMembers(a) == SortMembers(b) {
      EqualIsMatched(x, y);
    }
    if |x| == |y| && Matched(x, y) {
      SameIsSubset(x, y);
      SubsetIsEqual(a, b);
    }
  }

  lemma ArrangeOfObject(x: seq<Member>)
    ensures Arrange(Obj(x)) == Obj(SortMembers(ArrangeMembers(x)))
  {
  }

  lemma EqualIsMatched(x: seq<Member>, y: seq<Member>)
    requires forall m :: m in ArrangeMembers(x) <==> m in ArrangeMembers(y)
    requires forall i, j | 0 <= i < |x| && 0 <= j < |y| ::
               Arrange(x[i].value) == Arrange(y[j].value) <==> Same(x[i].value, y[j].value)
    ensures Matched(x, y)
  {
    hide Arrange, Same;
    var a, b := ArrangeMembers(x), ArrangeMembers(y);
    forall i | 0 <= i < |x| ensures IsAmong(x[i], y) {
      assert a[i] in a;
      var j :| 0 <= j < |b| && b[j] == a[i];
      assert x[i].key == y[j].key;
    }
  }

  lemma SameIsSubset(x: seq<Member>, y: seq<Member>)
    requires Matched(x, y)
    requires forall i, j | 0 <= i < |x| && 0 <= j < |y| ::
               Arrange(x[i].value) == Arrange(y[j].value) <==> Same(x[i].value, y[j].value)
    ensures forall m :: m in ArrangeMembers(x) ==> m in ArrangeMembers(y)
  {
    hide Arrange, Same;
    var a, b := ArrangeMembers(x), ArrangeMembers(y);
    forall m | m in a ensures m in b {
      var i :| 0 <= i < |a| && a[i] == m;
      assert IsAmong(x[i], y);
      var j :| 0 <= j < |y| && x[i].key == y[j].key && Same(x[i].value, y[j].value);
      assert b[j] == m;
    }
  }

  function ElementsOf(members: seq<Member>): set<Member> {
    set m | m in members
  }

  lemma {:induction false} ElementsCount(members: seq<Member>)
    ensures |ElementsOf(members)| <= |members|
    ensures KeysDiffer(members) ==> |ElementsOf(members)| == |members|
    decreases |members|
  {
    if members != [] {
      var front, last := members[..|members| - 1], members[|members| - 1];
      ElementsCount(front);
      assert members == front + [last];
      assert ElementsOf(members) == ElementsOf(front) + {last};
      if KeysDiffer(members) {
        assert KeysDiffer(front);
        assert last !in front;
      }
    }
  }

  lemma SubsetIsEqual(a: seq<Member>, b: seq<Member>)
    requires |a| == |b| && KeysDiffer(a)
    requires forall m :: m in a ==> m in b
    ensures forall m :: m in a <==> m in b
  {
    hide KeysDiffer;
    ElementsCount(a);
    ElementsCount(b);
    var x, y := ElementsOf(a), ElementsOf(b);
    assert x <= y && |x| == |a| && |y| <= |a|;
    assert |y| == |x| + |y - x| by {
      assert y == x + (y - x);
    }
    assert x == y;
    assert forall m :: m in a <==> m in x;
  }

  /**
   * Two documents have the same canonical text exactly when they are equal up to member order: the text is
   * independent of insertion order, and a reader can recover the document from it.
   */
  lemma CanonicalIdentifies(x: Json, y: Json)
    requires Proper(x) && Proper(y)
    ensures Canonical(x) == Canonical(y) <==> Same(x, y)
  {
    hide Proper, Dump, Arrange;
    ArrangeForgetsOrder(x, y);
    if Canonical(x) == Canonical(y) {
      DumpInjective(Arrange(x), Arrange(y));
    }
  }

  lemma {:induction false} SameAsArranged(x: Json)
    ensures Same(x, Arrange(x))
    decreases x
  {
    if x.Arr? {
      forall i | 0 <= i < |x.items| ensures Same(x.items[i], Arrange(x).items[i]) {
        SameAsArranged(x.items[i]);
      }
    } else if x.Obj? {
      forall i | 0 <= i < |x.members| ensures Same(x.members[i].value, Arrange(x.members[i].value)) {
        SameAsArranged(x.members[i].value);
      }
      MembersAsArranged(x, Arrange(x));
    }
  }

  lemma MembersAsArranged(x: Json, y: Json)
    requires x.Obj? && y == Obj(SortMembers(ArrangeMembers(x.members)))
    requires forall i | 0 <= i < |x.members| :: Same(x.members[i].value, Arrange(x.members[i].value))
    ensures Same(x, y)
  {
    hide SortMembers;
    var arranged := ArrangeMembers(x.members);
    forall i | 0 <= i < |x.members| ensures IsAmong(x.members[i], y.members) {
      assert arranged[i] in arranged && arranged[i] in y.members;
      var j :| 0 <= j < |y.members| && y.members[j] == arranged[i];
      assert x.members[i].key == y.members[j].key;
    }
  }

  /** The reference reader recovers the arranged document from the canonical text. */
  lemma ReaderInvertsCanonical(x: Json)
    requires Proper(x)
    ensures ReadValue(Canonical(x)) == Some((Arrange(x), []))
    ensures Same(x, Arrange(x))
  {
    hide Dump, ReadValue, IsUtf8, Arrange;
    ReadDump(Arrange(x), []);
    assert Dump(Arrange(x)) + [] == Dump(Arrange(x));
    SameAsArranged(x);
  }
}
