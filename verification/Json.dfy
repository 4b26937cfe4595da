/** JSON values and their compact text, member order as stored. Numbers are integers; see the README on floats. */
module Json {
  import opened Octets

  const MAXIMUM_SAFE_INTEGER := 9_007_199_254_740_991

  const QUOTE: Byte := 0x22
  const BACKSLASH: Byte := 0x5C
  const COMMA: Byte := 0x2C
  const COLON: Byte := 0x3A
  const MINUS: Byte := 0x2D
  const ZERO: Byte := 0x30
  const OPEN_BRACKET: Byte := 0x5B
  const CLOSE_BRACKET: Byte := 0x5D
  const OPEN_BRACE: Byte := 0x7B
  const CLOSE_BRACE: Byte := 0x7D

  datatype Json =
    | Null
    | Bool(flag: bool)
    | Int(number: int)
    | Str(text: Text)
    | Arr(items: seq<Json>)
    | Obj(members: seq<Member>)

  datatype Member = Member(key: Text, value: Json)

  function NullText(): Text { [0x6E, 0x75, 0x6C, 0x6C] }

  function TrueText(): Text { [0x74, 0x72, 0x75, 0x65] }

  function FalseText(): Text { [0x66, 0x61, 0x6C, 0x73, 0x65] }

  predicate IsDigit(b: Byte) { ZERO <= b <= 0x39 }

  function HexDigit(n: nat): Byte
    requires n < 16
  {
    if n < 10 then ZERO + n else 0x61 + (n - 10)
  }

  /** The text of one byte inside a JSON string: minimal escaping. */
  function EscapeByte(b: Byte): Text {
    if b == QUOTE then [BACKSLASH, QUOTE]
    else if b == BACKSLASH then [BACKSLASH, BACKSLASH]
    else if b == 0x08 then [BACKSLASH, 0x62]
    else if b == 0x09 then [BACKSLASH, 0x74]
    else if b == 0x0A then [BACKSLASH, 0x6E]
    else if b == 0x0C then [BACKSLASH, 0x66]
    else if b == 0x0D then [BACKSLASH, 0x72]
    else if b < 0x20 then [BACKSLASH, 0x75, ZERO, ZERO, HexDigit(b / 16), HexDigit(b % 16)]
    else [b]
  }

  function EscapeBytes(s: Text): Text {
    if s == [] then [] else EscapeByte(s[0]) + EscapeBytes(s[1..])
  }

  function QuotedText(s: Text): Text {
    [QUOTE] + EscapeBytes(s) + [QUOTE]
  }

  function NatText(n: nat): Text {
    if n < 10 then [ZERO + n] else NatText(n / 10) + [ZERO + n % 10]
  }

  function IntText(n: int): Text {
    if n < 0 then [MINUS] + NatText(-n) else NatText(n)
  }

  function Dump(value: Json): Text
    decreases value, 0
  {
    match value
    case Null => NullText()
    case Bool(flag) => if flag then TrueText() else FalseText()
    case Int(number) => IntText(number)
    case Str(text) => QuotedText(text)
    case Arr(items) => [OPEN_BRACKET] + DumpItems(items) + [CLOSE_BRACKET]
    case Obj(members) => [OPEN_BRACE] + DumpMembers(members) + [CLOSE_BRACE]
  }

  function DumpItems(items: seq<Json>): Text
    decreases items, 1
  {
    if items == [] then []
    else if |items| == 1 then Dump(items[0])
    else Dump(items[0]) + [COMMA] + DumpItems(items[1..])
  }

  function DumpMember(member: Member): Text
    decreases member, 1
  {
    QuotedText(member.key) + [COLON] + Dump(member.value)
  }

  function DumpMembers(members: seq<Member>): Text
    decreases members, 2
  {
    if members == [] then []
    else if |members| == 1 then DumpMember(members[0])
    else DumpMember(members[0]) + [COMMA] + DumpMembers(members[1..])
  }

  /** One more array item: a comma unless it is the first, and its text. */
  lemma {:induction false} DumpItemsSnoc(items: seq<Json>, item: Json)
    ensures DumpItems(items + [item]) == DumpItems(items) + (if items == [] then [] else [COMMA]) + Dump(item)
    decreases |items|
  {
    hide Dump;
    if items == [] {
      assert items + [item] == [item];
    } else {
      DumpItemsSnoc(items[1..], item);
      var tail := DumpItems(items[1..]);
      assert (items + [item])[1..] == items[1..] + [item] && (items + [item])[0] == items[0];
      if |items| > 1 {
        assert tail + [COMMA] + Dump(item) == tail + ([COMMA] + Dump(item));
      }
    }
  }

  lemma {:induction false} DumpMembersSnoc(members: seq<Member>, member: Member)
    ensures DumpMembers(members + [member]) == DumpMembers(members) + (if members == [] then [] else [COMMA])
            + DumpMember(member)
    decreases |members|
  {
    hide Dump, DumpMember;
    if members == [] {
      assert members + [member] == [member];
    } else {
      DumpMembersSnoc(members[1..], member);
      var tail := DumpMembers(members[1..]);
      assert (members + [member])[1..] == members[1..] + [member] && (members + [member])[0] == members[0];
      if |members| > 1 {
        assert tail + [COMMA] + DumpMember(member) == tail + ([COMMA] + DumpMember(member));
      }
    }
  }

  /** The member stored under a key, first match. */
  function Lookup(members: seq<Member>, key: Text): (found: seq<Json>)
    ensures |found| <= 1
    ensures found == [] <==> forall i | 0 <= i < |members| :: members[i].key != key
  {
    if members == [] then []
    else if members[0].key == key then [members[0].value]
    else Lookup(members[1..], key)
  }
}
