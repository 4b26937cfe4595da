/** A reference reader of compact JSON text, independent of the writers, and the proof that it inverts them. */
module JsonReader {
  import opened Exceptions
  import opened Octets
  import opened Json

  // ---------------------------------------------------------------- strings

  function HexValue(b: Byte): Option<nat> {
    if ZERO <= b <= 0x39 then Some(b - ZERO) else if 0x61 <= b <= 0x66 then Some(b - 0x61 + 10) else None
  }

  function Unescaped(b: Byte): Option<Byte> {
    if b == QUOTE || b == BACKSLASH then Some(b)
    else if b == 0x62 then Some(0x08)
    else if b == 0x74 then Some(0x09)
    else if b == 0x6E then Some(0x0A)
    else if b == 0x66 then Some(0x0C)
    else if b == 0x72 then Some(0x0D)
    else None
  }

  /** One character of a string, and how many bytes wrote it. */
  function ReadCharacter(text: Text): (read: Option<(Byte, nat)>)
    ensures read.Some? ==> 1 <= read.value.1 <= |text|
  {
    if text == [] || text[0] == QUOTE || text[0] < 0x20 then None
    else if text[0] != BACKSLASH then Some((text[0], 1))
    else if |text| < 2 then None
    else if text[1] != 0x75 then
      var byte := Unescaped(text[1]);
      if byte.None? then None else Some((byte.value, 2))
    else if |text| < 6 || text[2] != ZERO || text[3] != ZERO then None
    else if HexValue(text[4]).None? || HexValue(text[5]).None? then None
    else Some((HexValue(text[4]).value * 16 + HexValue(text[5]).value, 6))
  }

  /** The rest of a string after its opening quote. */
  function ReadString(text: Text): (read: Option<(Text, Text)>)
    ensures read.Some? ==> |read.value.1| < |text|
    decreases |text|
  {
    if text != [] && text[0] == QUOTE then Some(([], text[1..]))
    else
      var first := ReadCharacter(text);
      if first.None? then None
      else
        var rest := ReadString(text[first.value.1..]);
        if rest.None? then None else Some(([first.value.0] + rest.value.0, rest.value.1))
  }

  lemma ReadEscaped(b: Byte, rest: Text)
    ensures ReadCharacter(EscapeByte(b) + rest) == Some((b, |EscapeByte(b)|))
    ensures (EscapeByte(b) + rest)[0] != QUOTE
    ensures (EscapeByte(b) + rest)[|EscapeByte(b)|..] == rest
  {
  }

  lemma {:induction false} ReadEscapedBytes(s: Text, rest: Text)
    ensures ReadString(EscapeBytes(s) + [QUOTE] + rest) == Some((s, rest))
    decreases |s|
  {
    hide EscapeByte, ReadCharacter;
    if s == [] {
      var text := [QUOTE] + rest;
      assert EscapeBytes(s) + [QUOTE] + rest == text && text[0] == QUOTE && text[1..] == rest;
    } else {
      var tail := EscapeBytes(s[1..]) + [QUOTE] + rest;
      assert EscapeBytes(s) + [QUOTE] + rest == EscapeByte(s[0]) + tail;
      ReadEscaped(s[0], tail);
      ReadEscapedBytes(s[1..], rest);
      assert [s[0]] + s[1..] == s;
    }
  }

  // ---------------------------------------------------------------- numbers

  /** How many digits the text begins with. */
  function DigitRun(text: Text): (length: nat)
    ensures length <= |text|
    ensures forall i | 0 <= i < length :: IsDigit(text[i])
  {
    if text == [] || !IsDigit(text[0]) then 0 else 1 + DigitRun(text[1..])
  }

  function NatOf(digits: Text): nat
    requires forall i | 0 <= i < |digits| :: IsDigit(digits[i])
  {
    if digits == [] then 0
    else
      assert IsDigit(digits[|digits| - 1]);
      NatOf(digits[..|digits| - 1]) * 10 + (digits[|digits| - 1] - ZERO)
  }

  lemma {:induction false} NatOfText(n: nat)
    ensures forall i | 0 <= i < |NatText(n)| :: IsDigit(NatText(n)[i])
    ensures NatText(n) != [] && NatOf(NatText(n)) == n
  {
    if n >= 10 {
      NatOfText(n / 10);
      var front := NatText(n / 10);
      assert NatText(n)[..|front|] == front;
    } else {
      assert NatText(n)[..0] == [];
    }
  }

  lemma {:induction false} RunOfDigits(digits: Text, rest: Text)
    requires forall i | 0 <= i < |digits| :: IsDigit(digits[i])
    requires rest == [] || !IsDigit(rest[0])
    ensures DigitRun(digits + rest) == |digits|
    decreases |digits|
  {
    if digits == [] {
      assert digits + rest == rest;
    } else {
      assert (digits + rest)[1..] == digits[1..] + rest;
      RunOfDigits(digits[1..], rest);
    }
  }

  function ReadNat(text: Text): (read: Option<(nat, Text)>)
    ensures read.Some? ==> |read.value.1| < |text|
  {
    var length := DigitRun(text);
    if length == 0 then None else Some((NatOf(text[..length]), text[length..]))
  }

  lemma ReadNatText(n: nat, rest: Text)
    requires rest == [] || !IsDigit(rest[0])
    ensures ReadNat(NatText(n) + rest) == Some((n, rest))
  {
    var digits := NatText(n);
    NatOfText(n);
    RunOfDigits(digits, rest);
    assert (digits + rest)[..|digits|] == digits && (digits + rest)[|digits|..] == rest;
  }

  // ---------------------------------------------------------------- values

  predicate StartsWith(text: Text, word: Text) {
    word <= text
  }

  function ReadValue(text: Text): (read: Option<(Json, Text)>)
    ensures read.Some? ==> |read.value.1| < |text|
    decreases |text|, 0
  {
    if text == [] then None
    else if StartsWith(text, NullText()) then Some((Null, text[4..]))
    else if StartsWith(text, TrueText()) then Some((Bool(true), text[4..]))
    else if StartsWith(text, FalseText()) then Some((Bool(false), text[5..]))
    else if text[0] == QUOTE then
      var read := ReadString(text[1..]);
      if read.None? then None else Some((Str(read.value.0), read.value.1))
    else if text[0] == MINUS then
      var read := ReadNat(text[1..]);
      if read.None? then None
      else
        var magnitude: int := read.value.0;
        Some((Int(-magnitude), read.value.1))
    else if IsDigit(text[0]) then
      var read := ReadNat(text);
      if read.None? then None else Some((Int(read.value.0), read.value.1))
    else if text[0] == OPEN_BRACKET then
      if |text| > 1 && text[1] == CLOSE_BRACKET then Some((Arr([]), text[2..]))
      else
        var read := ReadItems(text[1..]);
        if read.None? then None else Some((Arr(read.value.0), read.value.1))
    else if text[0] == OPEN_BRACE then
      if |text| > 1 && text[1] == CLOSE_BRACE then Some((Obj([]), text[2..]))
      else
        var read := ReadMembers(text[1..]);
        if read.None? then None else Some((Obj(read.value.0), read.value.1))
    else None
  }

  /** Items up to and including the closing bracket; at least one. */
  function ReadItems(text: Text): (read: Option<(seq<Json>, Text)>)
    ensures read.Some? ==> |read.value.1| < |text|
    decreases |text|, 1
  {
    var first := ReadValue(text);
    if first.None? || first.value.1 == [] then None
    else
      var after := first.value.1;
      if after[0] == CLOSE_BRACKET then Some(([first.value.0], after[1..]))
      else if after[0] != COMMA then None
      else
        var rest := ReadItems(after[1..]);
        if rest.None? then None else Some(([first.value.0] + rest.value.0, rest.value.1))
  }

  function ReadMember(text: Text): (read: Option<(Member, Text)>)
    ensures read.Some? ==> |read.value.1| < |text|
    decreases |text|, 1
  {
    if text == [] || text[0] != QUOTE then None
    else
      var key := ReadString(text[1..]);
      if key.None? || key.value.1 == [] || key.value.1[0] != COLON then None
      else
        var value := ReadValue(key.value.1[1..]);
        if value.None? then None else Some((Member(key.value.0, value.value.0), value.value.1))
  }

  function ReadMembers(text: Text): (read: Option<(seq<Member>, Text)>)
    ensures read.Some? ==> |read.value.1| < |text|
    decreases |text|, 2
  {
    var first := ReadMember(text);
    if first.None? || first.value.1 == [] then None
    else
      var after := first.value.1;
      if after[0] == CLOSE_BRACE then Some(([first.value.0], after[1..]))
      else if after[0] != COMMA then None
      else
        var rest := ReadMembers(after[1..]);
        if rest.None? then None else Some(([first.value.0] + rest.value.0, rest.value.1))
  }

  // ---------------------------------------------------------------- the reader inverts the writer

  /** Text that cannot continue a number. */
  predicate Ends(rest: Text) {
    rest == [] || !IsDigit(rest[0])
  }

  lemma ReadWord(value: Json, rest: Text)
    requires value.Null? || value.Bool?
    ensures ReadValue(Dump(value) + rest) == Some((value, rest))
  {
    var word := Dump(value);
    assert (word + rest)[|word|..] == rest && word <= word + rest;
    assert (word + rest)[0] == word[0];
  }

  lemma ReadNumber(number: int, rest: Text)
    requires Ends(rest)
    ensures ReadValue(Dump(Int(number)) + rest) == Some((Int(number), rest))
  {
    hide NatText, ReadNat;
    var text := Dump(Int(number)) + rest;
    var magnitude := if number < 0 then -number else number;
    NatOfText(magnitude);
    ReadNatText(magnitude, rest);
    if number < 0 {
      assert text[1..] == NatText(magnitude) + rest && text[0] == MINUS;
    } else {
      assert text == NatText(magnitude) + rest && text[0] == NatText(magnitude)[0];
    }
    assert text[0] < 0x61;
  }

  lemma ReadText(s: Text, rest: Text)
    ensures ReadValue(Dump(Str(s)) + rest) == Some((Str(s), rest))
  {
    hide EscapeBytes, ReadString;
    var text := Dump(Str(s)) + rest;
    ReadEscapedBytes(s, rest);
    assert text[0] == QUOTE && text[1..] == EscapeBytes(s) + [QUOTE] + rest;
  }

  /** No value's text begins with a closing bracket. */
  lemma Opens(value: Json)
    ensures Dump(value) != [] && Dump(value)[0] != CLOSE_BRACKET
  {
    hide NatText, DumpItems, DumpMembers, EscapeBytes;
    if value.Int? {
      NatOfText(if value.number < 0 then -value.number else value.number);
    }
  }

  lemma {:induction false} ReadDump(value: Json, rest: Text)
    requires Ends(rest)
    ensures ReadValue(Dump(value) + rest) == Some((value, rest))
    decreases value, 0
  {
    match value {
      case Null => ReadWord(value, rest);
      case Bool(_) => ReadWord(value, rest);
      case Int(number) => ReadNumber(number, rest);
      case Str(s) => ReadText(s, rest);
      case Arr(items) =>
        if items != [] {
          ReadDumpItems(items, rest);
        }
        ReadArray(items, rest);
      case Obj(members) =>
        if members != [] {
          ReadDumpMembers(members, rest);
        }
        ReadObject(members, rest);
    }
  }

  lemma ReadArray(items: seq<Json>, rest: Text)
    requires items != [] ==> ReadItems(DumpItems(items) + [CLOSE_BRACKET] + rest) == Some((items, rest))
    ensures ReadValue(Dump(Arr(items)) + rest) == Some((Arr(items), rest))
  {
    hide ReadItems;
    var text := Dump(Arr(items)) + rest;
    var inner := DumpItems(items) + [CLOSE_BRACKET] + rest;
    assert text == [OPEN_BRACKET] + inner;
    assert text[0] == OPEN_BRACKET && text[1..] == inner;
    if items == [] {
      assert text[1] == CLOSE_BRACKET && text[2..] == rest;
    } else {
      Opens(items[0]);
      assert text[1] == Dump(items[0])[0];
    }
  }

  lemma ReadObject(members: seq<Member>, rest: Text)
    requires members != [] ==> ReadMembers(DumpMembers(members) + [CLOSE_BRACE] + rest) == Some((members, rest))
    ensures ReadValue(Dump(Obj(members)) + rest) == Some((Obj(members), rest))
  {
    hide ReadMembers, EscapeBytes;
    var text := Dump(Obj(members)) + rest;
    var inner := DumpMembers(members) + [CLOSE_BRACE] + rest;
    assert text == [OPEN_BRACE] + inner;
    assert text[0] == OPEN_BRACE && text[1..] == inner;
    if members == [] {
      assert text[1] == CLOSE_BRACE && text[2..] == rest;
    } else {
      assert text[1] == QUOTE;
    }
  }

  lemma {:induction false} ReadDumpItems(items: seq<Json>, rest: Text)
    requires items != []
    ensures ReadItems(DumpItems(items) + [CLOSE_BRACKET] + rest) == Some((items, rest))
    decreases items, 1
  {
    hide Dump, ReadValue, ReadItems;
    var text := DumpItems(items) + [CLOSE_BRACKET] + rest;
    if |items| == 1 {
      assert text == Dump(items[0]) + ([CLOSE_BRACKET] + rest);
      ReadDump(items[0], [CLOSE_BRACKET] + rest);
      ReadLastItem(items[0], rest);
      assert [items[0]] == items;
    } else {
      var tail := DumpItems(items[1..]) + [CLOSE_BRACKET] + rest;
      assert text == Dump(items[0]) + ([COMMA] + tail);
      ReadDump(items[0], [COMMA] + tail);
      ReadDumpItems(items[1..], rest);
      ReadFirstItem(items[0], items[1..], tail, rest);
      assert [items[0]] + items[1..] == items;
    }
  }

  lemma ReadLastItem(item: Json, rest: Text)
    requires ReadValue(Dump(item) + ([CLOSE_BRACKET] + rest)) == Some((item, [CLOSE_BRACKET] + rest))
    ensures ReadItems(Dump(item) + ([CLOSE_BRACKET] + rest)) == Some(([item], rest))
  {
    hide Dump, ReadValue;
    assert ([CLOSE_BRACKET] + rest)[1..] == rest;
  }

  lemma ReadFirstItem(item: Json, others: seq<Json>, text: Text, rest: Text)
    requires ReadValue(Dump(item) + ([COMMA] + text)) == Some((item, [COMMA] + text))
    requires ReadItems(text) == Some((others, rest))
    ensures ReadItems(Dump(item) + ([COMMA] + text)) == Some(([item] + others, rest))
  {
    hide Dump, ReadValue;
    assert ([COMMA] + text)[1..] == text;
  }

  lemma ReadDumpMember(member: Member, rest: Text)
    requires Ends(rest)
    ensures ReadMember(DumpMember(member) + rest) == Some((member, rest))
    decreases member, 1
  {
    hide Dump, ReadValue, EscapeBytes, ReadString;
    var text := DumpMember(member) + rest;
    var after := [COLON] + (Dump(member.value) + rest);
    assert text == [QUOTE] + (EscapeBytes(member.key) + [QUOTE] + after);
    ReadEscapedBytes(member.key, after);
    assert text[0] == QUOTE && text[1..] == EscapeBytes(member.key) + [QUOTE] + after;
    assert after[0] == COLON && after[1..] == Dump(member.value) + rest;
    ReadDump(member.value, rest);
  }

  lemma ReadLastMember(member: Member, rest: Text)
    requires ReadMember(DumpMember(member) + ([CLOSE_BRACE] + rest)) == Some((member, [CLOSE_BRACE] + rest))
    ensures ReadMembers(DumpMember(member) + ([CLOSE_BRACE] + rest)) == Some(([member], rest))
  {
    hide DumpMember, ReadMember;
    assert ([CLOSE_BRACE] + rest)[1..] == rest;
  }

  lemma ReadFirstMember(member: Member, others: seq<Member>, text: Text, rest: Text)
    requires ReadMember(DumpMember(member) + ([COMMA] + text)) == Some((member, [COMMA] + text))
    requires ReadMembers(text) == Some((others, rest))
    ensures ReadMembers(DumpMember(member) + ([COMMA] + text)) == Some(([member] + others, rest))
  {
    hide DumpMember, ReadMember;
    assert ([COMMA] + text)[1..] == text;
  }

  lemma {:induction false} ReadDumpMembers(members: seq<Member>, rest: Text)
    requires members != []
    ensures ReadMembers(DumpMembers(members) + [CLOSE_BRACE] + rest) == Some((members, rest))
    decreases members, 2
  {
    hide DumpMember, ReadMember, ReadMembers;
    var text := DumpMembers(members) + [CLOSE_BRACE] + rest;
    if |members| == 1 {
      assert text == DumpMember(members[0]) + ([CLOSE_BRACE] + rest);
      ReadDumpMember(members[0], [CLOSE_BRACE] + rest);
      ReadLastMember(members[0], rest);
      assert [members[0]] == members;
    } else {
      var tail := DumpMembers(members[1..]) + [CLOSE_BRACE] + rest;
      assert text == DumpMember(members[0]) + ([COMMA] + tail);
      ReadDumpMember(members[0], [COMMA] + tail);
      ReadDumpMembers(members[1..], rest);
      ReadFirstMember(members[0], members[1..], tail, rest);
      assert [members[0]] + members[1..] == members;
    }
  }

  /** Different values have different texts. */
  lemma DumpInjective(x: Json, y: Json)
    requires Dump(x) == Dump(y)
    ensures x == y
  {
    hide Dump, ReadValue;
    ReadDump(x, []);
    ReadDump(y, []);
    assert Dump(x) + [] == Dump(y) + [];
  }
}
