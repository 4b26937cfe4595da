/** UTF-8 (RFC 3629) as the canonicalizer and the file reader check it. */
module Utf8 {
  import opened Exceptions
  import opened Octets

  predicate IsScalar(value: int) {
    0 <= value <= 0x10FFFF && !(0xD800 <= value <= 0xDFFF)
  }

  type Scalar = value: int | 0 <= value <= 0x10FFFF && !(0xD800 <= value <= 0xDFFF)

  // ---------------------------------------------------------------- the standard

  /** The table of section 3 of RFC 3629. */
  function EncodeScalar(value: Scalar): (bytes: Text)
    ensures 1 <= |bytes| <= 4
  {
    if value < 0x80 then [value]
    else if value < 0x800 then [0xC0 + value / 64, 0x80 + value % 64]
    else if value < 0x10000 then [0xE0 + value / 4096, 0x80 + value / 64 % 64, 0x80 + value % 64]
    else [0xF0 + value / 262144, 0x80 + value / 4096 % 64, 0x80 + value / 64 % 64, 0x80 + value % 64]
  }

  function Encode(values: seq<Scalar>): Text {
    if values == [] then [] else EncodeScalar(values[0]) + Encode(values[1..])
  }

  // ---------------------------------------------------------------- the decoder

  /** (value, length) of the sequence announced by a lead byte: its payload bits. */
  function Lead(first: Byte): Option<(nat, nat)> {
    if first <= 0x7F then Some((first, 1))
    else if 0xC2 <= first <= 0xDF then Some((first % 32, 2))
    else if 0xE0 <= first <= 0xEF then Some((first % 16, 3))
    else if 0xF0 <= first <= 0xF4 then Some((first % 8, 4))
    else None
  }

  /** Appends the payload bits of continuation bytes; None when one is not a continuation byte. */
  function Continue(value: nat, bytes: Text): Option<nat>
    decreases |bytes|
  {
    if bytes == [] then Some(value)
    else if bytes[0] / 64 != 2 then None
    else Continue(value * 64 + bytes[0] % 64, bytes[1..])
  }

  predicate Overlong(value: nat, length: nat) {
    || (length == 2 && value < 0x80)
    || (length == 3 && value < 0x800)
    || (length == 4 && value < 0x10000)
  }

  /** The first scalar value of a nonempty input and the bytes it takes. */
  function First(input: Text): (first: Option<(nat, nat)>)
    requires input != []
    ensures first.Some? ==> IsScalar(first.value.0) && 1 <= first.value.1 <= |input|
  {
    var lead := Lead(input[0]);
    if lead.None? || lead.value.1 > |input| then None
    else
      var value := Continue(lead.value.0, input[1..lead.value.1]);
      if value.None? || Overlong(value.value, lead.value.1) || !IsScalar(value.value) then None
      else Some((value.value, lead.value.1))
  }

  function Decode(input: Text): (values: Option<seq<Scalar>>)
    decreases |input|
  {
    if input == [] then Some([])
    else
      var first := First(input);
      if first.None? then None
      else
        var rest := Decode(input[first.value.1..]);
        if rest.None? then None else Some([first.value.0] + rest.value)
  }

  predicate IsUtf8(input: Text) {
    Decode(input).Some?
  }

  /** The loop over continuation bytes that both readers of UTF-8 run. */
  method ReadContinuations(input: Text, index: nat, length: nat, lead: nat) returns (result: Option<nat>)
    requires 1 <= length && index + length <= |input|
    ensures result == Continue(lead, input[index + 1..index + length])
  {
    var value: nat := lead;
    var offset := 1;
    while offset < length
      invariant 1 <= offset <= length
      invariant Continue(lead, input[index + 1..index + length])
              == Continue(value, input[index + offset..index + length])
    {
      ghost var bytes := input[index + offset..index + length];
      assert bytes[0] == input[index + offset] && bytes[1..] == input[index + offset + 1..index + length];
      var continuation := input[index + offset];
      if continuation / 64 != 2 {
        return None;
      }
      value := value * 64 + continuation % 64;
      offset := offset + 1;
    }
    return Some(value);
  }

  /** One step of the decoder at an index is First of what is left. */
  lemma FirstAt(input: Text, index: nat)
    requires index < |input|
    ensures var lead := Lead(input[index]);
            First(input[index..]) ==
              if lead.None? || lead.value.1 > |input| - index then None
              else
                var value := Continue(lead.value.0, input[index + 1..index + lead.value.1]);
                if value.None? || Overlong(value.value, lead.value.1) || !IsScalar(value.value) then None
                else Some((value.value, lead.value.1))
  {
    var lead := Lead(input[index]);
    if lead.Some? && lead.value.1 <= |input| - index {
      assert input[index..][1..lead.value.1] == input[index + 1..index + lead.value.1];
    }
  }

  function Prepend(values: seq<Scalar>, rest: Option<seq<Scalar>>): Option<seq<Scalar>> {
    if rest.None? then None else Some(values + rest.value)
  }

  lemma PrependNothing(input: Text)
    ensures Decode(input) == Prepend([], Decode(input[0..]))
  {
    assert input[0..] == input;
    var rest := Decode(input);
    if rest.Some? {
      assert [] + rest.value == rest.value;
    }
  }

  lemma DecodeStep(input: Text, index: nat, values: seq<Scalar>, value: Scalar, length: nat)
    requires index < |input| && First(input[index..]) == Some((value, length))
    ensures index + length <= |input|
    ensures Prepend(values, Decode(input[index..])) == Prepend(values + [value], Decode(input[index + length..]))
  {
    assert input[index..][length..] == input[index + length..];
    var rest := Decode(input[index + length..]);
    if rest.Some? {
      assert values + ([value] + rest.value) == (values + [value]) + rest.value;
    }
  }

  /** decode_utf8 of the canonicalizer. */
  method DecodeUtf8(input: Text) returns (result: Result<seq<Scalar>>)
    ensures result.Success? ==> Decode(input) == Some(result.value)
    ensures result.Failure? ==> Decode(input) == None && result.error == ContractError
  {
    var values: seq<Scalar> := [];
    var index := 0;
    PrependNothing(input);
    while index < |input|
      invariant 0 <= index <= |input|
      invariant Decode(input) == Prepend(values, Decode(input[index..]))
    {
      FirstAt(input, index);
      var lead := Lead(input[index]);
      if lead.None? || lead.value.1 > |input| - index {
        return Failure(ContractError);
      }
      var length := lead.value.1;
      var value := ReadContinuations(input, index, length, lead.value.0);
      if value.None? || Overlong(value.value, length) || !IsScalar(value.value) {
        return Failure(ContractError);
      }
      DecodeStep(input, index, values, value.value, length);
      values := values + [value.value];
      index := index + length;
    }
    assert values + [] == values;
    return Success(values);
  }

  /** is_valid_utf8 of the file reader: the same language by a different loop. */
  method IsValidUtf8(value: Text) returns (valid: bool)
    ensures valid <==> IsUtf8(value)
  {
    var index := 0;
    assert value[0..] == value;
    while index < |value|
      invariant 0 <= index <= |value|
      invariant IsUtf8(value) <==> IsUtf8(value[index..])
    {
      FirstAt(value, index);
      var first := value[index];
      if first <= 0x7F {
        DecodeStep(value, index, [], first, 1);
        index := index + 1;
        continue;
      }
      var count := 0;
      var payload := 0;
      if 0xC2 <= first <= 0xDF {
        count, payload := 1, first % 32;
      } else if 0xE0 <= first <= 0xEF {
        count, payload := 2, first % 16;
      } else if 0xF0 <= first <= 0xF4 {
        count, payload := 3, first % 8;
      } else {
        return false;
      }
      if index + count >= |value| {
        return false;
      }
      var codePoint := ReadContinuations(value, index, count + 1, payload);
      if codePoint.None? {
        return false;
      }
      if Overlong(codePoint.value, count + 1) || codePoint.value > 0x10FFFF || 0xD800 <= codePoint.value <= 0xDFFF {
        return false;
      }
      DecodeStep(value, index, [], codePoint.value, count + 1);
      index := index + count + 1;
    }
    return true;
  }

  // ---------------------------------------------------------------- decoder against the standard

  /** The six-bit digits of a value, and what the lead byte keeps of the highest one. */
  lemma Digits(value: Scalar)
    ensures value == value / 64 * 64 + value % 64
    ensures value / 64 == value / 4096 * 64 + value / 64 % 64
    ensures value / 4096 == value / 262144 * 64 + value / 4096 % 64
    ensures 0x80 <= value < 0x800 ==> (0xC0 + value / 64) % 32 == value / 64 && 2 <= value / 64
    ensures 0x800 <= value < 0x10000 ==> (0xE0 + value / 4096) % 16 == value / 4096
    ensures 0x10000 <= value ==> (0xF0 + value / 262144) % 8 == value / 262144 && value / 262144 <= 4
  {
  }

  ghost predicate Reads(code: Text, value: Scalar) {
    && code != [] && Lead(code[0]).Some? && Lead(code[0]).value.1 == |code|
    && Continue(Lead(code[0]).value.0, code[1..]) == Some(value)
  }

  lemma ReadsShort(value: Scalar)
    requires value < 0x800
    ensures Reads(EncodeScalar(value), value)
  {
    var code := EncodeScalar(value);
    if value < 0x80 {
      assert code[1..] == [];
    } else {
      Digits(value);
      assert code[1..] == [code[1]];
      ContinueOne(Lead(code[0]).value.0, code[1]);
    }
  }

  lemma ReadsThree(value: Scalar)
    requires 0x800 <= value < 0x10000
    ensures Reads(EncodeScalar(value), value)
  {
    var code := EncodeScalar(value);
    Digits(value);
    assert code[1..] == [code[1], code[2]];
    ContinueTwo(value / 4096, code[1], code[2]);
  }

  lemma ReadsFour(value: Scalar)
    requires 0x10000 <= value
    ensures Reads(EncodeScalar(value), value)
  {
    var code := EncodeScalar(value);
    Digits(value);
    assert code[1..] == [code[1], code[2], code[3]];
    ContinueThree(value / 262144, code[1], code[2], code[3]);
  }

  lemma FirstOfEncoded(value: Scalar, rest: Text)
    ensures First(EncodeScalar(value) + rest) == Some((value, |EncodeScalar(value)|))
  {
    var code := EncodeScalar(value);
    if value < 0x800 {
      ReadsShort(value);
    } else if value < 0x10000 {
      ReadsThree(value);
    } else {
      ReadsFour(value);
    }
    assert (code + rest)[1..|code|] == code[1..] && (code + rest)[0] == code[0];
  }

  lemma ContinueOne(value: nat, a: Byte)
    ensures Continue(value, [a]) == if a / 64 == 2 then Some(value * 64 + a % 64) else None
  {
    assert [a][1..] == [];
  }

  lemma ContinueTwo(value: nat, a: Byte, b: Byte)
    ensures a / 64 == 2 && b / 64 == 2 ==> Continue(value, [a, b]) == Some((value * 64 + a % 64) * 64 + b % 64)
    ensures a / 64 != 2 || b / 64 != 2 ==> Continue(value, [a, b]) == None
  {
    assert [a, b][1..] == [b] && [b][1..] == [];
    assert Continue(value * 64 + a % 64, [b])
            == if b / 64 != 2 then None else Continue((value * 64 + a % 64) * 64 + b % 64, []);
  }

  lemma ContinueThree(value: nat, a: Byte, b: Byte, c: Byte)
    ensures a / 64 == 2 && b / 64 == 2 && c / 64 == 2 ==>
              Continue(value, [a, b, c]) == Some(((value * 64 + a % 64) * 64 + b % 64) * 64 + c % 64)
    ensures a / 64 != 2 || b / 64 != 2 || c / 64 != 2 ==> Continue(value, [a, b, c]) == None
  {
    assert [a, b, c][1..] == [b, c];
    ContinueTwo(value * 64 + a % 64, b, c);
  }

  lemma WritesTwo(first: Byte, a: Byte)
    requires 0xC2 <= first <= 0xDF && a / 64 == 2
    ensures EncodeScalar(first % 32 * 64 + a % 64) == [first, a]
  {
    assert first == 0xC0 + first % 32 && a == 0x80 + a % 64;
  }

  lemma WritesThree(first: Byte, a: Byte, b: Byte)
    requires 0xE0 <= first <= 0xEF && a / 64 == 2 && b / 64 == 2
    ensures var value := (first % 16 * 64 + a % 64) * 64 + b % 64;
            IsScalar(value) && 0x800 <= value ==> EncodeScalar(value) == [first, a, b]
  {
    var value := (first % 16 * 64 + a % 64) * 64 + b % 64;
    assert first == 0xE0 + first % 16 && a == 0x80 + a % 64 && b == 0x80 + b % 64;
    assert value / 64 == first % 16 * 64 + a % 64 && value / 4096 == first % 16 && value % 64 == b % 64;
  }

  lemma WritesFour(first: Byte, a: Byte, b: Byte, c: Byte)
    requires 0xF0 <= first <= 0xF4 && a / 64 == 2 && b / 64 == 2 && c / 64 == 2
    ensures var value := ((first % 8 * 64 + a % 64) * 64 + b % 64) * 64 + c % 64;
            IsScalar(value) && 0x10000 <= value ==> EncodeScalar(value) == [first, a, b, c]
  {
    assert first == 0xF0 + first % 8;
    Continuation(a);
    Continuation(b);
    Continuation(c);
    EncodesFour(first % 8, a % 64, b % 64, c % 64);
  }

  lemma Continuation(a: Byte)
    requires a / 64 == 2
    ensures a == 0x80 + a % 64
  {
  }

  /** The four groups of bits of a scalar value of four bytes. */
  lemma EncodesFour(top: nat, x: nat, y: nat, z: nat)
    requires x < 64 && y < 64 && z < 64
    ensures var value := ((top * 64 + x) * 64 + y) * 64 + z;
            IsScalar(value) && 0x10000 <= value ==> EncodeScalar(value) == [0xF0 + top, 0x80 + x, 0x80 + y, 0x80 + z]
  {
    DropsSextet((top * 64 + x) * 64 + y, z);
    DropsSextet(top * 64 + x, y);
    DropsSextet(top, x);
    DropsMore(((top * 64 + x) * 64 + y) * 64 + z);
  }

  lemma DropsSextet(upper: nat, low: nat)
    requires low < 64
    ensures (upper * 64 + low) / 64 == upper && (upper * 64 + low) % 64 == low
  {
  }

  lemma DropsMore(value: nat)
    ensures value / 4096 == value / 64 / 64 && value / 262144 == value / 64 / 64 / 64
  {
  }

  /** What the decoder takes as one scalar value is that value's encoding. */
  lemma FirstIsEncoding(input: Text)
    requires input != [] && First(input).Some?
    ensures EncodeScalar(First(input).value.0) == input[..First(input).value.1]
  {
    var (payload, length) := Lead(input[0]).value;
    if length == 1 {
      assert input[1..1] == [] && input[..1] == [input[0]];
    } else if length == 2 {
      assert input[1..2] == [input[1]] && input[..2] == [input[0], input[1]];
      ContinueOne(payload, input[1]);
      WritesTwo(input[0], input[1]);
    } else if length == 3 {
      assert input[1..3] == [input[1], input[2]] && input[..3] == [input[0], input[1], input[2]];
      ContinueTwo(payload, input[1], input[2]);
      WritesThree(input[0], input[1], input[2]);
    } else {
      assert input[1..4] == [input[1], input[2], input[3]] && input[..4] == [input[0], input[1], input[2], input[3]];
      ContinueThree(payload, input[1], input[2], input[3]);
      WritesFour(input[0], input[1], input[2], input[3]);
    }
  }

  /** decode_utf8 accepts exactly the encodings of scalar value sequences, and inverts the encoding. */
  lemma {:induction false} DecodeInvertsEncode(values: seq<Scalar>)
    ensures Decode(Encode(values)) == Some(values)
    decreases |values|
  {
    if values != [] {
      var code := EncodeScalar(values[0]);
      var rest := Encode(values[1..]);
      FirstOfEncoded(values[0], rest);
      assert (code + rest)[|code|..] == rest;
      DecodeInvertsEncode(values[1..]);
      assert [values[0]] + values[1..] == values;
    }
  }

  lemma EncodeCons(value: Scalar, rest: seq<Scalar>)
    ensures Encode([value] + rest) == EncodeScalar(value) + Encode(rest)
  {
    assert ([value] + rest)[1..] == rest;
  }

  lemma {:induction false} EncodeInvertsDecode(input: Text)
    requires IsUtf8(input)
    ensures Encode(Decode(input).value) == input
    decreases |input|
  {
    hide First, EncodeScalar;
    if input != [] {
      var first := First(input).value;
      var tail := input[first.1..];
      EncodeInvertsDecode(tail);
      FirstIsEncoding(input);
      EncodeCons(first.0, Decode(tail).value);
      assert input == input[..first.1] + tail;
    }
  }

  lemma {:induction false} AsciiIsUtf8(text: Text)
    requires IsAscii(text)
    ensures IsUtf8(text)
    decreases |text|
  {
    if text != [] {
      AsciiIsUtf8(text[1..]);
    }
  }
}
