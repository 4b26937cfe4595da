/**
 * Base64 of rejection captures, base64url of the signing secret and of signatures (RFC 4648):
 * bytes to sextets, sextets to characters.
 */
module Base64 {
  import opened Exceptions
  import opened Octets

  const SECRET_CHARACTERS := 64
  const SECRET_BYTES := 48
  const DIGEST_BYTES := 32
  const SIGNATURE_CHARACTERS := 43
  const PAD: Byte := 0x3D

  type Sextet = n: int | 0 <= n < 64

  // ---------------------------------------------------------------- characters

  /** Sections 4 and 5 of RFC 4648: the alphabets differ in their last two characters. */
  function Character(n: Sextet, url: bool): Byte {
    if n < 26 then 0x41 + n
    else if n < 52 then 0x61 + (n - 26)
    else if n < 62 then 0x30 + (n - 52)
    else if n == 62 then (if url then 0x2D else 0x2B)
    else (if url then 0x5F else 0x2F)
  }

  /** decode_character */
  function DecodeCharacter(c: Byte): Option<Sextet> {
    if 0x41 <= c <= 0x5A then Some(c - 0x41)
    else if 0x61 <= c <= 0x7A then Some(c - 0x61 + 26)
    else if 0x30 <= c <= 0x39 then Some(c - 0x30 + 52)
    else if c == 0x2D then Some(62)
    else if c == 0x5F then Some(63)
    else None
  }

  function Characters(sextets: seq<Sextet>, url: bool): Text {
    seq(|sextets|, i requires 0 <= i < |sextets| => Character(sextets[i], url))
  }

  predicate IsUrlText(text: Text) {
    forall i | 0 <= i < |text| :: DecodeCharacter(text[i]).Some?
  }

  function DecodeCharacters(text: Text): seq<Sextet>
    requires IsUrlText(text)
  {
    seq(|text|, i requires 0 <= i < |text| => DecodeCharacter(text[i]).value)
  }

  lemma CharacterRoundTrip(n: Sextet, c: Byte)
    ensures DecodeCharacter(Character(n, true)) == Some(n)
    ensures DecodeCharacter(c).Some? ==> Character(DecodeCharacter(c).value, true) == c
  {
  }

  lemma CharactersRoundTrip(sextets: seq<Sextet>)
    ensures IsUrlText(Characters(sextets, true)) && DecodeCharacters(Characters(sextets, true)) == sextets
  {
    forall i | 0 <= i < |sextets| ensures DecodeCharacter(Characters(sextets, true)[i]) == Some(sextets[i]) {
      CharacterRoundTrip(sextets[i], 0);
    }
  }

  lemma TextRoundTrip(text: Text)
    requires IsUrlText(text)
    ensures Characters(DecodeCharacters(text), true) == text
  {
    forall i | 0 <= i < |text| ensures Characters(DecodeCharacters(text), true)[i] == text[i] {
      CharacterRoundTrip(0, text[i]);
    }
  }

  // ---------------------------------------------------------------- sextets

  function SplitThree(a: Byte, b: Byte, c: Byte): (sextets: seq<Sextet>)
    ensures |sextets| == 4
  {
    [a / 4, a % 4 * 16 + b / 16, b % 16 * 4 + c / 64, c % 64]
  }

  function JoinFour(a: Sextet, b: Sextet, c: Sextet, d: Sextet): (bytes: Text)
    ensures |bytes| == 3
  {
    [a * 4 + b / 16, b % 16 * 16 + c / 4, c % 4 * 64 + d]
  }

  function SplitWhole(bytes: Text): (sextets: seq<Sextet>)
    requires |bytes| % 3 == 0
    ensures 3 * |sextets| == 4 * |bytes|
    decreases |bytes|
  {
    var n := |bytes|;
    if n == 0 then [] else SplitWhole(bytes[..n - 3]) + SplitThree(bytes[n - 3], bytes[n - 2], bytes[n - 1])
  }

  /** Three bytes make four sextets; one or two bytes left over make two or three. */
  function Split(bytes: Text): seq<Sextet> {
    var n := |bytes|;
    if n % 3 == 1 then SplitWhole(bytes[..n - 1]) + SplitThree(bytes[n - 1], 0, 0)[..2]
    else if n % 3 == 2 then SplitWhole(bytes[..n - 2]) + SplitThree(bytes[n - 2], bytes[n - 1], 0)[..3]
    else SplitWhole(bytes)
  }

  function Join(sextets: seq<Sextet>): (bytes: Text)
    requires |sextets| % 4 == 0
    ensures |bytes| == |sextets| / 4 * 3
    decreases |sextets|
  {
    var n := |sextets|;
    if n == 0 then []
    else Join(sextets[..n - 4]) + JoinFour(sextets[n - 4], sextets[n - 3], sextets[n - 2], sextets[n - 1])
  }

  lemma JoinOfSplitThree(a: Byte, b: Byte, c: Byte)
    ensures var s := SplitThree(a, b, c); JoinFour(s[0], s[1], s[2], s[3]) == [a, b, c]
  {
  }

  lemma SplitOfJoinFour(a: Sextet, b: Sextet, c: Sextet, d: Sextet)
    ensures var x := JoinFour(a, b, c, d); SplitThree(x[0], x[1], x[2]) == [a, b, c, d]
  {
    var x := JoinFour(a, b, c, d);
    assert x[0] / 4 == a && x[0] % 4 * 16 + x[1] / 16 == b;
    assert x[1] % 16 * 4 + x[2] / 64 == c && x[2] % 64 == d;
  }

  lemma JoinSnoc(front: seq<Sextet>, s: seq<Sextet>)
    requires |front| % 4 == 0 && |s| == 4
    ensures |front + s| % 4 == 0 && Join(front + s) == Join(front) + JoinFour(s[0], s[1], s[2], s[3])
  {
    hide JoinFour;
    assert (front + s)[..|front + s| - 4] == front;
  }

  lemma SplitSnoc(front: Text, x: Text)
    requires |front| % 3 == 0 && |x| == 3
    ensures |front + x| % 3 == 0 && SplitWhole(front + x) == SplitWhole(front) + SplitThree(x[0], x[1], x[2])
  {
    hide SplitThree;
    assert (front + x)[..|front + x| - 3] == front;
  }

  lemma {:induction false} JoinOfSplit(bytes: Text)
    requires |bytes| % 3 == 0
    ensures |SplitWhole(bytes)| % 4 == 0 && Join(SplitWhole(bytes)) == bytes
    decreases |bytes|
  {
    hide *;
    NothingSplits();
    var n := |bytes|;
    if n == 0 {
      assert bytes == [];
    } else {
      var front, last := bytes[..n - 3], bytes[n - 3..];
      JoinOfSplit(front);
      JoinOfSplitSnoc(front, last);
      assert bytes == front + last;
    }
  }

  lemma NothingSplits()
    ensures SplitWhole([]) == [] && Join([]) == []
  {
  }

  lemma JoinOfSplitSnoc(front: Text, last: Text)
    requires |front| % 3 == 0 && |last| == 3 && |SplitWhole(front)| % 4 == 0 && Join(SplitWhole(front)) == front
    ensures |front + last| % 3 == 0 && |SplitWhole(front + last)| % 4 == 0
    ensures Join(SplitWhole(front + last)) == front + last
  {
    hide SplitThree, JoinFour, SplitWhole, Join;
    JoinOfSplitThree(last[0], last[1], last[2]);
    SplitSnoc(front, last);
    JoinSnoc(SplitWhole(front), SplitThree(last[0], last[1], last[2]));
    assert last == [last[0], last[1], last[2]];
  }

  lemma {:induction false} SplitOfJoin(sextets: seq<Sextet>)
    requires |sextets| % 4 == 0
    ensures |Join(sextets)| % 3 == 0 && SplitWhole(Join(sextets)) == sextets
    decreases |sextets|
  {
    hide SplitThree, JoinFour;
    var n := |sextets|;
    if n != 0 {
      SplitOfJoin(sextets[..n - 4]);
      var x := JoinFour(sextets[n - 4], sextets[n - 3], sextets[n - 2], sextets[n - 1]);
      SplitOfJoinFour(sextets[n - 4], sextets[n - 3], sextets[n - 2], sextets[n - 1]);
      SplitSnoc(Join(sextets[..n - 4]), x);
      assert sextets == sextets[..n - 4] + [sextets[n - 4], sextets[n - 3], sextets[n - 2], sextets[n - 1]];
    }
  }

  /** The sextets of two or three left-over bytes. */
  lemma ThreeInjective(a: Byte, b: Byte, c: Byte, x: Byte, y: Byte, z: Byte)
    ensures SplitThree(a, b, c) == SplitThree(x, y, z) ==> a == x && b == y && c == z
    ensures SplitThree(a, b, 0)[..3] == SplitThree(x, y, 0)[..3] ==> a == x && b == y
    ensures SplitThree(a, 0, 0)[..2] == SplitThree(x, 0, 0)[..2] ==> a == x
  {
    var s, t := SplitThree(a, b, c), SplitThree(x, y, z);
    if s == t {
      JoinOfSplitThree(a, b, c);
      JoinOfSplitThree(x, y, z);
      assert [a, b, c][0] == [x, y, z][0] && [a, b, c][1] == [x, y, z][1] && [a, b, c][2] == [x, y, z][2];
    }
    var s2, t2 := SplitThree(a, b, 0), SplitThree(x, y, 0);
    if s2[..3] == t2[..3] {
      JoinOfSplitThree(a, b, 0);
      JoinOfSplitThree(x, y, 0);
      assert s2 == s2[..3] + [0] && t2 == t2[..3] + [0];
      assert [a, b, 0][0] == [x, y, 0][0] && [a, b, 0][1] == [x, y, 0][1];
    }
    var s1, t1 := SplitThree(a, 0, 0), SplitThree(x, 0, 0);
    if s1[..2] == t1[..2] {
      JoinOfSplitThree(a, 0, 0);
      JoinOfSplitThree(x, 0, 0);
      assert s1 == s1[..2] + [0, 0] && t1 == t1[..2] + [0, 0];
      assert [a, 0, 0][0] == [x, 0, 0][0];
    }
  }

  lemma ConcatInjective<T>(a: seq<T>, b: seq<T>, c: seq<T>, d: seq<T>)
    requires a + b == c + d && |a| == |c|
    ensures a == c && b == d
  {
    assert (a + b)[..|a|] == a && (c + d)[..|a|] == c;
    assert (a + b)[|a|..] == b && (c + d)[|a|..] == d;
  }

  /** Whole groups of three are determined by their sextets, since joining inverts splitting. */
  lemma SplitWholeInjective(x: Text, y: Text)
    requires |x| == |y| && |x| % 3 == 0 && SplitWhole(x) == SplitWhole(y)
    ensures x == y
  {
    hide SplitWhole, Join;
    JoinOfSplit(x);
    JoinOfSplit(y);
  }

  /** Texts of the same length whose whole groups and left-over bytes have the same sextets. */
  lemma SplitTail(fx: Text, tx: seq<Sextet>, fy: Text, ty: seq<Sextet>)
    requires |fx| == |fy| && |fx| % 3 == 0 && SplitWhole(fx) + tx == SplitWhole(fy) + ty
    ensures fx == fy && tx == ty
  {
    hide SplitWhole;
    ConcatInjective(SplitWhole(fx), tx, SplitWhole(fy), ty);
    SplitWholeInjective(fx, fy);
  }

  lemma SplitOneInjective(x: Text, y: Text)
    requires |x| == |y| && |x| % 3 == 1 && Split(x) == Split(y)
    ensures x == y
  {
    hide SplitWhole, SplitThree;
    var n := |x| - 1;
    SplitTail(x[..n], SplitThree(x[n], 0, 0)[..2], y[..n], SplitThree(y[n], 0, 0)[..2]);
    ThreeInjective(x[n], 0, 0, y[n], 0, 0);
    assert x == x[..n] + [x[n]] && y == y[..n] + [y[n]];
  }

  lemma SplitTwoInjective(x: Text, y: Text)
    requires |x| == |y| && |x| % 3 == 2 && Split(x) == Split(y)
    ensures x == y
  {
    hide SplitWhole, SplitThree;
    var n := |x| - 2;
    SplitTail(x[..n], SplitThree(x[n], x[n + 1], 0)[..3], y[..n], SplitThree(y[n], y[n + 1], 0)[..3]);
    ThreeInjective(x[n], x[n + 1], 0, y[n], y[n + 1], 0);
    assert x == x[..n] + [x[n], x[n + 1]] && y == y[..n] + [y[n], y[n + 1]];
  }

  lemma SplitInjective(x: Text, y: Text)
    requires |x| == |y| && Split(x) == Split(y)
    ensures x == y
  {
    hide SplitWhole, SplitThree;
    if |x| % 3 == 1 {
      SplitOneInjective(x, y);
    } else if |x| % 3 == 2 {
      SplitTwoInjective(x, y);
    } else {
      SplitWholeInjective(x, y);
    }
  }

  // ---------------------------------------------------------------- the secret and the signature

  function EncodeUrl(bytes: Text): Text {
    Characters(Split(bytes), true)
  }

  function Four(encoded: Text, index: nat): (group: seq<Sextet>)
    requires index + 4 <= |encoded| && IsUrlText(encoded[index..index + 4])
    ensures |group| == 4
  {
    DecodeCharacters(encoded[index..index + 4])
  }

  lemma DecodeFour(encoded: Text, index: nat)
    requires index % 4 == 0 && index + 4 <= |encoded|
    requires IsUrlText(encoded[..index]) && IsUrlText(encoded[index..index + 4])
    ensures IsUrlText(encoded[..index + 4])
    ensures var g := Four(encoded, index);
            Join(DecodeCharacters(encoded[..index + 4]))
              == Join(DecodeCharacters(encoded[..index])) + JoinFour(g[0], g[1], g[2], g[3])
  {
    hide JoinFour, DecodeCharacter;
    var group := encoded[index..index + 4];
    var read := encoded[..index + 4];
    assert read == encoded[..index] + group;
    forall i | 0 <= i < |read| ensures DecodeCharacter(read[i]).Some? {
      if i >= index {
        assert read[i] == group[i - index];
      } else {
        assert read[i] == encoded[..index][i];
      }
    }
    assert DecodeCharacters(encoded[..index + 4]) == DecodeCharacters(encoded[..index]) + Four(encoded, index);
    JoinSnoc(DecodeCharacters(encoded[..index]), Four(encoded, index));
  }

  /** decode_secret: four characters at a time into three bytes. */
  method DecodeSecret(encoded: Text) returns (secret: Result<Text>)
    ensures secret.Success? <==> |encoded| == SECRET_CHARACTERS && IsUrlText(encoded)
    ensures secret.Success? ==> |secret.value| == SECRET_BYTES && secret.value == Join(DecodeCharacters(encoded))
  {
    hide DecodeCharacter, Join;
    if |encoded| != SECRET_CHARACTERS {
      return Failure(ContractError);
    }
    var decoded: Text := Join([]);
    var input := 0;
    assert DecodeCharacters(encoded[..0]) == [];
    while input < |encoded|
      invariant 0 <= input <= |encoded| && input % 4 == 0
      invariant IsUrlText(encoded[..input])
      invariant decoded == Join(DecodeCharacters(encoded[..input]))
    {
      var first := DecodeCharacter(encoded[input]);
      var second := DecodeCharacter(encoded[input + 1]);
      var third := DecodeCharacter(encoded[input + 2]);
      var fourth := DecodeCharacter(encoded[input + 3]);
      if first.None? || second.None? || third.None? || fourth.None? {
        return Failure(ContractError);
      }
      DecodeFour(encoded, input);
      decoded := decoded + JoinFour(first.value, second.value, third.value, fourth.value);
      input := input + 4;
    }
    assert encoded[..input] == encoded;
    return Success(decoded);
  }

  /** Every 48-byte key has a secret that decodes to it. */
  lemma SecretOfKey(key: Text)
    requires |key| == SECRET_BYTES
    ensures var secret := EncodeUrl(key);
            |secret| == SECRET_CHARACTERS && IsUrlText(secret) && Join(DecodeCharacters(secret)) == key
  {
    CharactersRoundTrip(Split(key));
    JoinOfSplit(key);
  }

  /** A secret is the encoding of its key, so no two secrets give the same key. */
  lemma KeyOfSecret(secret: Text)
    requires |secret| == SECRET_CHARACTERS && IsUrlText(secret)
    ensures EncodeUrl(Join(DecodeCharacters(secret))) == secret
  {
    SplitOfJoin(DecodeCharacters(secret));
    TextRoundTrip(secret);
  }

  /** encode_signature: a 32-byte digest always becomes 43 characters. */
  method EncodeSignature(digest: Text) returns (signature: Text)
    requires |digest| == DIGEST_BYTES
    ensures signature == EncodeUrl(digest) && |signature| == SIGNATURE_CHARACTERS && IsUrlText(signature)
  {
    ghost var sextets: seq<Sextet> := [];
    signature := [];
    var index := 0;
    while index + 3 <= |digest|
      invariant 0 <= index <= |digest| && index % 3 == 0
      invariant sextets == SplitWhole(digest[..index])
      invariant signature == Characters(sextets, true)
    {
      SplitSnoc(digest[..index], digest[index..index + 3]);
      assert digest[..index] + digest[index..index + 3] == digest[..index + 3];
      var block := SplitThree(digest[index], digest[index + 1], digest[index + 2]);
      sextets := sextets + block;
      signature := signature + Characters(block, true);
      index := index + 3;
    }
    var last := SplitThree(digest[index], digest[index + 1], 0)[..3];
    assert digest[..index] == digest[..|digest| - 2];
    sextets := sextets + last;
    assert sextets == Split(digest);
    signature := signature + Characters(last, true);
    CharactersRoundTrip(sextets);
  }

  /** Equal signatures come from equal digests. */
  lemma SignatureInjective(x: Text, y: Text)
    requires |x| == |y| && EncodeUrl(x) == EncodeUrl(y)
    ensures x == y
  {
    CharactersRoundTrip(Split(x));
    CharactersRoundTrip(Split(y));
    SplitInjective(x, y);
  }

  // ---------------------------------------------------------------- the capture of a rejection

  /** EVP_EncodeBlock */
  function EncodePadded(bytes: Text): Text {
    Characters(Split(bytes), false) + (if |bytes| % 3 == 1 then [PAD, PAD] else if |bytes| % 3 == 2 then [PAD] else [])
  }

  predicate IsBase64Character(c: Byte) {
    0x41 <= c <= 0x5A || 0x61 <= c <= 0x7A || 0x30 <= c <= 0x39 || c == 0x2B || c == 0x2F
  }

  function Padding(value: Text): (padding: nat)
    ensures padding <= 2 && padding <= |value|
  {
    if |value| >= 2 && value[|value| - 1] == PAD && value[|value| - 2] == PAD then 2
    else if |value| >= 1 && value[|value| - 1] == PAD then 1
    else 0
  }

  function DecodedSize(value: Text): Option<nat> {
    if |value| % 4 != 0 then None
    else if exists i :: 0 <= i < |value| - Padding(value) && !IsBase64Character(value[i]) then None
    else if |value| == 0 then Some(0)
    else Some(|value| / 4 * 3 - Padding(value))
  }

  /** decoded_base64_size */
  method DecodedBase64Size(value: Text) returns (size: Option<nat>)
    ensures size == DecodedSize(value)
  {
    if value == [] {
      return Some(0);
    }
    if |value| % 4 != 0 {
      return None;
    }
    var padding := Padding(value);
    var index := 0;
    while index < |value| - padding
      invariant 0 <= index <= |value| - padding
      invariant forall i | 0 <= i < index :: IsBase64Character(value[i])
    {
      if !IsBase64Character(value[index]) {
        return None;
      }
      index := index + 1;
    }
    return Some(|value| / 4 * 3 - padding);
  }

  lemma CharactersAreBase64(sextets: seq<Sextet>)
    ensures forall i | 0 <= i < |sextets| :: IsBase64Character(Characters(sextets, false)[i])
  {
  }

  /** The size the validator computes from an encoded capture is the size of the capture. */
  lemma DecodedSizeOfEncoded(bytes: Text)
    ensures DecodedSize(EncodePadded(bytes)) == Some(|bytes|)
  {
    var sextets := Split(bytes);
    CharactersAreBase64(sextets);
    SplitSize(bytes);
    hide Split, IsBase64Character, DecodedSize, Padding;
    var pads := if |bytes| % 3 == 1 then [PAD, PAD] else if |bytes| % 3 == 2 then [PAD] else [];
    SizeOfPadded(Characters(sextets, false), pads);
  }

  /** What is left over by three bytes makes two or three sextets. */
  lemma SplitSize(bytes: Text)
    ensures var left := |bytes| % 3;
            |Split(bytes)| == (|bytes| - left) / 3 * 4 + if left == 0 then 0 else left + 1
  {
    hide SplitThree;
  }

  /** Padding is no character of the text. */
  lemma SizeOfPadded(text: Text, pads: Text)
    requires forall i | 0 <= i < |text| :: IsBase64Character(text[i])
    requires pads in {[], [PAD], [PAD, PAD]} && (|text| + |pads|) % 4 == 0
    ensures DecodedSize(text + pads) == Some((|text| + |pads|) / 4 * 3 - |pads|)
  {
    var e := text + pads;
    if text != [] {
      assert IsBase64Character(text[|text| - 1]) && e[|text| - 1] == text[|text| - 1];
    }
    assert Padding(e) == |pads|;
    assert forall i | 0 <= i < |text| :: e[i] == text[i];
  }
}
