/** Byte strings: what std::string holds. */
module Octets {

  type Byte = b: int | 0 <= b < 256

  type Text = seq<Byte>

  predicate IsAscii(text: Text) {
    forall i | 0 <= i < |text| :: text[i] < 128
  }

  /** The bytes of a literal; only ASCII literals are written in this project. */
  function Ascii(s: string): (text: Text)
    ensures |text| == |s| && IsAscii(text)
  {
    seq(|s|, i requires 0 <= i < |s| => if s[i] < 128 as char then s[i] as int else 0x3F)
  }
}
