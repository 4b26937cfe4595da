/** Foreign code as uninterpreted functions, and the laws it is relied on for. */
module Foreign {
  import opened Exceptions
  import opened Octets
  import opened Json
  import opened Contract
  import opened Serialization
  import opened Rejections

  /** parse_json_strict: a document, or the contract error's code. */
  datatype Parsed = Document(value: Json) | NotStrict(code: Text)

  /** std::put_time on a count of seconds, and whether the year has four digits. */
  datatype Calendar = Calendar(text: Text, fourDigitYear: bool)

  datatype Library = Library(
    sha256Hex: Text -> Text,
    hmacSha256: (Text, Text) -> Text,
    parseStrict: Text -> Parsed,
    validIpAddress: Text -> bool,
    rfc3339Milliseconds: Text -> Option<int>,
    calendarOf: int -> Option<Calendar>)

  ghost predicate Lawful(library: Library) {
    && (forall x :: IsLowerHex(library.sha256Hex(x), 64))
    && (forall key, x :: |library.hmacSha256(key, x)| == 32)
    && (forall x :: library.parseStrict(x).NotStrict? ==> IsAscii(library.parseStrict(x).code))
    && (forall x :: ParsesStrictly(library, x))
    && (forall x :: CountsTime(library, x))
    && (forall seconds :: PrintsTime(library, seconds))
  }

  /**
   * What the strict parser accepts nests at most 128 containers, holds safe integers and valid text, and prints in
   * no more bytes than it had for its strings, and in no more than six times as many altogether. A text it accepts
   * holds no control character but the blanks, so that quoting it at most doubles it.
   */
  ghost predicate ParsesStrictly(library: Library, text: Text) {
    library.parseStrict(text).Document? ==>
      var value := library.parseStrict(text).value;
      && Shallow(value, MAXIMUM_NESTING) && TreeOk(value, 0) && TextOk(value)
      && |Dump(value)| <= 6 * |text| && |EscapeBytes(text)| <= 2 * |text|
      && (value.Obj? ==> forall m | m in value.members && m.value.Str? :: |EscapeBytes(m.value.text)| <= |text|)
  }

  /** Four-digit years keep the count of milliseconds within the safe integers. */
  ghost predicate CountsTime(library: Library, text: Text) {
    library.rfc3339Milliseconds(text).Some? ==> IsSafe(library.rfc3339Milliseconds(text).value)
  }

  ghost predicate PrintsTime(library: Library, seconds: int) {
    library.calendarOf(seconds).Some? ==>
      IsAscii(library.calendarOf(seconds).value.text) && |library.calendarOf(seconds).value.text| <= 40
  }

  /** Twenty-four characters of the form 2024-01-01T00:00:00.000Z. */
  predicate IsInstant(time: Timestamp) {
    time.Rfc3339? && |time.text| == 24 && IsAscii(time.text)
  }

  /** IUtcClock::now */
  method Now() returns (instant: Timestamp)
    ensures IsInstant(instant)
  {
    var digits: nat := *;
    var text := seq(24, i requires 0 <= i < 24 => ZERO + (digits / (i + 1)) % 10);
    return Rfc3339(text);
  }
}
