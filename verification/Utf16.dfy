/** UTF-16 code units: what object keys are sorted by (section 3.2.3 of RFC 8785). */
module Utf16 {
  import opened Exceptions
  import opened Octets
  import opened Utf8
  import opened Lexicographic

  function UnitsOfScalar(value: Scalar): (units: seq<int>)
    ensures 1 <= |units| <= 2
  {
    if value <= 0xFFFF then [value] else [0xD800 + (value - 0x10000) / 1024, 0xDC00 + (value - 0x10000) % 1024]
  }

  function Units(values: seq<Scalar>): seq<int> {
    if values == [] then [] else Units(values[..|values| - 1]) + UnitsOfScalar(values[|values| - 1])
  }

  /** The sort key of a valid string. */
  function SortKey(text: Text): seq<int> {
    if IsUtf8(text) then Units(Decode(text).value) else []
  }

  /** utf16_units */
  method Utf16Units(input: Text) returns (result: Result<seq<int>>)
    ensures result.Success? <==> IsUtf8(input)
    ensures result.Success? ==> result.value == SortKey(input)
    ensures result.Failure? ==> result.error == ContractError
  {
    hide Decode;
    var values :- DecodeUtf8(input);
    var units: seq<int> := [];
    for i := 0 to |values|
      invariant units == Units(values[..i])
    {
      assert values[..i + 1][..i] == values[..i];
      var codePoint: int := values[i];
      if codePoint <= 0xFFFF {
        units := units + [codePoint];
      } else {
        var adjusted := codePoint - 0x10000;
        units := units + [0xD800 + adjusted / 1024] + [0xDC00 + adjusted % 1024];
        assert [0xD800 + adjusted / 1024] + [0xDC00 + adjusted % 1024] == UnitsOfScalar(codePoint);
      }
    }
    assert values[..|values|] == values;
    return Success(units);
  }

  predicate IsLowSurrogate(unit: int) {
    0xDC00 <= unit <= 0xDFFF
  }

  /** The last unit tells how many units the last scalar value took. */
  lemma LastUnit(value: Scalar)
    ensures var units := UnitsOfScalar(value);
            |units| == (if IsLowSurrogate(units[|units| - 1]) then 2 else 1)
  {
  }

  lemma ScalarOfUnits(x: Scalar, y: Scalar)
    requires UnitsOfScalar(x) == UnitsOfScalar(y)
    ensures x == y
  {
    if x > 0xFFFF {
      assert UnitsOfScalar(x)[0] == UnitsOfScalar(y)[0] && UnitsOfScalar(x)[1] == UnitsOfScalar(y)[1];
      assert (x - 0x10000) == (x - 0x10000) / 1024 * 1024 + (x - 0x10000) % 1024;
    } else {
      assert UnitsOfScalar(x)[0] == x;
    }
  }

  /** No two strings of scalar values have the same code units. */
  lemma {:induction false} UnitsInjective(x: seq<Scalar>, y: seq<Scalar>)
    requires Units(x) == Units(y)
    ensures x == y
    decreases |x|
  {
    hide UnitsOfScalar, IsLowSurrogate;
    if x != [] && y != [] {
      var a, b := x[|x| - 1], y[|y| - 1];
      var front, other := Units(x[..|x| - 1]), Units(y[..|y| - 1]);
      LastUnit(a);
      LastUnit(b);
      assert Units(x)[|Units(x)| - 1] == UnitsOfScalar(a)[|UnitsOfScalar(a)| - 1];
      assert Units(y)[|Units(y)| - 1] == UnitsOfScalar(b)[|UnitsOfScalar(b)| - 1];
      assert front == Units(x)[..|front|] && other == Units(y)[..|other|];
      assert UnitsOfScalar(a) == Units(x)[|front|..] && UnitsOfScalar(b) == Units(y)[|other|..];
      ScalarOfUnits(a, b);
      UnitsInjective(x[..|x| - 1], y[..|y| - 1]);
      assert x == x[..|x| - 1] + [a] && y == y[..|y| - 1] + [b];
    }
  }

  /** Sort keys order distinct valid strings totally and strictly. */
  lemma SortKeysAreTotal(x: Text, y: Text)
    requires IsUtf8(x) && IsUtf8(y)
    ensures SortKey(x) == SortKey(y) <==> x == y
    ensures x != y ==> Less(SortKey(x), SortKey(y)) != Less(SortKey(y), SortKey(x))
    ensures !Less(SortKey(x), SortKey(x))
  {
    var u, v := SortKey(x), SortKey(y);
    if u == v {
      UnitsInjective(Decode(x).value, Decode(y).value);
      EncodeInvertsDecode(x);
      EncodeInvertsDecode(y);
    }
    Trichotomy(u, v);
    Irreflexive(u);
    if Less(u, v) && Less(v, u) {
      Transitive(u, v, u);
    }
  }
}
