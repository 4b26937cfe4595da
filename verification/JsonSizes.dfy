/** How long JSON text is, and how it grows by one array item or one changed member. */
module JsonSizes {
  import opened Json

  function DigitCount(value: nat): (digits: nat)
    ensures digits >= 1
  {
    if value < 10 then 1 else 1 + DigitCount(value / 10)
  }

  /** decimal_digit_count */
  method DecimalDigitCount(value: nat) returns (digits: nat)
    ensures digits == DigitCount(value)
  {
    digits := 1;
    var rest := value;
    while rest >= 10
      invariant digits - 1 + DigitCount(rest) == DigitCount(value)
    {
      rest := rest / 10;
      digits := digits + 1;
    }
  }

  lemma {:induction false} NatTextLength(value: nat)
    ensures |NatText(value)| == DigitCount(value)
  {
    if value >= 10 {
      NatTextLength(value / 10);
    }
  }

  lemma {:induction false} DigitCountGrows(value: nat)
    ensures DigitCount(value) <= DigitCount(value + 1) <= DigitCount(value) + 1
  {
    if value >= 9 {
      DigitCountGrows(value / 10);
      assert (value + 1) / 10 == value / 10 || (value + 1) / 10 == value / 10 + 1;
    }
  }

  /** A changed member changes the object's text by the difference of the two members' texts. */
  lemma {:induction false} DumpMembersUpdate(members: seq<Member>, i: nat, member: Member)
    requires i < |members|
    ensures |DumpMembers(members[i := member])| - |DumpMember(member)|
            == |DumpMembers(members)| - |DumpMember(members[i])|
    decreases |members|
  {
    if i > 0 {
      DumpMembersUpdate(members[1..], i - 1, member);
      assert members[i := member][1..] == members[1..][i - 1 := member];
    } else {
      assert members[i := member][1..] == members[1..];
    }
  }
}
