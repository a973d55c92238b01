/** Worked examples of the GMT offset conversion. */
module CommonExamples {
  import opened PhpStrings
  import opened Common

  lemma OffsetValueExamples()
    ensures OffsetValue(10) == "+0500"
    ensures OffsetValue(-11) == "-05:30"
    ensures OffsetValue(20) == "+1000"
    ensures OffsetValue(0) == "+0000"
  {
    OffsetValueOfFive();
    OffsetValueOfMinusFiveAndAHalf();
    OffsetValueOfTen();
  }

  lemma OffsetValueOfFive()
    ensures OffsetValue(10) == "+0500"
  {
    assert NatToString(5) == "5";
  }

  lemma OffsetValueOfMinusFiveAndAHalf()
    ensures OffsetValue(-11) == "-05:30"
  {
    assert NatToString(5) == "5";
  }

  lemma OffsetValueOfTen()
    ensures OffsetValue(20) == "+1000"
  {
    assert NatToString(10) == NatToString(1) + [DigitChar(0)] == "10";
  }
}
