/** Worked examples of the validators on concrete inputs. */
module ValidationExamples {
  import opened Text
  import opened Validation

  /** A worked example: the body 12345678 sums to 138. */
  lemma RutExampleSum()
    ensures WeightedSum("12345678") == Finite(138)
  {
    var s := "12345678";
    assert s[1..] == "2345678";
    assert s[1..][1..] == "345678";
    assert s[3..] == "45678";
    assert s[4..] == "5678";
    assert s[5..] == "678";
    assert s[6..] == "78";
    assert s[7..] == "8";
    assert WeightedSum("8") == Finite(16);
    assert WeightedSum("78") == Finite(37);
    assert WeightedSum("678") == Finite(61);
    assert WeightedSum("5678") == Finite(86);
    assert WeightedSum("45678") == Finite(110);
    assert WeightedSum("345678") == Finite(131);
    assert WeightedSum("2345678") == Finite(135);
  }

  /** 138 mod 11 is 6, so the verifier is 11 - 6 = 5, and 12345678-5 is a
      valid RUT. */
  lemma RutExample()
    ensures RutAccepts("123456785")
  {
    var body, rut := "12345678", "123456785";
    assert rut == body + ['5'];
    RutExampleCheckDigit();
    RutExampleClean();
    RutAcceptsByParts(rut, body, '5');
  }

  lemma RutExampleCheckDigit()
    ensures CheckDigitOf(WeightedSum("12345678")) == "5"
  {
    RutExampleSum();
    assert JsRem(138, 11) == 6;
  }

  /** A string of digits has no separator to remove. */
  lemma RutExampleClean()
    ensures CleanRut("123456785") == "123456785"
  {
    var rut := "123456785";
    forall i | 0 <= i < |rut| ensures !IsRutSeparator(rut[i]) {
      assert IsDigit(rut[i]);
    }
    CleanOfClean(rut);
  }
}
