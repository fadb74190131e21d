/** Token estimation by character count. */
module Budget {

  const CHARS_PER_TOKEN: real := 4.0

  /** The least integer not below x, as `math.ceil` computes it. */
  function Ceil(x: real): (n: int)
    ensures n as real - 1.0 < x <= n as real
  {
    -(-x).Floor
  }

  function EstimateTokens(text: string, charsPerToken: real): (n: nat)
    requires charsPerToken > 0.0
  {
    var quotient := |text| as real / charsPerToken;
    assert quotient >= 0.0;
    Ceil(quotient)
  }

  /** With four characters a token: a text is within n tokens exactly when it has at most 4n characters. */
  lemma QuarterTokens(text: string, n: int)
    ensures EstimateTokens(text, CHARS_PER_TOKEN) <= n <==> |text| <= 4 * n
    ensures EstimateTokens(text, CHARS_PER_TOKEN) == (|text| + 3) / 4
  {
    var q := |text| as real / 4.0;
    var c := EstimateTokens(text, CHARS_PER_TOKEN);
    assert q * 4.0 == |text| as real;
    assert (4 * c) as real == 4.0 * c as real;
    assert 4 * c - 4 < |text| <= 4 * c;
  }
}
