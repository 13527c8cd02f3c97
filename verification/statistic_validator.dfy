/** The guard run before any parsing: the report must be present and must
    hold at least one non-whitespace character. */
module StatisticValidator {
  import opened Wrappers
  import opened JavaLang

  const EmptyStatisticMessage: string := "Cant process empty statistic"

  /** Throws NullPointerException on null and IllegalArgumentException on a
      blank string, in that order; passes everything else. */
  function Validate(statistic: Option<string>): (r: Outcome<Exception>)
    ensures r == Pass <==> statistic.Some? && !IsBlank(statistic.value)
    ensures statistic.None? ==> r == Fail(NullPointerException)
    ensures statistic.Some? && IsBlank(statistic.value) ==>
              r == Fail(IllegalArgumentException(EmptyStatisticMessage))
  {
    match statistic
    case None => Fail(NullPointerException)
    case Some(s) =>
      if IsBlank(s) then Fail(IllegalArgumentException(EmptyStatisticMessage)) else Pass
  }
}
