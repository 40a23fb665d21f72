/** The rate verdict of the Commission Calculator page (app.py,
    "Commission Calculator" page).  The amounts themselves are floating-point
    arithmetic and are not part of this model; the slider's rate is taken as
    an exact decimal. */
module Commission {

  /** The three verdicts on the total commission rate. */
  datatype RateClass = AboveAverage | LimitedServices | NormalRange

  /** Above 6.5% is above average, below 5.0% may mean limited services,
      everything from 5.0% to 6.5% inclusive is normal. */
  function Classify(ratePercent: real): (k: RateClass)
    ensures k == AboveAverage <==> ratePercent > 6.5
    ensures k == LimitedServices <==> ratePercent < 5.0
    ensures k == NormalRange <==> 5.0 <= ratePercent <= 6.5
  {
    if ratePercent > 6.5 then AboveAverage
    else if ratePercent < 5.0 then LimitedServices
    else NormalRange
  }

  /** The boundaries: 6.5 and 5.0 themselves are normal, and the verdict
      never gets better as the rate rises past 6.5. */
  lemma ClassifyBoundaries(r: real)
    ensures Classify(6.5) == NormalRange && Classify(5.0) == NormalRange
    ensures Classify(6.6) == AboveAverage && Classify(4.9) == LimitedServices
    ensures Classify(r) == AboveAverage ==> forall s :: s >= r ==> Classify(s) == AboveAverage
  {
  }
}
