/** The time test shared by both branches of the streak claim.
    Instants are JavaScript `Date` values, modelled as integer milliseconds
    since the epoch; subtracting two of them yields their distance in ms. */
module Days {

  /** Milliseconds in one day: 24 * 60 * 60 * 1000. */
  const OneDayInMillis: int := 24 * 60 * 60 * 1000

  function Abs(x: real): (r: real)
    ensures r >= 0.0 && (r == x || r == -x)
  {
    if x < 0.0 then -x else x
  }

  /** `areConsecutiveDays`: the distance between the two instants, counted in
      (fractional) days, is below two. The division is written over the
      reals; the contract gives the equivalent integer test on milliseconds,
      a distance below 172800000 ms. `Abs` stands for `Math.abs`. */
  function AreConsecutiveDays(date1: int, date2: int): (r: bool)
    ensures r <==> -2 * OneDayInMillis < date1 - date2 < 2 * OneDayInMillis
  {
    var diffInDays := Abs((date1 - date2) as real / OneDayInMillis as real);
    diffInDays < 2.0
  }

  /** The test does not depend on the order of its arguments. */
  lemma ConsecutiveDaysSymmetric(date1: int, date2: int)
    ensures AreConsecutiveDays(date1, date2) == AreConsecutiveDays(date2, date1)
  {
  }

  /** An instant is always within two days of itself. */
  lemma ConsecutiveDaysReflexive(date: int)
    ensures AreConsecutiveDays(date, date)
  {
  }
}
