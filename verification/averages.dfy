/** The incremental average rating of utils.js. */
module Averages {
  import opened Options
  import opened Restaurants

  /**
   The whole number nearest to num / den, an exact half rounded up: the
   model of `toFixed(1)` on one-decimal values, an exact half taken upward.
   */
  function RoundHalfUp(num: nat, den: nat): (q: nat)
    requires den > 0
    ensures 2 * den * q <= 2 * num + den < 2 * den * q + 2 * den
  {
    (2 * num + den) / (2 * den)
  }

  /** Only one whole number is within half a unit (ties up) of num / den. */
  lemma RoundHalfUpUnique(num: nat, den: nat, q: nat)
    requires den > 0
    requires 2 * den * q <= 2 * num + den < 2 * den * q + 2 * den
    ensures q == RoundHalfUp(num, den)
  {
    var p := RoundHalfUp(num, den);
    assert 2 * den * q < 2 * den * (p + 1);
    MulCancel(2 * den, q, p + 1);
    assert 2 * den * p < 2 * den * (q + 1);
    MulCancel(2 * den, p, q + 1);
  }

  lemma MulCancel(a: nat, x: nat, y: nat)
    requires a * x < a * y
    ensures x < y
  {
    if y <= x {
      MulMono(a, y, x);
    }
  }

  lemma MulMono(a: nat, x: nat, y: nat)
    requires x <= y
    ensures a * x <= a * y
  {
  }

  /**
   The reference formula: an old average `rating` over `count` reviews, with one
   new rating folded in, rounded to one decimal.
   */
  function WeightedAverage(rating: Tenths, count: nat, newRating: Tenths): (avg: Tenths)
    ensures (2 * avg - 1) * (count + 1) <= 2 * (rating * count + newRating) < (2 * avg + 1) * (count + 1)
  {
    RoundHalfUp(rating * count + newRating, count + 1)
  }

  /** A missing or zero count both read as zero. */
  function NormalizedCount(c: Option<nat>): nat
  {
    match c
    case None => 0
    case Some(n) => n
  }

  /** The result of getAverageNumber together with the record as the call leaves it. */
  datatype Averaged = Averaged(average: Tenths, record: Restaurant)

  /**
   getAverageNumber: folds the newest review into the stored average. A missing
   count is written back to the record as 0; nothing else about the record changes.
   */
  function GetAverageNumber(r: Restaurant): (res: Averaged)
    ensures |r.reviews| == 0 ==> res == Averaged(0, r)
    ensures |r.reviews| > 0 ==>
      res.record == r.(userRatingsTotal := Some(NormalizedCount(r.userRatingsTotal)))
    ensures |r.reviews| > 0 ==>
      res.average == WeightedAverage(r.rating, NormalizedCount(r.userRatingsTotal), r.reviews[|r.reviews| - 1].rating)
  {
    if |r.reviews| == 0 then
      Averaged(0, r)
    else
      var normalized :=
        if r.userRatingsTotal.None? || r.userRatingsTotal.value == 0
        then r.(userRatingsTotal := Some(0))
        else r;
      var total := normalized.rating * normalized.userRatingsTotal.value
        + normalized.reviews[|normalized.reviews| - 1].rating;
      Averaged(RoundHalfUp(total, normalized.userRatingsTotal.value + 1), normalized)
  }

  /** With no earlier count the new average is the newest review's rating itself. */
  lemma FirstReviewIsExact(r: Restaurant)
    requires |r.reviews| > 0
    requires NormalizedCount(r.userRatingsTotal) == 0
    ensures GetAverageNumber(r).average == r.reviews[|r.reviews| - 1].rating
  {
    var x := r.reviews[|r.reviews| - 1].rating;
    RoundHalfUpUnique(x, 1, x);
  }

  /** An old average and a newest rating within 0..5 stars give an average within 0..5 stars. */
  lemma AverageStaysInRange(r: Restaurant)
    requires r.rating <= 50
    requires |r.reviews| > 0 ==> r.reviews[|r.reviews| - 1].rating <= 50
    ensures GetAverageNumber(r).average <= 50
  {
    if |r.reviews| > 0 {
      var t := NormalizedCount(r.userRatingsTotal);
      var x := r.reviews[|r.reviews| - 1].rating;
      var avg := GetAverageNumber(r).average;
      MulMono(t, r.rating, 50);
      assert r.rating * t + x <= 50 * (t + 1);
      if avg > 50 {
        MulMono(2 * (t + 1), 51, avg);
        assert false;
      }
    }
  }

  /** Earlier reviews play no part: only the stored average, the count and the last review do. */
  lemma OnlyLastReviewCounts(r: Restaurant, s: Restaurant)
    requires |r.reviews| > 0 && |s.reviews| > 0
    requires r.rating == s.rating
    requires NormalizedCount(r.userRatingsTotal) == NormalizedCount(s.userRatingsTotal)
    requires r.reviews[|r.reviews| - 1].rating == s.reviews[|s.reviews| - 1].rating
    ensures GetAverageNumber(r).average == GetAverageNumber(s).average
  {
  }
}
