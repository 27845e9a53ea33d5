/**
 * The "Summary Statistics" block: highest, lowest and average close and the
 * number of trading days, computed with exact real arithmetic (the ideal
 * meaning of pandas' `max`, `min`, `mean` and `len` on the Close column).
 */
module Stats {

  datatype Summary = Summary(highest: real, lowest: real, average: real, days: nat)

  function Sum(s: seq<real>): real
  {
    if |s| == 0 then 0.0 else s[0] + Sum(s[1..])
  }

  /** Largest element of a non-empty sequence (an element of it by MaxIsElement). */
  function Max(s: seq<real>): (m: real)
    requires |s| > 0
    ensures forall k :: 0 <= k < |s| ==> s[k] <= m
  {
    if |s| == 1 then s[0]
    else
      var rest := Max(s[1..]);
      if s[0] >= rest then s[0] else rest
  }

  /** Smallest element of a non-empty sequence (an element of it by MinIsElement). */
  function Min(s: seq<real>): (m: real)
    requires |s| > 0
    ensures forall k :: 0 <= k < |s| ==> m <= s[k]
  {
    if |s| == 1 then s[0]
    else
      var rest := Min(s[1..]);
      if s[0] <= rest then s[0] else rest
  }

  /** The largest element is one of the elements. */
  lemma {:induction false} MaxIsElement(s: seq<real>)
    requires |s| > 0
    ensures Max(s) in s
  {
    if |s| > 1 {
      MaxIsElement(s[1..]);
      assert Max(s[1..]) in s[1..];
    }
  }

  /** The smallest element is one of the elements. */
  lemma {:induction false} MinIsElement(s: seq<real>)
    requires |s| > 0
    ensures Min(s) in s
  {
    if |s| > 1 {
      MinIsElement(s[1..]);
      assert Min(s[1..]) in s[1..];
    }
  }

  /** A sum of values within [lo, hi] lies within [n * lo, n * hi]. */
  lemma {:induction false} SumBounds(s: seq<real>, lo: real, hi: real)
    requires forall k :: 0 <= k < |s| ==> lo <= s[k] <= hi
    ensures |s| as real * lo <= Sum(s) <= |s| as real * hi
  {
    if |s| > 0 {
      SumBounds(s[1..], lo, hi);
      assert |s| as real * lo == lo + (|s| - 1) as real * lo;
      assert |s| as real * hi == hi + (|s| - 1) as real * hi;
    }
  }

  /** Arithmetic mean of a non-empty sequence. */
  function Mean(s: seq<real>): real
    requires |s| > 0
  {
    Sum(s) / |s| as real
  }

  /** The mean times the count gives back the sum. */
  lemma MeanTimesCount(s: seq<real>)
    requires |s| > 0
    ensures Mean(s) * |s| as real == Sum(s)
  {
    DivMul(Sum(s), |s| as real);
  }

  /** The mean lies between the smallest and the largest element. */
  lemma MeanBounds(s: seq<real>)
    requires |s| > 0
    ensures Min(s) <= Mean(s) <= Max(s)
  {
    SumWithin(s);
    MeanBetween(Sum(s), |s|, Min(s), Max(s));
  }

  /** The sum lies between count times the smallest and count times the
      largest element. */
  lemma SumWithin(s: seq<real>)
    requires |s| > 0
    ensures |s| as real * Min(s) <= Sum(s) <= |s| as real * Max(s)
  {
    SumBounds(s, Min(s), Max(s));
  }

  /** The statistics over a non-empty Close column. */
  function Summarize(closes: seq<real>): (r: Summary)
    requires |closes| > 0
    ensures r.days == |closes|
    ensures forall k :: 0 <= k < |closes| ==> r.lowest <= closes[k] <= r.highest
  {
    Summary(Max(closes), Min(closes), Mean(closes), |closes|)
  }

  /** The average is the mean of the closes: times the day count it gives
      back their sum. */
  lemma AverageIsMean(closes: seq<real>)
    requires |closes| > 0
    ensures Summarize(closes).average * Summarize(closes).days as real == Sum(closes)
  {
    MeanTimesCount(closes);
  }

  /** The average lies between the lowest and the highest close. */
  lemma AverageBetween(closes: seq<real>)
    requires |closes| > 0
    ensures Summarize(closes).lowest <= Summarize(closes).average <= Summarize(closes).highest
  {
    MeanBounds(closes);
  }

  /** With a single close, that close is the highest, the lowest and the average. */
  lemma SingleClose(closes: seq<real>)
    requires |closes| == 1
    ensures var r := Summarize(closes);
            r.highest == r.lowest == r.average == closes[0]
  {
    assert closes[1..] == [];
    assert Sum(closes) == closes[0] + Sum(closes[1..]);
  }

  /** Dividing a total lying within [n * lo, n * hi] by n lands within [lo, hi]. */
  lemma MeanBetween(total: real, n: nat, lo: real, hi: real)
    requires n > 0
    requires n as real * lo <= total <= n as real * hi
    ensures lo <= total / n as real <= hi
  {
    var m := total / n as real;
    DivMul(total, n as real);
    ScaleLe(lo, m, n as real);
    ScaleLe(m, hi, n as real);
  }

  lemma DivMul(total: real, n: real)
    requires n > 0.0
    ensures total / n * n == total
  {
  }

  /** Cancelling a positive factor keeps an inequality. */
  lemma ScaleLe(a: real, b: real, n: real)
    requires n > 0.0 && n * a <= n * b
    ensures a <= b
  {
  }
}
