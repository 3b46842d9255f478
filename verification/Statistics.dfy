/** The confidence interval of a window of readings: minimum, mean and maximum. */
module Statistics {
  import opened FusionTypes

  function Sum(xs: seq<UnitReal>): real {
    if |xs| == 0 then 0.0 else Sum(xs[..|xs| - 1]) + xs[|xs| - 1]
  }

  function Min(xs: seq<UnitReal>): (m: UnitReal)
    requires |xs| > 0
    ensures m in xs && forall i :: 0 <= i < |xs| ==> m <= xs[i]
  {
    var last := xs[|xs| - 1];
    if |xs| == 1 then last
    else
      var m := Min(xs[..|xs| - 1]);
      if m <= last then m else last
  }

  function Max(xs: seq<UnitReal>): (m: UnitReal)
    requires |xs| > 0
    ensures m in xs && forall i :: 0 <= i < |xs| ==> xs[i] <= m
  {
    var last := xs[|xs| - 1];
    if |xs| == 1 then last
    else
      var m := Max(xs[..|xs| - 1]);
      if last <= m then m else last
  }

  lemma {:induction false} SumWithin(xs: seq<UnitReal>, lo: real, hi: real)
    requires forall i :: 0 <= i < |xs| ==> lo <= xs[i] <= hi
    ensures lo * (|xs| as real) <= Sum(xs) <= hi * (|xs| as real)
  {
    if |xs| > 0 {
      var n := |xs| - 1;
      SumWithin(xs[..n], lo, hi);
      assert (|xs| as real) == (n as real) + 1.0;
      assert lo * (|xs| as real) == lo * (n as real) + lo;
      assert hi * (|xs| as real) == hi * (n as real) + hi;
    }
  }

  lemma {:induction false} DivideBetween(s: real, n: real, lo: real, hi: real)
    requires n > 0.0 && lo * n <= s <= hi * n
    ensures lo <= s / n <= hi
  {
    var q := s / n;
    assert q * n == s;
    TimesPositive(q, lo, n);
    TimesPositive(hi, q, n);
  }

  lemma {:induction false} TimesPositive(a: real, b: real, n: real)
    requires n > 0.0
    ensures a < b ==> a * n < b * n
  {
    assert a < b ==> (b - a) * n > 0.0;
  }

  /** The mean of a non-empty window lies between its least and greatest reading. */
  lemma {:induction false} MeanWithin(xs: seq<UnitReal>, lo: real, hi: real)
    requires |xs| > 0
    requires forall i :: 0 <= i < |xs| ==> lo <= xs[i] <= hi
    ensures lo <= Sum(xs) / (|xs| as real) <= hi
  {
    SumWithin(xs, lo, hi);
    DivideBetween(Sum(xs), |xs| as real, lo, hi);
  }

  function Clamp(lo: real, x: real, hi: real): real {
    var capped := if x <= hi then x else hi;
    if lo <= capped then capped else lo
  }

  /** Minimum, clamped mean and maximum of a window. Over the reals the clamp never moves the
      mean, so the interval's score is the mean itself. */
  function WindowInterval(xs: seq<UnitReal>): (c: Confidence)
    requires |xs| > 0
    ensures c.score == Sum(xs) / (|xs| as real)
    ensures c.lower in xs && c.upper in xs
    ensures forall i :: 0 <= i < |xs| ==> c.lower <= xs[i] <= c.upper
  {
    var lo, hi := Min(xs), Max(xs);
    MeanWithin(xs, lo, hi);
    ConfidenceInterval(lo, Clamp(lo, Sum(xs) / (|xs| as real), hi), hi)
  }
}
