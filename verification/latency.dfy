/** Latency figures of windows-v2.6-beta/src/transcriber.py: the samples are
    kept in arrival order; `stop` and the session record report their average,
    minimum and maximum, and every tenth sample the average of the last ten
    is shown. */
module Latency {
  import opened Wrappers

  /** Python's `sum(xs)`: a left-to-right running total. */
  function Sum(xs: seq<real>): real
    decreases |xs|
  {
    if xs == [] then 0.0 else Sum(xs[..|xs| - 1]) + xs[|xs| - 1]
  }

  /** Python's `min(xs)`: the least sample. */
  function Min(xs: seq<real>): (m: real)
    requires |xs| > 0
    ensures m in xs
    ensures forall i | 0 <= i < |xs| :: m <= xs[i]
    decreases |xs|
  {
    if |xs| == 1 then xs[0]
    else
      var m := Min(xs[..|xs| - 1]);
      assert forall i | 0 <= i < |xs| - 1 :: xs[..|xs| - 1][i] == xs[i];
      if xs[|xs| - 1] < m then xs[|xs| - 1] else m
  }

  /** Python's `max(xs)`: the greatest sample. */
  function Max(xs: seq<real>): (m: real)
    requires |xs| > 0
    ensures m in xs
    ensures forall i | 0 <= i < |xs| :: xs[i] <= m
    decreases |xs|
  {
    if |xs| == 1 then xs[0]
    else
      var m := Max(xs[..|xs| - 1]);
      assert forall i | 0 <= i < |xs| - 1 :: xs[..|xs| - 1][i] == xs[i];
      if xs[|xs| - 1] > m then xs[|xs| - 1] else m
  }

  /** `sum(xs) / len(xs)`, evaluated only when there are samples. */
  function Mean(xs: seq<real>): real
    requires |xs| > 0
  {
    Sum(xs) / (|xs| as real)
  }

  /** A total of samples that all lie between `lo` and `hi` lies between
      `|xs| * lo` and `|xs| * hi`. */
  lemma {:induction false} SumBounds(xs: seq<real>, lo: real, hi: real)
    requires forall i | 0 <= i < |xs| :: lo <= xs[i] <= hi
    ensures (|xs| as real) * lo <= Sum(xs) <= (|xs| as real) * hi
    decreases |xs|
  {
    if xs != [] {
      var n := |xs| as real;
      var init := xs[..|xs| - 1];
      assert forall i | 0 <= i < |init| :: init[i] == xs[i];
      SumBounds(init, lo, hi);
      assert |init| as real == n - 1.0;
      assert Sum(xs) == Sum(init) + xs[|xs| - 1];
      OneMore(n - 1.0, lo);
      OneMore(n - 1.0, hi);
    }
  }

  lemma OneMore(m: real, x: real)
    ensures (m + 1.0) * x == m * x + x
  {
  }

  /** The average of the samples lies between their minimum and maximum. */
  lemma {:induction false} MeanBetween(xs: seq<real>)
    requires |xs| > 0
    ensures Min(xs) <= Mean(xs) <= Max(xs)
  {
    var lo, hi, total, n := Min(xs), Max(xs), Sum(xs), |xs| as real;
    SumBounds(xs, lo, hi);
    DivideBounds(total, n, lo, hi);
    assert Mean(xs) == total / n;
  }

  lemma DivideBounds(s: real, n: real, lo: real, hi: real)
    requires n > 0.0 && n * lo <= s <= n * hi
    ensures lo <= s / n <= hi
  {
    var q := s / n;
    assert q * n == s;
    if q < lo {
      MultiplyStrict(q, lo, n);
    }
    if q > hi {
      MultiplyStrict(hi, q, n);
    }
  }

  lemma MultiplyStrict(a: real, b: real, n: real)
    requires a < b && n > 0.0
    ensures a * n < b * n
  {
  }

  /** The `Average`, `Minimum` and `Maximum` figures of a session. */
  datatype Stats = Stats(average: real, minimum: real, maximum: real)

  /** The statistics block exists only when samples were taken; its
      average lies between its minimum and maximum, which are samples. */
  function StatsOf(xs: seq<real>): (r: Option<Stats>)
    ensures r.None? <==> xs == []
    ensures r.Some? ==> r.value.minimum in xs && r.value.maximum in xs
    ensures r.Some? ==> r.value.minimum <= r.value.average <= r.value.maximum
    ensures r.Some? ==> forall i | 0 <= i < |xs| :: r.value.minimum <= xs[i] <= r.value.maximum
  {
    if xs == [] then None
    else
      MeanBetween(xs);
      Some(Stats(Mean(xs), Min(xs), Max(xs)))
  }

  /** The `(latency, average of the last ten)` pair shown each time the
      sample count reaches a multiple of ten. */
  function Report(xs: seq<real>): (r: Option<(real, real)>)
    ensures r.Some? <==> |xs| > 0 && |xs| % 10 == 0
    ensures r.Some? ==> r.value.0 == xs[|xs| - 1]
    ensures r.Some? ==> r.value.1 == Mean(xs[|xs| - 10..])
    ensures r.Some? ==> Min(xs[|xs| - 10..]) <= r.value.1 <= Max(xs[|xs| - 10..])
  {
    if |xs| > 0 && |xs| % 10 == 0 then
      var last := xs[|xs| - 10..];
      MeanBetween(last);
      Some((xs[|xs| - 1], Sum(last) / 10.0))
    else None
  }

  lemma Example()
    ensures StatsOf([0.3, 0.1, 0.5]) == Some(Stats(0.3, 0.1, 0.5))
  {
    var xs := [0.3, 0.1, 0.5];
    assert xs[..2] == [0.3, 0.1] && xs[..2][..1] == [0.3] && xs[..2][..1][..0] == [];
    assert Sum(xs[..2][..1]) == 0.3;
    assert Sum(xs[..2]) == 0.4;
    assert Sum(xs) == 0.9;
    assert Min(xs[..2]) == 0.1 && Min(xs) == 0.1;
    assert Max(xs[..2]) == 0.3 && Max(xs) == 0.5;
  }
}
