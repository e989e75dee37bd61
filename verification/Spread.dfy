/** How far the values of a column are spread. */
module Spread {
  import opened Outcomes

  function Total(values: seq<real>): real {
    if values == [] then 0.0 else Total(values[..|values| - 1]) + values[|values| - 1]
  }

  function Squares(values: seq<real>): real {
    if values == [] then 0.0 else Squares(values[..|values| - 1]) + values[|values| - 1] * values[|values| - 1]
  }

  /** How many there are, their total, and the total of their squares. */
  method SumsOf(values: seq<real>) returns (count: nat, total: real, squares: real)
    ensures count == |values| && total == Total(values) && squares == Squares(values)
  {
    count, total, squares := 0, 0.0, 0.0;
    for at := 0 to |values|
      invariant count == at && total == Total(values[..at]) && squares == Squares(values[..at])
    {
      assert values[..at + 1][..at] == values[..at];
      count := count + 1;
      total := total + values[at];
      squares := squares + values[at] * values[at];
    }
    assert values[..|values|] == values;
  }

  function Clamped(spread: real): real {
    if spread > 0.0 then spread else 0.0
  }

  function Squared(d: real): real {
    d * d
  }

  /** What the squares exceed the square of the total, shared out, by. */
  function SpreadOf(count: nat, total: real, squares: real): real
    requires count > 0
  {
    squares - Squared(total) / (count as real)
  }

  /** The variance of values with these sums, or None where there is none. */
  function Variance(count: nat, total: real, squares: real, sample: bool): Option<real>
    requires count > 0
  {
    if sample && count < 2 then None
    else Some(Clamped(SpreadOf(count, total, squares)) / ((if sample then count - 1 else count) as real))
  }

  function Times(a: real, b: real): real {
    a * b
  }

  /** The squares of how far each value is from a point, added up. */
  function Deviations(values: seq<real>, mean: real): real {
    if values == [] then 0.0
    else Deviations(values[..|values| - 1], mean) + Squared(values[|values| - 1] - mean)
  }

  lemma SquareOfADifference(x: real, m: real)
    ensures Squared(x - m) == x * x - 2.0 * (m * x) + m * m
    ensures Squared(x - m) >= 0.0
  {
  }

  lemma OneMoreDeviation(d: real, squares: real, total: real, x: real, m: real, n: real)
    requires d == squares - 2.0 * Times(m, total) + Times(n, Squared(m))
    ensures d + Squared(x - m) == (squares + x * x) - 2.0 * Times(m, total + x) + Times(n + 1.0, Squared(m))
  {
    SquareOfADifference(x, m);
    assert m * (total + x) == m * total + m * x;
    assert (n + 1.0) * (m * m) == n * (m * m) + m * m;
  }

  lemma {:induction false} DeviationsFromSums(values: seq<real>, mean: real)
    ensures Deviations(values, mean)
            == Squares(values) - 2.0 * Times(mean, Total(values)) + Times(|values| as real, Squared(mean))
    ensures Deviations(values, mean) >= 0.0
  {
    assert Times(mean, 0.0) == 0.0 && Times(0.0, Squared(mean)) == 0.0;
    hide Times;
    if values != [] {
      var n := |values| - 1;
      DeviationsFromSums(values[..n], mean);
      SquareOfADifference(values[n], mean);
      OneMoreDeviation(Deviations(values[..n], mean), Squares(values[..n]), Total(values[..n]), values[n], mean,
                       n as real);
      assert |values| as real == (n as real) + 1.0;
    }
    hide Squared;
  }

  lemma SpreadAboutTheMean(spread: real, squares: real, total: real, count: nat, mean: real)
    requires count > 0 && mean == total / (count as real)
    requires spread == squares - 2.0 * Times(mean, total) + Times(count as real, Squared(mean))
    ensures SpreadOf(count, total, squares) == spread
  {
    var n := count as real;
    assert mean * n == total;
    assert n * (mean * mean) == mean * total;
    assert total * total / n == mean * total;
  }

  lemma VarianceOfSpread(count: nat, total: real, squares: real, sample: bool)
    requires count > (if sample then 1 else 0) && SpreadOf(count, total, squares) >= 0.0
    ensures Variance(count, total, squares, sample)
         == Some(SpreadOf(count, total, squares) / ((if sample then count - 1 else count) as real))
  {
    hide SpreadOf;
  }

  /** One pass over the values gives the mean of the squared deviations from
      their mean, over n or n - 1; the spread is never negative, so the clamp
      changes nothing. */
  lemma OnePassIsTwoPass(values: seq<real>, sample: bool)
    requires |values| > (if sample then 1 else 0)
    ensures var n, mean := |values|, Total(values) / (|values| as real);
            && SpreadOf(n, Total(values), Squares(values)) == Deviations(values, mean) >= 0.0
            && Variance(n, Total(values), Squares(values), sample)
               == Some(Deviations(values, mean) / ((if sample then n - 1 else n) as real))
  {
    hide *;
    var n, mean := |values|, Total(values) / (|values| as real);
    DeviationsFromSums(values, mean);
    SpreadAboutTheMean(Deviations(values, mean), Squares(values), Total(values), n, mean);
    VarianceOfSpread(n, Total(values), Squares(values), sample);
  }
}
