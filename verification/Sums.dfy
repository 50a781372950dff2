/** Sums over sequences of real and of natural numbers. */
module Sums {
  import opened Reals

  function Sum(s: seq<real>): real {
    if s == [] then 0.0 else Sum(s[..|s| - 1]) + s[|s| - 1]
  }

  function Mean(s: seq<real>): real
    requires s != []
  {
    Sum(s) / |s| as real
  }

  /** Sum of squared deviations from m. */
  function Spread(s: seq<real>, m: real): real {
    if s == [] then 0.0 else Spread(s[..|s| - 1], m) + Squared(s[|s| - 1] - m)
  }

  lemma {:induction false} SpreadPositive(s: seq<real>, m: real)
    ensures Spread(s, m) >= 0.0
  {
    if s != [] {
      SpreadPositive(s[..|s| - 1], m);
      SquarePositive(s[|s| - 1] - m);
    }
  }

  lemma SumExtends(s: seq<real>, x: real, m: real)
    ensures Sum(s + [x]) == Sum(s) + x
    ensures Spread(s + [x], m) == Spread(s, m) + Squared(x - m)
  {
    assert (s + [x])[..|s + [x]| - 1] == s;
  }

  /** The incremental mean update is exact. */
  lemma MeanExtends(s: seq<real>, x: real)
    ensures s == [] ==> Mean(s + [x]) == x
    ensures s != [] ==> Mean(s) + (x - Mean(s)) / (|s| + 1) as real == Mean(s + [x])
  {
    SumExtends(s, x, 0.0);
    if s == [] {
      assert Sum(s + [x]) == x;
    } else {
      MeanUpdate(|s| as real, Mean(s), Sum(s), x);
    }
  }

  lemma MeanUpdate(n: real, m: real, total: real, x: real)
    requires n > 0.0 && m == total / n
    ensures m + (x - m) / (n + 1.0) == (total + x) / (n + 1.0)
  {
    assert m * n == total;
    var r, d := (total + x) / (n + 1.0), (x - m) / (n + 1.0);
    assert r * (n + 1.0) == m * n + x;
    assert d * (n + 1.0) == x - m;
    assert (m + d) * (n + 1.0) == r * (n + 1.0);
  }

  // ---------- natural numbers ----------

  function Total(s: seq<nat>): nat {
    if s == [] then 0 else Total(s[..|s| - 1]) + s[|s| - 1]
  }

  lemma TotalNothing()
    ensures Total([]) == 0
  {
  }

  lemma {:induction false} TotalUpdate(s: seq<nat>, i: nat, x: nat)
    requires i < |s|
    ensures Total(s[i := x]) == Total(s) - s[i] + x
  {
    var front, last := s[..|s| - 1], |s| - 1;
    if i == last {
      assert s[i := x][..last] == front;
    } else {
      assert s[i := x][..last] == front[i := x];
      TotalUpdate(front, i, x);
    }
  }

  lemma TotalExtends(s: seq<nat>, x: nat)
    ensures Total(s + [x]) == Total(s) + x
  {
    assert (s + [x])[..|s + [x]| - 1] == s;
  }

  lemma TotalOfFour(s: seq<nat>, a: nat, b: nat, c: nat, d: nat)
    ensures Total(s + [a, b, c, d]) == Total(s) + a + b + c + d
  {
    hide Total;
    TotalExtends(s, a);
    TotalExtends(s + [a], b);
    TotalExtends(s + [a] + [b], c);
    TotalExtends(s + [a] + [b] + [c], d);
    assert s + [a, b, c, d] == s + [a] + [b] + [c] + [d];
  }
}
