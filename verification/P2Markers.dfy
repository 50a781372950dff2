/**
 * The five-marker P-square quantile estimator of driftModel.ts, as a step function on
 * marker states, with the facts that hold after every step of every stream.
 */
module P2Markers {
  import opened Sorting

  /** Marker heights, marker positions (counted from 1) and desired positions. */
  datatype Markers = Markers(q: seq<real>, n: seq<int>, np: seq<real>)

  ghost predicate Five(m: Markers) { |m.q| == 5 && |m.n| == 5 && |m.np| == 5 }

  ghost predicate Increasing(n: seq<int>) {
    |n| == 5 && n[0] < n[1] < n[2] < n[3] < n[4]
  }

  /** A marker state whose positions never coincide, so no interpolation divides by zero. */
  ghost predicate Usable(m: Markers) { Five(m) && Increasing(m.n) }

  ghost predicate ValidQuantile(p: real) { 0.0 < p < 1.0 }

  /** Desired-position increments. */
  function Dn(p: real): seq<real> { [0.0, p / 2.0, p, (1.0 + p) / 2.0, 1.0] }

  // ---------- the step, in the order of the code ----------

  function Start(p: real, first: seq<real>): (m: Markers)
    requires |first| == 5
    ensures Usable(m)
  {
    Markers(Sort(Real, first), [1, 2, 3, 4, 5], [1.0, 1.0 + 2.0 * p, 1.0 + 4.0 * p, 3.0 + 2.0 * p, 5.0])
  }

  /** The scan for a cell from index i on; the code falls back to cell 0. */
  function Scan(q: seq<real>, x: real, i: nat): (k: nat)
    requires |q| == 5 && i <= 4
    ensures k <= 3
    decreases 4 - i
  {
    if i == 4 then 0
    else if q[i] <= x < q[i + 1] then i
    else Scan(q, x, i + 1)
  }

  function Cell(q: seq<real>, x: real): (k: nat)
    requires |q| == 5
    ensures k <= 3
  {
    if x < q[0] then 0 else if x >= q[4] then 3 else Scan(q, x, 0)
  }

  /** An outlier becomes the new extreme height. */
  function Widen(q: seq<real>, x: real): (r: seq<real>)
    requires |q| == 5
    ensures |r| == 5
  {
    if x < q[0] then q[0 := x] else if x >= q[4] then q[4 := x] else q
  }

  /** Positions right of cell k move up by one. */
  function Bump(n: seq<int>, k: nat): (r: seq<int>)
    requires |n| == 5
    ensures |r| == 5 && forall i | 0 <= i < 5 :: r[i] == if k < i then n[i] + 1 else n[i]
  {
    seq(5, i requires 0 <= i < 5 => if k < i then n[i] + 1 else n[i])
  }

  /** Every desired position moves by its increment. */
  function Advance(np: seq<real>, dn: seq<real>): (r: seq<real>)
    requires |np| == 5 && |dn| == 5
    ensures |r| == 5 && forall i | 0 <= i < 5 :: r[i] == np[i] + dn[i]
  {
    seq(5, i requires 0 <= i < 5 => np[i] + dn[i])
  }

  /** Steps 1 and 2: place the sample, move the positions right of its cell and every desired position. */
  function Place(p: real, m: Markers, x: real): (r: Markers)
    requires Usable(m)
    ensures Usable(r)
  {
    Markers(Widen(m.q, x), Bump(m.n, Cell(m.q, x)), Advance(m.np, Dn(p)))
  }

  /** How far step 3 moves interior marker i: one place towards its desired position, if there is room. */
  function Move(n: seq<int>, np: seq<real>, i: nat): (d: int)
    requires Increasing(n) && |np| == 5 && 1 <= i <= 3
    ensures -1 <= d <= 1
    ensures Increasing(n[i := n[i] + d])
  {
    var e := np[i] - n[i] as real;
    if e >= 1.0 && n[i + 1] - n[i] > 1 then 1
    else if e <= -1.0 && n[i - 1] - n[i] < -1 then -1
    else 0
  }

  /** c times a height difference over a position gap. */
  function Slope(c: int, rise: real, gap: int): real
    requires gap != 0
  {
    c as real * rise / gap as real
  }

  /** The parabola through three markers, moved by d from the middle one. */
  function Parabola(q0: real, q1: real, q2: real, n0: int, n1: int, n2: int, d: int): real
    requires n0 < n1 < n2
  {
    q1 + d as real / (n2 - n0) as real * (Slope(n1 - n0 + d, q2 - q1, n2 - n1) + Slope(n2 - n1 - d, q1 - q0, n1 - n0))
  }

  function Parabolic(q: seq<real>, n: seq<int>, i: nat, d: int): real
    requires |q| == 5 && Increasing(n) && 1 <= i <= 3
  {
    Parabola(q[i - 1], q[i], q[i + 1], n[i - 1], n[i], n[i + 1], d)
  }

  function Linear(q: seq<real>, n: seq<int>, i: nat, d: int): real
    requires |q| == 5 && Increasing(n) && 1 <= i <= 3 && (d == 1 || d == -1)
  {
    q[i] + Slope(d, q[i + d] - q[i], n[i + d] - n[i])
  }

  /** The height marker i takes when it moves by d. */
  function Height(q: seq<real>, n: seq<int>, i: nat, d: int): real
    requires |q| == 5 && Increasing(n) && 1 <= i <= 3 && (d == 1 || d == -1)
  {
    var qp := Parabolic(q, n, i, d);
    if q[i - 1] < qp < q[i + 1] then qp else Linear(q, n, i, d)
  }

  /** Step 3 for one interior marker. */
  function Adjust(m: Markers, i: nat): (r: Markers)
    requires Usable(m) && 1 <= i <= 3
    ensures Usable(r)
    ensures r.np == m.np && r.n == m.n[i := m.n[i] + Move(m.n, m.np, i)]
  {
    var d := Move(m.n, m.np, i);
    if d == 0 then m
    else Markers(m.q[i := Height(m.q, m.n, i, d)], m.n[i := m.n[i] + d], m.np)
  }

  function Step(p: real, m: Markers, x: real): (r: Markers)
    requires Usable(m)
    ensures Usable(r)
  {
    AdjustUpTo(Place(p, m, x), 3)
  }

  /** Step 3 for interior markers 1 to i, in that order. */
  function AdjustUpTo(m: Markers, i: nat): (r: Markers)
    requires Usable(m) && i <= 3
    ensures Usable(r)
  {
    if i == 0 then m else Adjust(AdjustUpTo(m, i - 1), i)
  }

  /** The markers after a whole stream. */
  function Run(p: real, s: seq<real>): (m: Markers)
    requires |s| >= 5
    ensures Usable(m)
  {
    if |s| == 5 then Start(p, s) else Step(p, Run(p, s[..|s| - 1]), s[|s| - 1])
  }

  lemma RunExtend(p: real, s: seq<real>, x: real)
    requires |s| >= 5
    ensures Run(p, s + [x]) == Step(p, Run(p, s), x)
  {
    assert (s + [x])[..|s + [x]| - 1] == s;
  }

  // ---------- rank tracking ----------

  /** How far marker i lags behind its desired position. */
  ghost function Lag(n: seq<int>, np: seq<real>, i: nat): real
    requires |n| == 5 && |np| == 5 && i < 5
  {
    np[i] - n[i] as real
  }

  ghost predicate Desired(p: real, cnt: int, np: seq<real>) {
    |np| == 5 && forall i | 0 <= i < 5 :: np[i] == 1.0 + (cnt - 1) as real * Dn(p)[i]
  }

  /** The outer markers are exact and every desired position is the ideal one. */
  ghost predicate Anchored(p: real, cnt: int, n: seq<int>, np: seq<real>) {
    Increasing(n) && n[0] == 1 && n[4] == cnt && Desired(p, cnt, np)
  }

  ghost predicate RankInvariant(p: real, cnt: int, n: seq<int>, np: seq<real>) {
    && Anchored(p, cnt, n, np)
    && -1.0 < Lag(n, np, 1) < 5.0
    && -2.0 < Lag(n, np, 2) < 3.0
    && -3.0 < Lag(n, np, 3) < 1.0
  }

  /** Desired positions are those of the quantiles 0, p/2, p, (1+p)/2 and 1. */
  lemma DesiredExplicit(p: real, cnt: int, np: seq<real>)
    requires Desired(p, cnt, np)
    ensures var t := (cnt - 1) as real;
      && np[0] == 1.0 && np[1] == 1.0 + t * (p / 2.0) && np[2] == 1.0 + t * p
      && np[3] == 1.0 + t * ((1.0 + p) / 2.0) && np[4] == cnt as real
  {
    var t := (cnt - 1) as real;
    assert np[0] == 1.0 + t * 0.0;
    assert np[4] == 1.0 + t * 1.0;
  }

  /** They are ordered, with a gap that grows with the stream. */
  lemma DesiredOrdered(p: real, cnt: int, np: seq<real>)
    requires ValidQuantile(p) && cnt >= 2 && Desired(p, cnt, np)
    ensures 1.0 == np[0] < np[1] < np[2] < np[3] < np[4] == cnt as real
  {
    var t := (cnt - 1) as real;
    assert np[1] == 1.0 + t * (p / 2.0);
    assert np[2] == 1.0 + t * p;
    assert np[3] == 1.0 + t * ((1.0 + p) / 2.0);
    assert np[4] == 1.0 + t * 1.0;
    var h := t * (p / 2.0);
    var g := t * ((1.0 - p) / 2.0);
    assert h > 0.0 && g > 0.0;
    assert t * p == h + h;
    assert t * ((1.0 + p) / 2.0) == t * p + g;
    assert t == t * ((1.0 + p) / 2.0) + g;
  }

  lemma PlaceAnchored(p: real, cnt: int, m: Markers, x: real)
    requires ValidQuantile(p) && Five(m) && Anchored(p, cnt, m.n, m.np)
    ensures var r := Place(p, m, x); Anchored(p, cnt + 1, r.n, r.np)
  {
    var r := Place(p, m, x);
    hide Cell, Widen;
    forall i | 0 <= i < 5 ensures r.np[i] == 1.0 + cnt as real * Dn(p)[i] {
      assert (cnt - 1) as real * Dn(p)[i] + Dn(p)[i] == cnt as real * Dn(p)[i];
    }
  }

  /** What placing a sample does to the lags: less than one sample's worth in either direction. */
  lemma PlaceLags(p: real, cnt: int, m: Markers, x: real)
    requires ValidQuantile(p) && Five(m) && Anchored(p, cnt, m.n, m.np)
    ensures var r := Place(p, m, x);
      && Anchored(p, cnt + 1, r.n, r.np)
      && forall i | 1 <= i <= 3 :: Lag(m.n, m.np, i) - 1.0 < Lag(r.n, r.np, i) < Lag(m.n, m.np, i) + 1.0
  {
    PlaceAnchored(p, cnt, m, x);
    hide Anchored, Cell, Widen, Desired;
    assert forall i | 1 <= i <= 3 :: 0.0 < Dn(p)[i] < 1.0;
    hide Dn;
  }

  /** The positions after step 3 has treated interior markers 1 to i. */
  ghost function MoveUpTo(n: seq<int>, np: seq<real>, i: nat): (r: seq<int>)
    requires Increasing(n) && |np| == 5 && i <= 3
    ensures Increasing(r)
  {
    if i == 0 then n
    else
      var prev := MoveUpTo(n, np, i - 1);
      prev[i := prev[i] + Move(prev, np, i)]
  }

  lemma {:induction false} CorrectionPositions(m: Markers, i: nat)
    requires Usable(m) && i <= 3
    ensures AdjustUpTo(m, i).n == MoveUpTo(m.n, m.np, i) && AdjustUpTo(m, i).np == m.np
  {
    hide Height, Move;
    if i > 0 { CorrectionPositions(m, i - 1); }
  }

  /** Marker 1: blocked above it is held by marker 2, blocked below it is at its least position. */
  lemma FirstMove(n: seq<int>, np: seq<real>)
    requires Increasing(n) && n[0] == 1 && |np| == 5 && 1.0 < np[1] < np[2]
    requires -2.0 < Lag(n, np, 1) < 6.0 && Lag(n, np, 2) < 4.0
    ensures -1.0 < Lag(n[1 := n[1] + Move(n, np, 1)], np, 1) < 5.0
  {
  }

  /** Marker 2: held by marker 3 above and by the corrected marker 1 below. */
  lemma SecondMove(n: seq<int>, np: seq<real>)
    requires Increasing(n) && |np| == 5 && np[1] < np[2] < np[3]
    requires -1.0 < Lag(n, np, 1) && -3.0 < Lag(n, np, 2) < 4.0 && Lag(n, np, 3) < 2.0
    ensures -2.0 < Lag(n[2 := n[2] + Move(n, np, 2)], np, 2) < 3.0
  {
  }

  /** Marker 3: held by the last position above and by the corrected marker 2 below. */
  lemma ThirdMove(n: seq<int>, np: seq<real>)
    requires Increasing(n) && |np| == 5 && np[2] < np[3] < np[4] == n[4] as real
    requires -2.0 < Lag(n, np, 2) && -4.0 < Lag(n, np, 3) < 2.0
    ensures -3.0 < Lag(n[3 := n[3] + Move(n, np, 3)], np, 3) < 1.0
  {
  }

  lemma MoveOne(n: seq<int>, np: seq<real>, i: nat)
    requires Increasing(n) && |np| == 5 && 1 <= i <= 3
    ensures var prev := MoveUpTo(n, np, i - 1); MoveUpTo(n, np, i) == prev[i := prev[i] + Move(prev, np, i)]
    ensures MoveUpTo(n, np, 0) == n
  {
    hide Move;
  }

  /** The three corrections in code order: a marker that cannot move is held by its neighbour's bound. */
  lemma CorrectionsTrack(p: real, cnt: int, n: seq<int>, np: seq<real>)
    requires ValidQuantile(p) && cnt >= 2 && Anchored(p, cnt, n, np)
    requires -2.0 < Lag(n, np, 1) < 6.0 && -3.0 < Lag(n, np, 2) < 4.0 && -4.0 < Lag(n, np, 3) < 2.0
    ensures RankInvariant(p, cnt, MoveUpTo(n, np, 3), np)
  {
    DesiredOrdered(p, cnt, np);
    assert |np| == 5;
    hide Desired, Move, MoveUpTo;
    MoveOne(n, np, 1);
    MoveOne(n, np, 2);
    MoveOne(n, np, 3);
    FirstMove(n, np);
    var n1, n2 := MoveUpTo(n, np, 1), MoveUpTo(n, np, 2);
    assert Lag(n1, np, 2) == Lag(n, np, 2) && Lag(n1, np, 3) == Lag(n, np, 3) && n1[4] == n[4];
    SecondMove(n1, np);
    assert Lag(n2, np, 1) == Lag(n1, np, 1) && Lag(n2, np, 3) == Lag(n, np, 3) && n2[4] == n[4];
    ThirdMove(n2, np);
  }

  lemma StepTracks(p: real, cnt: int, m: Markers, x: real)
    requires ValidQuantile(p) && cnt >= 5 && Five(m) && RankInvariant(p, cnt, m.n, m.np)
    ensures var r := Step(p, m, x); RankInvariant(p, cnt + 1, r.n, r.np)
  {
    hide AdjustUpTo, MoveUpTo, Place, Desired;
    PlaceLags(p, cnt, m, x);
    var r := Place(p, m, x);
    CorrectionsTrack(p, cnt + 1, r.n, r.np);
    CorrectionPositions(r, 3);
  }

  lemma StartTracks(p: real, first: seq<real>)
    requires ValidQuantile(p) && |first| == 5
    ensures RankInvariant(p, 5, Start(p, first).n, Start(p, first).np)
  {
    var m := Start(p, first);
    assert Desired(p, 5, m.np) by {
      assert m.np[3] == 1.0 + 4.0 * ((1.0 + p) / 2.0);
    }
  }

  /**
   * No stream makes ranks drift: the outer positions are exact, the desired positions are the
   * ideal ones, and the three inner markers stay within a fixed distance of theirs.
   */
  lemma {:induction false} RanksNeverDrift(p: real, s: seq<real>)
    requires ValidQuantile(p) && |s| >= 5
    ensures RankInvariant(p, |s|, Run(p, s).n, Run(p, s).np)
  {
    hide Step, Start;
    if |s| == 5 {
      StartTracks(p, s);
    } else {
      RanksNeverDrift(p, s[..|s| - 1]);
      StepTracks(p, |s| - 1, Run(p, s[..|s| - 1]), s[|s| - 1]);
    }
  }
}
