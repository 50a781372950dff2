/** The class P2Quantile of driftModel.ts, updated in place and tied to the markers of its stream. */
module Quantile {
  import opened Sorting
  import opened P2Markers
  import opened P2Heights

  /** A JavaScript number as the code tells them apart. */
  datatype Number = NotFinite | Finite(value: real)

  function Samples(x: Number): seq<real> { if x.Finite? then [x.value] else [] }

  class P2Quantile {
    const p: real
    var q: seq<real>
    var n: seq<int>
    var np: seq<real>
    var dn: seq<real>
    var init: seq<real>
    var cnt: nat
    /** Every finite sample observed so far. */
    ghost var stream: seq<real>

    ghost predicate Valid()
      reads this
    {
      && ValidQuantile(p)
      && cnt == |stream|
      && (cnt < 5 ==> init == stream && q == [] && n == [] && np == [] && dn == [])
      && (cnt >= 5 ==> |q| == 5 && |n| == 5 && |np| == 5 && dn == Dn(p) && Markers(q, n, np) == Run(p, stream))
    }

    constructor (p: real)
      requires ValidQuantile(p)
      ensures Valid() && stream == [] && this.p == p
    {
      this.p := p;
      q, n, np, dn, init, cnt := [], [], [], [], [], 0;
      stream := [];
    }

    /** One sample: the fields become the markers of the longer stream; other numbers change nothing. */
    method Observe(x: Number)
      requires Valid()
      modifies this
      ensures Valid()
      ensures stream == old(stream) + Samples(x)
    {
      hide Step, P2Markers.Start;
      if x.NotFinite? { return; }
      cnt := cnt + 1;
      stream := stream + [x.value];
      if cnt <= 5 {
        init := init + [x.value];
        if cnt == 5 { Start(); }
        return;
      }
      Update(x.value);
      RunExtend(p, old(stream), x.value);
    }

    /** The three steps taken for every sample after the fifth. */
    method Update(x: real)
      requires Usable(Markers(q, n, np)) && dn == Dn(p)
      modifies `q, `n, `np
      ensures Usable(Markers(q, n, np)) && Markers(q, n, np) == Step(p, old(Markers(q, n, np)), x)
    {
      hide Adjust;
      var k := Locate(x);
      IncrementPositions(k);
      for i := 1 to 4
        invariant Usable(Markers(q, n, np))
        invariant Markers(q, n, np) == AdjustUpTo(Place(p, old(Markers(q, n, np)), x), i - 1)
      {
        AdjustMarker(i);
      }
    }

    /** The fifth sample sorts the buffer and sets up the five markers. */
    method Start()
      requires ValidQuantile(p)
      requires |init| == 5 && q == [] && n == [] && np == [] && dn == []
      modifies `init, `q, `n, `np, `dn
      ensures |q| == 5 && |n| == 5 && |np| == 5 && dn == Dn(p)
      ensures init == Sort(Real, old(init))
      ensures Markers(q, n, np) == P2Markers.Start(p, old(init))
    {
      hide Sort;
      init := Sort(Real, init);
      for i := 0 to 5
        invariant init == Sort(Real, old(init)) && |init| == 5
        invariant |q| == i && forall j | 0 <= j < i :: q[j] == init[j]
        invariant |n| == i && forall j | 0 <= j < i :: n[j] == j + 1
        invariant np == [] && dn == []
      {
        q := q + [init[i]];
        n := n + [i + 1];
      }
      assert q == init && n == [1, 2, 3, 4, 5];
      np := [1.0, 1.0 + 2.0 * p, 1.0 + 4.0 * p, 3.0 + 2.0 * p, 5.0];
      dn := [0.0, p / 2.0, p, (1.0 + p) / 2.0, 1.0];
    }

    /** Step 1: find the cell, widening the outer heights. */
    method Locate(x: real) returns (k: nat)
      requires |q| == 5
      modifies `q
      ensures k == Cell(old(q), x) && q == Widen(old(q), x)
    {
      if x < q[0] {
        q := q[0 := x];
        k := 0;
      } else if x >= q[4] {
        q := q[4 := x];
        k := 3;
      } else {
        k := 0;
        var i := 0;
        while i < 4
          invariant 0 <= i <= 4 && k == 0
          invariant Scan(q, x, 0) == Scan(q, x, i)
        {
          if q[i] <= x && x < q[i + 1] {
            k := i;
            break;
          }
          i := i + 1;
        }
      }
    }

    /** Step 2: positions right of the cell and every desired position move on. */
    method IncrementPositions(k: nat)
      requires |n| == 5 && |np| == 5 && |dn| == 5 && k <= 3
      modifies `n, `np
      ensures n == Bump(old(n), k) && np == Advance(old(np), dn)
    {
      for i := k + 1 to 5
        invariant |n| == 5 && np == old(np)
        invariant forall j | 0 <= j < 5 :: n[j] == if k < j < i then old(n)[j] + 1 else old(n)[j]
      {
        n := n[i := n[i] + 1];
      }
      for i := 0 to 5
        invariant |np| == 5 && |n| == 5
        invariant forall j | 0 <= j < 5 :: n[j] == if k < j then old(n)[j] + 1 else old(n)[j]
        invariant forall j | 0 <= j < 5 :: np[j] == if j < i then old(np)[j] + dn[j] else old(np)[j]
      {
        np := np[i := np[i] + dn[i]];
      }
    }

    /** Step 3 for interior marker i. */
    method AdjustMarker(i: nat)
      requires Usable(Markers(q, n, np)) && 1 <= i <= 3
      modifies `q, `n
      ensures |q| == 5 && |n| == 5 && Markers(q, n, np) == Adjust(old(Markers(q, n, np)), i)
    {
      var d0 := np[i] - n[i] as real;
      if (d0 >= 1.0 && n[i + 1] - n[i] > 1) || (d0 <= -1.0 && n[i - 1] - n[i] < -1) {
        var d := if d0 > 0.0 then 1 else -1;
        var qp := Parabolic(q, n, i, d);
        if q[i - 1] < qp && qp < q[i + 1] {
          q := q[i := qp];
        } else {
          q := q[i := Linear(q, n, i, d)];
        }
        n := n[i := n[i] + d];
      }
    }

    /** From five samples on it is the height of the marker whose desired position is that of the p-quantile. */
    lemma ValueTracksHere() returns (i: nat)
      requires Valid() && cnt >= 5
      ensures i < 5 && np[i] == 1.0 + (cnt - 1) as real * p && -2.0 < np[i] - n[i] as real < 3.0
      ensures Value() == Estimate(q[i])
    {
      hide Run, P2Heights.Value, Value;
      i := ValueTracksQuantile(p, stream);
    }

    function Count(): (c: nat)
      requires Valid()
      reads this
      ensures c == |stream|
    {
      cnt
    }

    /** The reported estimate is a function of the stream alone. */
    function Value(): (v: Estimate)
      requires Valid()
      reads this
      ensures v == P2Heights.Value(p, stream)
    {
      if cnt == 0 then NoData
      else if cnt < 5 then
        EarlyIndexInRange(p, cnt);
        var s := Sort(Real, init);
        Estimate(s[EarlyIndex(p, |s|)])
      else Estimate(q[2])
    }
  }
}
