/** The cross-chain correlation matrix of multi_chain_probe.py. */
module Pearson {
  import opened Bounds
  import opened Optional
  import opened Reals
  import opened Sums

  const WINDOW := 60

  /** Sum of products of deviations over the first k pairs. */
  function Codeviation(xs: seq<real>, mx: real, ys: seq<real>, my: real, k: nat): real
    requires k <= |xs| && k <= |ys|
  {
    if k == 0 then 0.0
    else Codeviation(xs, mx, ys, my, k - 1) + (xs[k - 1] - mx) * (ys[k - 1] - my)
  }

  /** The square root as `** 0.5` computes it. */
  ghost predicate IsRoot(root: real -> real) {
    forall x :: x >= 0.0 ==> root(x) >= 0.0 && Squared(root(x)) == x
  }

  function Correlation(root: real -> real, xs: seq<real>, ys: seq<real>): real {
    var n := |xs|;
    if n < 5 then 0.0
    else
      var mx := Sum(xs) / n as real;
      var my := Sum(ys) / n as real;
      var num := Codeviation(xs, mx, ys, my, MinNat(n, |ys|));
      var dx := root(Spread(xs, mx));
      var dy := root(Spread(ys, my));
      if dx < 0.000000000001 || dy < 0.000000000001 then 0.0 else Normalized(num, dx, dy)
  }

  function Normalized(num: real, dx: real, dy: real): real
    requires dx > 0.0 && dy > 0.0
  {
    ProductPositive(dx, dy);
    num / (dx * dy)
  }

  // ---------- Cauchy-Schwarz over the loop sums ----------

  lemma {:induction false} SpreadPrefix(s: seq<real>, m: real, k: nat)
    requires k <= |s|
    ensures Spread(s[..k], m) <= Spread(s, m)
    decreases |s| - k
  {
    if k < |s| {
      SpreadPrefix(s, m, k + 1);
      assert s[..k + 1][..k] == s[..k];
      SquarePositive(s[k] - m);
    } else {
      assert s[..k] == s;
    }
  }

  lemma SquareOfMix(p: real, q: real, a: real, b: real)
    ensures Squared(p) * Squared(a) + 2.0 * (p * q) * (a * b) + Squared(q) * Squared(b) >= 0.0
  {
    var u, v := p * a, q * b;
    SquareOfSum(u, v);
    SquarePositive(u + v);
    SquareOfProduct(p, a);
    SquareOfProduct(q, b);
    assert u * v == (p * q) * (a * b);
  }

  lemma PrefixSpread(s: seq<real>, m: real, k: nat)
    requires k < |s|
    ensures Spread(s[..k + 1], m) == Spread(s[..k], m) + Squared(s[k] - m)
  {
    assert s[..k + 1][..k] == s[..k];
  }

  /** The sum of (p a + q b)^2 over the pairs is not negative, written in the three loop sums. */
  lemma {:induction false} MixedSum(p: real, q: real, xs: seq<real>, mx: real, ys: seq<real>, my: real, k: nat)
    requires k <= |xs| && k <= |ys|
    ensures Squared(p) * Spread(xs[..k], mx) + 2.0 * (p * q) * Codeviation(xs, mx, ys, my, k)
            + Squared(q) * Spread(ys[..k], my) >= 0.0
  {
    hide Squared;
    if k > 0 {
      MixedSum(p, q, xs, mx, ys, my, k - 1);
      PrefixSpread(xs, mx, k - 1);
      PrefixSpread(ys, my, k - 1);
      var a, b := xs[k - 1] - mx, ys[k - 1] - my;
      assert Codeviation(xs, mx, ys, my, k) == Codeviation(xs, mx, ys, my, k - 1) + a * b;
      SquareOfMix(p, q, a, b);
      hide Spread, Codeviation;
      Linear3(Squared(p), 2.0 * (p * q), Squared(q),
              Spread(xs[..k - 1], mx), Codeviation(xs, mx, ys, my, k - 1), Spread(ys[..k - 1], my),
              Squared(a), a * b, Squared(b));
    } else {
      assert xs[..0] == [] && ys[..0] == [];
    }
  }

  lemma Linear3(c1: real, c2: real, c3: real, s1: real, s2: real, s3: real, t1: real, t2: real, t3: real)
    requires c1 * s1 + c2 * s2 + c3 * s3 >= 0.0 && c1 * t1 + c2 * t2 + c3 * t3 >= 0.0
    ensures c1 * (s1 + t1) + c2 * (s2 + t2) + c3 * (s3 + t3) >= 0.0
  {
    assert c1 * (s1 + t1) == c1 * s1 + c1 * t1;
    assert c2 * (s2 + t2) == c2 * s2 + c2 * t2;
    assert c3 * (s3 + t3) == c3 * s3 + c3 * t3;
  }

  /** With a = dx^2 and b = dy^2 at least the partial sums, the mixed sums bound |c| by dx dy. */
  lemma BoundFromMix(dx: real, dy: real, a: real, b: real, c: real, w: real)
    requires dx > 0.0 && dy > 0.0 && w == dx * dy
    requires 0.0 <= a <= Squared(dx) && 0.0 <= b <= Squared(dy)
    requires Squared(dy) * a + 2.0 * (dy * dx) * c + Squared(dx) * b >= 0.0
    requires Squared(dy) * a + 2.0 * (dy * -dx) * c + Squared(-dx) * b >= 0.0
    ensures -w <= c <= w
  {
    ProductPositive(dx, dy);
    var p, q, e := Squared(dx), Squared(dy), Squared(w);
    MulOrder(q, a, p);
    MulOrder(p, b, q);
    SquareOfProduct(dx, dy);
    assert q * p == e;
    assert Squared(-dx) == p;
    assert 2.0 * (dy * dx) * c == 2.0 * (w * c);
    assert 2.0 * (dy * -dx) * c == -2.0 * (w * c);
    assert -e <= w * c <= e;
    CancelFactor(w, c);
  }

  lemma ProductExceeds(w: real, c: real)
    requires 0.0 < w < c
    ensures w * c > Squared(w)
  {
    var d := c - w;
    ProductPositive(w, d);
    assert w * d == w * c - Squared(w);
  }

  lemma CancelFactor(w: real, c: real)
    requires w > 0.0 && -Squared(w) <= w * c <= Squared(w)
    ensures -w <= c <= w
  {
    if c > w { ProductExceeds(w, c); }
    if c < -w { ProductExceeds(w, -c); }
  }

  lemma MulOrder(c: real, x: real, y: real)
    requires c >= 0.0 && x <= y
    ensures c * x <= c * y
  {
    assert c * (y - x) >= 0.0;
  }

  /** Every correlation lies in [-1, 1], for inputs of any two lengths. */
  lemma CorrelationInRange(root: real -> real, xs: seq<real>, ys: seq<real>)
    requires IsRoot(root)
    ensures -1.0 <= Correlation(root, xs, ys) <= 1.0
  {
    hide Codeviation, Spread, Sum, Squared, Normalized;
    var n := |xs|;
    if n >= 5 {
      var mx, my := Sum(xs) / n as real, Sum(ys) / n as real;
      var dx, dy := root(Spread(xs, mx)), root(Spread(ys, my));
      if !(dx < 0.000000000001 || dy < 0.000000000001) {
        var k := MinNat(n, |ys|);
        NumeratorBound(dx, dy, xs, mx, ys, my, k);
        var num := Codeviation(xs, mx, ys, my, k);
        RatioInRange(num, dx, dy);
      }
    }
  }

  lemma RatioInRange(c: real, dx: real, dy: real)
    requires dx > 0.0 && dy > 0.0 && -(dx * dy) <= c <= dx * dy
    ensures -1.0 <= Normalized(c, dx, dy) <= 1.0
  {
    ProductPositive(dx, dy);
    QuotientOrder(c, dx * dy, 1.0);
    QuotientOrder(c, dx * dy, -1.0);
  }

  lemma NumeratorBound(dx: real, dy: real, xs: seq<real>, mx: real, ys: seq<real>, my: real, k: nat)
    requires k <= |xs| && k <= |ys|
    requires dx > 0.0 && dy > 0.0
    requires Spread(xs, mx) >= 0.0 ==> Squared(dx) == Spread(xs, mx)
    requires Spread(ys, my) >= 0.0 ==> Squared(dy) == Spread(ys, my)
    ensures -(dx * dy) <= Codeviation(xs, mx, ys, my, k) <= dx * dy
  {
    hide Codeviation, Spread, Squared;
    SpreadPositive(xs, mx);
    SpreadPositive(ys, my);
    SpreadPositive(xs[..k], mx);
    SpreadPositive(ys[..k], my);
    SpreadPrefix(xs, mx, k);
    SpreadPrefix(ys, my, k);
    MixedSum(dy, dx, xs, mx, ys, my, k);
    MixedSum(dy, -dx, xs, mx, ys, my, k);
    BoundFromMix(dx, dy, Spread(xs[..k], mx), Spread(ys[..k], my), Codeviation(xs, mx, ys, my, k), dx * dy);
  }

  // ---------- the matrix ----------

  type Pair = (nat, nat)

  /** The pairs (i, i+1), ..., (i, j-1), in loop order. */
  function Row(i: nat, j: nat): (r: seq<Pair>)
    requires i < j
    ensures |r| == j - i - 1
    decreases j
  {
    if j == i + 1 then [] else Row(i, j - 1) + [(i, j - 1)]
  }

  /** The rows of the first i chains out of n. */
  function Rows(n: nat, i: nat): seq<Pair>
    requires i <= n
  {
    if i == 0 then [] else Rows(n, i - 1) + Row(i - 1, n)
  }

  lemma {:induction false} RowPairs(i: nat, j: nat)
    requires i < j
    ensures forall p :: p in Row(i, j) <==> p.0 == i && i < p.1 < j
    ensures forall a, b | 0 <= a < b < |Row(i, j)| :: Row(i, j)[a] != Row(i, j)[b]
    decreases j
  {
    if j > i + 1 { RowPairs(i, j - 1); }
  }

  /** The nested loops visit every unordered pair once, n(n-1)/2 pairs in all. */
  lemma {:induction false} RowsPairs(n: nat, i: nat)
    requires i <= n
    ensures forall p :: p in Rows(n, i) <==> p.0 < i && p.0 < p.1 < n
    ensures forall a, b | 0 <= a < b < |Rows(n, i)| :: Rows(n, i)[a] != Rows(n, i)[b]
  {
    hide Row;
    if i > 0 {
      RowsPairs(n, i - 1);
      RowPairs(i - 1, n);
      var rows, row := Rows(n, i - 1), Row(i - 1, n);
      var all: seq<Pair> := rows + row;
      forall a: nat, b: nat | a < b < |all| ensures all[a] != all[b] {
        if a < |rows| <= b { assert rows[a] in rows && row[b - |rows|] in row; }
      }
    }
  }

  lemma {:induction false} RowsCount(n: nat, i: nat)
    requires i <= n
    ensures 2 * |Rows(n, i)| == i * (2 * n - i - 1)
  {
    hide Row;
    if i > 0 {
      RowsCount(n, i - 1);
      assert (i - 1) * (2 * n - i) == i * (2 * n - i - 1) - 2 * (n - i);
    }
  }

  function AllPairs(n: nat): seq<Pair> { Rows(n, n) }

  lemma AllPairsOnce(n: nat)
    ensures forall p :: p in AllPairs(n) <==> p.0 < p.1 < n
    ensures forall a, b | 0 <= a < b < |AllPairs(n)| :: AllPairs(n)[a] != AllPairs(n)[b]
    ensures |AllPairs(n)| == n * (n - 1) / 2
  {
    RowsPairs(n, n);
    RowsCount(n, n);
    assert 2 * |Rows(n, n)| == n * (n - 1);
  }

  /** The buffers at one instant, cut to their common length, with the functions the code calls. */
  datatype Snapshot = Snapshot(chains: seq<string>, root: real -> real, round: real -> real,
                               rtt: seq<seq<real>>, len: nat)
  {
    ghost predicate Valid() {
      |rtt| == |chains| && forall c | 0 <= c < |rtt| :: len <= |rtt[c]|
    }

    ghost predicate Covers(pairs: seq<Pair>) {
      forall p | p in pairs :: p.0 < |chains| && p.1 < |chains|
    }

    function Correlate(p: Pair): real
      requires Valid() && p.0 < |chains| && p.1 < |chains|
    {
      var xs, ys := rtt[p.0], rtt[p.1];
      Correlation(root, xs[|xs| - len..], ys[|ys| - len..])
    }

    function Key(p: Pair): string
      requires p.0 < |chains| && p.1 < |chains|
    {
      chains[p.0] + "_" + chains[p.1]
    }

    ghost predicate Synced(p: Pair)
      requires Valid() && p.0 < |chains| && p.1 < |chains|
    {
      Abs(Correlate(p)) > 0.85
    }

    // What the loops accumulate over a list of visited pairs.

    ghost function Matrix(pairs: seq<Pair>): map<string, real>
      requires Valid() && Covers(pairs)
    {
      if pairs == [] then map[]
      else
        var p := pairs[|pairs| - 1];
        Matrix(pairs[..|pairs| - 1])[Key(p) := round(Correlate(p))]
    }

    ghost function Maximum(pairs: seq<Pair>): real
      requires Valid() && Covers(pairs)
    {
      if pairs == [] then 0.0
      else
        var m, r := Maximum(pairs[..|pairs| - 1]), Abs(Correlate(pairs[|pairs| - 1]));
        if r > m then r else m
    }

    ghost function Syncs(pairs: seq<Pair>): seq<Pair>
      requires Valid() && Covers(pairs)
      ensures Covers(Syncs(pairs))
    {
      if pairs == [] then []
      else
        var p := pairs[|pairs| - 1];
        var s := Syncs(pairs[..|pairs| - 1]);
        assert forall x | x in s + [p] :: x in s || x == p;
        if Synced(p) then s + [p] else s
    }

    ghost function Entries(pairs: seq<Pair>): seq<(string, string, real)>
      requires Valid() && Covers(pairs)
    {
      seq(|pairs|, k requires 0 <= k < |pairs| =>
        assert pairs[k] in pairs; (chains[pairs[k].0], chains[pairs[k].1], round(Correlate(pairs[k]))))
    }

    /** What the three accumulators hold after a list of pairs has been visited. */
    ghost predicate Accumulated(seen: seq<Pair>, matrix: map<string, real>, top: real,
                                syncs: seq<(string, string, real)>)
      requires Valid()
    {
      Covers(seen) && matrix == Matrix(seen) && top == Maximum(seen) && syncs == Entries(Syncs(seen))
    }

    lemma Visit(seen: seq<Pair>, p: Pair, matrix: map<string, real>, top: real, syncs: seq<(string, string, real)>)
      requires Valid() && p.0 < |chains| && p.1 < |chains|
      requires Accumulated(seen, matrix, top, syncs)
      ensures var r := Correlate(p);
        Accumulated(seen + [p], matrix[Key(p) := round(r)], if Abs(r) > top then Abs(r) else top,
          if Abs(r) > SYNC then syncs + [(chains[p.0], chains[p.1], round(r))] else syncs)
    {
      hide Correlate, Key, Entries, Syncs;
      var s := seen + [p];
      assert s[..|s| - 1] == seen && s[|s| - 1] == p;
      CoversExtend(seen, p);
      VisitSyncs(seen, p);
    }

    lemma CoversExtend(seen: seq<Pair>, p: Pair)
      requires Covers(seen) && p.0 < |chains| && p.1 < |chains|
      ensures Covers(seen + [p])
    {
      assert forall x | x in seen + [p] :: x in seen || x == p;
    }

    lemma VisitSyncs(seen: seq<Pair>, p: Pair)
      requires Valid() && Covers(seen) && Covers(seen + [p]) && p.0 < |chains| && p.1 < |chains|
      ensures var e := Entries(Syncs(seen));
        Entries(Syncs(seen + [p]))
        == if Abs(Correlate(p)) > SYNC then e + [(chains[p.0], chains[p.1], round(Correlate(p)))] else e
    {
      hide Correlate;
      var s := seen + [p];
      assert s[..|s| - 1] == seen && s[|s| - 1] == p;
      assert Syncs(s) == if Synced(p) then Syncs(seen) + [p] else Syncs(seen);
    }

    lemma NothingSeen(n: nat)
      requires Valid()
      ensures Accumulated(Rows(n, 0), map[], 0.0, [])
    {
    }

    lemma AllCovered()
      ensures Covers(AllPairs(|chains|))
    {
      RowsPairs(|chains|, |chains|);
    }

    /** The accumulations over all pairs. */
    ghost function Published(): Report
      requires Valid()
    {
      AllCovered();
      var all := AllPairs(|chains|);
      Report(Matrix(all), round(Maximum(all)), Entries(Syncs(all)), len)
    }

    /** The maximum bounds every correlation and is one of them. */
    lemma {:induction false} MaximumIsReached(pairs: seq<Pair>)
      requires Valid() && Covers(pairs)
      ensures forall p | p in pairs :: Abs(Correlate(p)) <= Maximum(pairs)
      ensures pairs != [] ==> exists p | p in pairs :: Maximum(pairs) == Abs(Correlate(p))
    {
      hide Correlate;
      if pairs != [] {
        var front, last := pairs[..|pairs| - 1], pairs[|pairs| - 1];
        assert forall p | p in pairs :: p in front || p == last;
        MaximumIsReached(front);
        assert last in pairs;
        assert front == [] ==> Maximum(front) == 0.0;
        if Maximum(pairs) != Abs(Correlate(last)) {
          var p :| p in front && Maximum(front) == Abs(Correlate(p));
          assert p in pairs;
        }
      }
    }

    /** The reported pairs are exactly the synchronised ones, each as often as it was visited. */
    lemma {:induction false} SyncsExact(pairs: seq<Pair>)
      requires Valid() && Covers(pairs)
      ensures forall p :: multiset(Syncs(pairs))[p] == if p in pairs && Synced(p) then multiset(pairs)[p] else 0
    {
      hide Synced;
      if pairs != [] {
        var front, last := pairs[..|pairs| - 1], pairs[|pairs| - 1];
        SyncsExact(front);
        assert pairs == front + [last];
        assert forall p :: p in pairs <==> p in front || p == last;
        assert forall p :: p in front <==> p in multiset(front);
      }
    }

    ghost predicate KeysDistinct(pairs: seq<Pair>)
      requires Covers(pairs)
    {
      forall a, b | 0 <= a < b < |pairs| :: Key(pairs[a]) != Key(pairs[b])
    }

    lemma {:induction false} MatrixKeys(pairs: seq<Pair>)
      requires Valid() && Covers(pairs)
      ensures forall k :: k in Matrix(pairs) <==> exists a | 0 <= a < |pairs| :: Key(pairs[a]) == k
    {
      hide Key, Correlate;
      if pairs != [] {
        var front, last := pairs[..|pairs| - 1], pairs[|pairs| - 1];
        MatrixKeys(front);
        forall k ensures k in Matrix(pairs) <==> exists a | 0 <= a < |pairs| :: Key(pairs[a]) == k {
          if k in Matrix(front) {
            var a :| 0 <= a < |front| && Key(front[a]) == k;
            assert Key(pairs[a]) == k;
          }
          if k == Key(last) { assert Key(pairs[|pairs| - 1]) == k; }
          if a :| 0 <= a < |pairs| && Key(pairs[a]) == k && k != Key(last) {
            assert Key(front[a]) == k;
          }
        }
      }
    }

    /** The matrix has one entry per visited pair exactly when no two pairs spell the same key. */
    lemma {:induction false} MatrixComplete(pairs: seq<Pair>)
      requires Valid() && Covers(pairs)
      ensures |Matrix(pairs)| <= |pairs|
      ensures |Matrix(pairs)| == |pairs| <==> KeysDistinct(pairs)
    {
      hide Key, Correlate;
      if pairs != [] {
        var front, last := pairs[..|pairs| - 1], pairs[|pairs| - 1];
        MatrixComplete(front);
        LastKey(pairs);
        MapSize(Matrix(front), Key(last), round(Correlate(last)));
      }
    }

    lemma LastKey(pairs: seq<Pair>)
      requires Valid() && Covers(pairs) && pairs != []
      ensures var front := pairs[..|pairs| - 1];
        KeysDistinct(pairs) <==> KeysDistinct(front) && Key(pairs[|pairs| - 1]) !in Matrix(front)
    {
      hide Key, Correlate, Matrix;
      var front, last := pairs[..|pairs| - 1], pairs[|pairs| - 1];
      MatrixKeys(front);
      if KeysDistinct(front) && Key(last) !in Matrix(front) {
        forall a | 0 <= a < |front| ensures Key(pairs[a]) != Key(last) {
          assert Key(front[a]) in Matrix(front);
        }
      }
    }

    /** ... and then every entry is the rounded correlation of its pair. */
    lemma {:induction false} MatrixEntries(pairs: seq<Pair>)
      requires Valid() && Covers(pairs) && KeysDistinct(pairs)
      ensures forall a | 0 <= a < |pairs| ::
        Key(pairs[a]) in Matrix(pairs) && Matrix(pairs)[Key(pairs[a])] == round(Correlate(pairs[a]))
    {
      hide Key, Correlate;
      if pairs != [] {
        MatrixEntries(pairs[..|pairs| - 1]);
      }
    }
  }

  lemma MapSize<X, Y>(m: map<X, Y>, k: X, v: Y)
    ensures |m[k := v]| == if k in m then |m| else |m| + 1
  {
    var m' := m[k := v];
    assert m'.Keys == m.Keys + {k};
    assert |m'| == |m'.Keys| && |m| == |m.Keys|;
    if k in m { assert m'.Keys == m.Keys; }
  }

  const SYNC := 0.85

  datatype Report = Report(matrix: map<string, real>, maxCorrelation: real,
                           syncPairs: seq<(string, string, real)>, windowSamples: nat)

  function Shortest(buffers: seq<seq<real>>): nat
    requires buffers != []
  {
    var last := |buffers[|buffers| - 1]|;
    if |buffers| == 1 then last
    else
      var rest := Shortest(buffers[..|buffers| - 1]);
      if last < rest then last else rest
  }

  /** A length that no buffer falls short of, and one buffer has. */
  lemma {:induction false} ShortestIsLeast(buffers: seq<seq<real>>)
    requires buffers != []
    ensures forall c | 0 <= c < |buffers| :: Shortest(buffers) <= |buffers[c]|
    ensures exists c | 0 <= c < |buffers| :: Shortest(buffers) == |buffers[c]|
  {
    var front, last := buffers[..|buffers| - 1], |buffers| - 1;
    if last > 0 {
      ShortestIsLeast(front);
      if Shortest(buffers) != |buffers[last]| {
        var c :| 0 <= c < |front| && Shortest(front) == |front[c]|;
        assert Shortest(buffers) == |buffers[c]|;
      }
    }
  }

  lemma Finished(snap: Snapshot, matrix: map<string, real>, top: real, syncs: seq<(string, string, real)>)
    requires snap.Valid() && snap.Accumulated(AllPairs(|snap.chains|), matrix, top, syncs)
    ensures snap.Published() == Report(matrix, snap.round(top), syncs, snap.len)
  {
  }

  class CorrelationMatrix {
    const chains: seq<string>
    const root: real -> real
    const round: real -> real
    /** One round-trip time buffer per chain, in chain order. */
    var rtt: seq<seq<real>>

    ghost predicate Valid()
      reads this
    {
      |rtt| == |chains| && forall c | 0 <= c < |rtt| :: |rtt[c]| <= WINDOW
    }

    constructor (chains: seq<string>, root: real -> real, round: real -> real)
      ensures Valid() && this.chains == chains && this.root == root && this.round == round
      ensures forall c | 0 <= c < |rtt| :: rtt[c] == []
    {
      this.chains, this.root, this.round := chains, root, round;
      rtt := seq(|chains|, (i: nat) => []);
    }

    /** A bounded buffer: the sample is appended and the oldest one goes when there were sixty already. */
    method Feed(c: nat, sample: real)
      requires Valid() && c < |chains|
      modifies this
      ensures Valid()
      ensures var before := old(rtt)[c];
        rtt == old(rtt)[c := if |before| < 60 then before + [sample] else before[1..] + [sample]]
    {
      var buf := rtt[c] + [sample];
      assert rtt[c] != [] ==> buf[1..] == rtt[c][1..] + [sample];
      rtt := rtt[c := if |buf| > WINDOW then buf[1..] else buf];
    }

    /** Shortest buffer; the original fails on an empty list of chains. */
    method ShortestBuffer() returns (len: nat)
      requires Valid() && chains != []
      ensures len == Shortest(rtt)
    {
      len := |rtt[0]|;
      for i := 1 to |rtt|
        invariant len == Shortest(rtt[..i])
      {
        assert rtt[..i + 1][..i] == rtt[..i];
        if |rtt[i]| < len { len := |rtt[i]|; }
      }
      assert rtt[..|rtt|] == rtt;
    }

    /** The buffers cut to the shortest one. */
    ghost function Now(): (snap: Snapshot)
      requires Valid() && chains != []
      reads this
      ensures snap.Valid()
    {
      ShortestIsLeast(rtt);
      Snapshot(chains, root, round, rtt, Shortest(rtt))
    }

    /** No report below ten samples; otherwise the accumulations over all pairs of the buffers as they are. */
    method Compute() returns (report: Option<Report>)
      requires Valid() && chains != []
      ensures report == if Shortest(rtt) < 10 then None else Some(Now().Published())
    {
      hide Rows, Snapshot.Accumulated, Shortest;
      var n := |chains|;
      var minLen := ShortestBuffer();
      if minLen < 10 { return None; }
      ghost var snap := Now();
      var matrix, maxCorr, syncPairs := map[], 0.0, [];
      snap.NothingSeen(n);
      for i := 0 to n
        invariant snap.Accumulated(Rows(n, i), matrix, maxCorr, syncPairs)
      {
        matrix, maxCorr, syncPairs := VisitRow(snap, i, minLen, matrix, maxCorr, syncPairs);
      }
      Finished(snap, matrix, maxCorr, syncPairs);
      report := Some(Report(matrix, round(maxCorr), syncPairs, minLen));
    }

    /** The inner loop: the pairs of chain i with all later chains. */
    method VisitRow(ghost snap: Snapshot, i: nat, len: nat,
                    matrix0: map<string, real>, top0: real, syncs0: seq<(string, string, real)>)
      returns (matrix: map<string, real>, maxCorr: real, syncPairs: seq<(string, string, real)>)
      requires snap.Valid() && snap.chains == chains && snap.rtt == rtt && snap.root == root && snap.round == round
      requires snap.len == len && i < |chains|
      requires snap.Accumulated(Rows(|chains|, i), matrix0, top0, syncs0)
      ensures snap.Accumulated(Rows(|chains|, i + 1), matrix, maxCorr, syncPairs)
    {
      hide Snapshot.Accumulated, Snapshot.Correlate;
      matrix, maxCorr, syncPairs := matrix0, top0, syncs0;
      ghost var before := Rows(|chains|, i);
      assert before + Row(i, i + 1) == before;
      for j := i + 1 to |chains|
        invariant snap.Accumulated(before + Row(i, j), matrix, maxCorr, syncPairs)
      {
        snap.Visit(before + Row(i, j), (i, j), matrix, maxCorr, syncPairs);
        assert before + Row(i, j + 1) == (before + Row(i, j)) + [(i, j)];
        var r := CorrelatePair(snap, i, j, len);
        matrix := matrix[chains[i] + "_" + chains[j] := round(r)];
        if Abs(r) > maxCorr { maxCorr := Abs(r); }
        if Abs(r) > SYNC { syncPairs := syncPairs + [(chains[i], chains[j], round(r))]; }
      }
    }

    method CorrelatePair(ghost snap: Snapshot, i: nat, j: nat, len: nat) returns (r: real)
      requires snap.Valid() && snap.chains == chains && snap.rtt == rtt && snap.root == root && snap.len == len
      requires i < |chains| && j < |chains|
      ensures r == snap.Correlate((i, j))
    {
      var xs := rtt[i][|rtt[i]| - len..];
      var ys := rtt[j][|rtt[j]| - len..];
      r := Correlation(root, xs, ys);
    }
  }
}
