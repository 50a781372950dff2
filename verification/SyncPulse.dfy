/** generateSyncPulse of rhythmManager.ts: a shuffle driven by a digest, then delays in microseconds. */
module SyncPulse {
  import opened Hex
  import opened Sorting
  import opened Sums

  const PI_SEQUENCE: seq<nat> := [3, 1, 4, 1, 5, 9, 2, 6, 5, 3, 5, 8, 9, 7, 9, 3]
  const BASE_DELAY_US: nat := 150
  const DIGEST_LENGTH := 32

  type Digest = d: seq<Byte> | |d| == DIGEST_LENGTH witness seq(DIGEST_LENGTH, _ => 0)

  function Swapped<T>(s: seq<T>, i: nat, j: nat): (r: seq<T>)
    requires i < |s| && j < |s|
    ensures |r| == |s|
  {
    s[i := s[j]][j := s[i]]
  }

  function Partner(seed: Digest, i: nat): (j: nat)
    ensures j <= i
  {
    seed[i % DIGEST_LENGTH] % (i + 1)
  }

  /** The swaps at positions i, i - 1, ..., 1. */
  function Shuffle<T>(seed: Digest, s: seq<T>, i: nat): (r: seq<T>)
    requires i < |s|
    ensures |r| == |s|
    decreases i
  {
    if i == 0 then s else Shuffle(seed, Swapped(s, i, Partner(seed, i)), i - 1)
  }

  function Delay(seed: Digest, n: nat): (d: nat)
    ensures n * BASE_DELAY_US <= d < n * BASE_DELAY_US + 50
  {
    n * BASE_DELAY_US + seed[n % DIGEST_LENGTH] % 50
  }

  function Delays(seed: Digest, s: seq<nat>): seq<nat> { Map(n => Delay(seed, n), s) }

  function Pulse(seed: Digest): seq<nat> { Delays(seed, Shuffle(seed, PI_SEQUENCE, |PI_SEQUENCE| - 1)) }

  // ---------- the shuffle only rearranges ----------

  lemma SwapContents<T>(s: seq<T>, i: nat, j: nat)
    requires i < |s| && j < |s|
    ensures multiset(Swapped(s, i, j)) == multiset(s)
  {
  }

  lemma {:induction false} ShuffleContents<T>(seed: Digest, s: seq<T>, i: nat)
    requires i < |s|
    ensures multiset(Shuffle(seed, s, i)) == multiset(s)
    decreases i
  {
    hide Swapped;
    if i > 0 {
      SwapContents(s, i, Partner(seed, i));
      ShuffleContents(seed, Swapped(s, i, Partner(seed, i)), i - 1);
    }
  }

  lemma SwapMapped<S, T>(f: S -> T, s: seq<S>, i: nat, j: nat)
    requires i < |s| && j < |s|
    ensures Map(f, Swapped(s, i, j)) == Swapped(Map(f, s), i, j)
  {
  }

  /** Shuffling and mapping each element commute. */
  lemma {:induction false} ShuffleMapped<S, T>(seed: Digest, f: S -> T, s: seq<S>, i: nat)
    requires i < |s|
    ensures Map(f, Shuffle(seed, s, i)) == Shuffle(seed, Map(f, s), i)
    decreases i
  {
    hide Swapped, Partner, Map;
    if i > 0 {
      var j := Partner(seed, i);
      SwapMapped(f, s, i, j);
      ShuffleMapped(seed, f, Swapped(s, i, j), i - 1);
    }
  }

  lemma FindPartner<T>(s: seq<T>, t: seq<T>, i: nat) returns (j: nat)
    requires i < |s| == |t| && multiset(s) == multiset(t) && s[i + 1..] == t[i + 1..]
    ensures j <= i && s[j] == t[i]
  {
    var front, rest := s[..i + 1], s[i + 1..];
    assert s == front + rest && t == t[..i + 1] + rest;
    assert multiset(s) == multiset(front) + multiset(rest) && multiset(t) == multiset(t[..i + 1]) + multiset(rest);
    assert multiset(front) == multiset(t) - multiset(rest) == multiset(t[..i + 1]);
    assert t[i] == t[..i + 1][i];
    assert t[i] in multiset(front);
    j :| 0 <= j < |front| && front[j] == t[i];
  }

  /** A digest that makes the swaps from position i down turn s into t; its bytes above i are those of base. */
  lemma {:induction false} ShuffleReaches<T>(s: seq<T>, t: seq<T>, i: nat, base: Digest) returns (seed: Digest)
    requires i < |s| == |t| <= DIGEST_LENGTH
    requires multiset(s) == multiset(t) && s[i + 1..] == t[i + 1..]
    ensures forall k | i < k < DIGEST_LENGTH :: seed[k] == base[k]
    ensures Shuffle(seed, s, i) == t
    decreases i
  {
    hide Swapped, Partner;
    var j := FindPartner(s, t, i);
    if i == 0 {
      seed := base;
      assert forall k | 1 <= k < |s| :: s[k] == s[1..][k - 1] && t[k] == t[1..][k - 1];
      assert s == t;
    } else {
      var swapped := Swapped(s, i, j);
      SwapContents(s, i, j);
      SwapAgrees(s, t, i, j);
      seed := ShuffleReaches(swapped, t, i - 1, base[i := j]);
      assert Partner(seed, i) == j by {
        assert seed[i] == j;
        PartnerOf(seed, i);
      }
    }
  }

  lemma PartnerOf(seed: Digest, i: nat)
    requires i < DIGEST_LENGTH && seed[i] <= i
    ensures Partner(seed, i) == seed[i]
  {
  }

  lemma SwapAgrees<T>(s: seq<T>, t: seq<T>, i: nat, j: nat)
    requires j <= i < |s| == |t| && s[j] == t[i] && s[i + 1..] == t[i + 1..]
    ensures Swapped(s, i, j)[i..] == t[i..]
  {
    var w := Swapped(s, i, j);
    assert w[i] == t[i];
    forall k | i < k < |s| ensures w[k] == t[k] {
      assert s[i + 1..][k - i - 1] == t[i + 1..][k - i - 1];
    }
  }

  ghost predicate Gives<T>(seed: Digest, s: seq<T>, t: seq<T>)
    requires s != []
  {
    Shuffle(seed, s, |s| - 1) == t
  }

  /** Every arrangement of up to 32 elements is the shuffle of some digest, and no digest gives anything else. */
  lemma ShuffleExact<T>(s: seq<T>, t: seq<T>)
    requires 0 < |s| <= DIGEST_LENGTH
    ensures (exists seed: Digest :: Gives(seed, s, t)) <==> multiset(t) == multiset(s)
  {
    if multiset(t) == multiset(s) {
      assert |multiset(t)| == |t| && |multiset(s)| == |s|;
      var base: Digest := seq(DIGEST_LENGTH, _ => 0);
      var seed := ShuffleReaches(s, t, |s| - 1, base);
      assert Gives(seed, s, t);
    }
    if seed: Digest :| Gives(seed, s, t) {
      ShuffleContents(seed, s, |s| - 1);
    }
  }

  // ---------- the pulse ----------

  lemma {:induction false} TotalShuffle(seed: Digest, s: seq<nat>, i: nat)
    requires i < |s|
    ensures Total(Shuffle(seed, s, i)) == Total(s)
    decreases i
  {
    if i > 0 {
      var j := Partner(seed, i);
      TotalUpdate(s, i, s[j]);
      TotalUpdate(s[i := s[j]], j, s[i]);
      TotalShuffle(seed, Swapped(s, i, j), i - 1);
    }
  }

  lemma {:induction false} TotalDelays(seed: Digest, s: seq<nat>)
    ensures BASE_DELAY_US * Total(s) <= Total(Delays(seed, s)) <= BASE_DELAY_US * Total(s) + 49 * |s|
  {
    if s != [] {
      var front := s[..|s| - 1];
      assert Delays(seed, s)[..|s| - 1] == Delays(seed, front);
      TotalDelays(seed, front);
    }
  }

  lemma BaseTotal()
    ensures Total(PI_SEQUENCE) == 80
  {
    hide Total;
    var a, b, c := [3, 1, 4, 1], [3, 1, 4, 1, 5, 9, 2, 6], [3, 1, 4, 1, 5, 9, 2, 6, 5, 3, 5, 8];
    TotalNothing();
    TotalOfFour([], 3, 1, 4, 1);
    assert [] + [3, 1, 4, 1] == a;
    TotalOfFour(a, 5, 9, 2, 6);
    assert a + [5, 9, 2, 6] == b;
    TotalOfFour(b, 5, 3, 5, 8);
    assert b + [5, 3, 5, 8] == c;
    TotalOfFour(c, 9, 7, 9, 3);
    assert c + [9, 7, 9, 3] == PI_SEQUENCE;
  }

  lemma BaseSequence()
    ensures |PI_SEQUENCE| == 16
    ensures forall k | 0 <= k < |PI_SEQUENCE| :: 1 <= PI_SEQUENCE[k] <= 9
  {
  }

  lemma ShuffledDelays(seed: Digest, s: seq<nat>)
    requires s != []
    ensures var pulse := Delays(seed, Shuffle(seed, s, |s| - 1));
      && |pulse| == |s|
      && multiset(pulse) == multiset(Delays(seed, s))
      && BASE_DELAY_US * Total(s) <= Total(pulse) <= BASE_DELAY_US * Total(s) + 49 * |s|
      && (forall k | 0 <= k < |pulse| :: pulse[k] in Delays(seed, s))
  {
    var last, pulse := |s| - 1, Delays(seed, Shuffle(seed, s, |s| - 1));
    ShuffleMapped(seed, n => Delay(seed, n), s, last);
    ShuffleContents(seed, Delays(seed, s), last);
    TotalShuffle(seed, Delays(seed, s), last);
    TotalDelays(seed, s);
    forall k | 0 <= k < |pulse| ensures pulse[k] in Delays(seed, s) {
      assert pulse[k] in multiset(pulse);
    }
  }

  /**
   * The pulse is an arrangement of one multiset of delays that the seed fixes before any swap; its total is
   * between 12000 and 12784 microseconds and every delay between 150 and 1399.
   */
  lemma PulseShape(seed: Digest)
    ensures |Pulse(seed)| == 16
    ensures multiset(Pulse(seed)) == multiset(Delays(seed, [3, 1, 4, 1, 5, 9, 2, 6, 5, 3, 5, 8, 9, 7, 9, 3]))
    ensures 12000 <= Total(Pulse(seed)) <= 12784
    ensures forall k | 0 <= k < |Pulse(seed)| :: 150 <= Pulse(seed)[k] <= 1399
  {
    var base := PI_SEQUENCE;
    assert base == [3, 1, 4, 1, 5, 9, 2, 6, 5, 3, 5, 8, 9, 7, 9, 3];
    hide PI_SEQUENCE;
    BaseSequence();
    BaseTotal();
    ShuffledDelays(seed, base);
    forall k | 0 <= k < |Pulse(seed)| ensures 150 <= Pulse(seed)[k] <= 1399 {
      var m :| 0 <= m < |base| && Pulse(seed)[k] == Delay(seed, base[m]);
    }
  }

  /** Every jitter of 0 to 49 microseconds occurs for every digit, and other bytes do not matter. */
  lemma DelayReaches(n: nat, jitter: nat) returns (seed: Digest)
    requires n < DIGEST_LENGTH && jitter < 50
    ensures Delay(seed, n) == 150 * n + jitter
    ensures forall other: Digest :: other[n] == seed[n] ==> Delay(other, n) == Delay(seed, n)
  {
    var base: Digest := seq(DIGEST_LENGTH, _ => 0);
    seed := base[n := jitter];
  }

  /** The delay of a digit is 150 microseconds for each unit and the digest's byte at the digit, modulo fifty. */
  lemma DelaysOfDigits(seed: Digest, k: nat)
    requires k < 16
    ensures var n := PI_SEQUENCE[k]; n < 10 && Delays(seed, PI_SEQUENCE)[k] == 150 * n + seed[n] % 50
  {
  }

  lemma SwapAt<T>(before: seq<T>, after: seq<T>, i: nat, j: nat)
    requires i < |before| == |after| && j < |before|
    requires after[i] == before[j] && after[j] == before[i]
    requires forall k | 0 <= k < |before| && k != i && k != j :: after[k] == before[k]
    ensures after == Swapped(before, i, j)
  {
  }

  /** The in-place shuffle. */
  method ShuffleInPlace(seed: Digest, shuffled: array<nat>)
    requires shuffled.Length > 0
    modifies shuffled
    ensures shuffled[..] == Shuffle(seed, old(shuffled[..]), shuffled.Length - 1)
  {
    hide Swapped, Partner;
    var i := shuffled.Length - 1;
    while i > 0
      invariant 0 <= i < shuffled.Length
      invariant Shuffle(seed, shuffled[..], i) == Shuffle(seed, old(shuffled[..]), shuffled.Length - 1)
    {
      var j := Partner(seed, i);
      ghost var before := shuffled[..];
      shuffled[i], shuffled[j] := shuffled[j], shuffled[i];
      SwapAt(before, shuffled[..], i, j);
      i := i - 1;
    }
  }

  method MakePulse(seed: Digest) returns (pulse: seq<nat>)
    ensures pulse == Pulse(seed)
  {
    hide PI_SEQUENCE, Shuffle;
    BaseSequence();
    var shuffled := new nat[|PI_SEQUENCE|](k requires 0 <= k < |PI_SEQUENCE| => PI_SEQUENCE[k]);
    assert shuffled[..] == PI_SEQUENCE;
    ShuffleInPlace(seed, shuffled);
    pulse := Delays(seed, shuffled[..]);
  }
}
