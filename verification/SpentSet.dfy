/** The one-time ledger of PrivacyPassIssuer: spent nonces with expiry, lazy pruning and first-in eviction. */
module SpentSet {

  /** Insertion order is the order of the JavaScript Map. */
  datatype Entry = Entry(key: string, expiry: int)

  datatype Ledger = Ledger(spent: seq<Entry>, lastPrune: int)

  datatype Config = Config(ttl: int, maxSpent: int)

  const PRUNE_INTERVAL := 60000

  predicate Has(spent: seq<Entry>, key: string) { exists i | 0 <= i < |spent| :: spent[i].key == key }

  function Unexpired(spent: seq<Entry>, now: int): (r: seq<Entry>)
    ensures |r| <= |spent|
  {
    if spent == [] then []
    else if spent[0].expiry <= now then Unexpired(spent[1..], now)
    else [spent[0]] + Unexpired(spent[1..], now)
  }

  function Prune(l: Ledger, now: int): Ledger {
    if now - l.lastPrune < PRUNE_INTERVAL then l else Ledger(Unexpired(l.spent, now), now)
  }

  /** `Map.set` on a key that is not there: after a possible eviction of the oldest entry. */
  function Mark(c: Config, l: Ledger, key: string, now: int): Ledger {
    var kept := if |l.spent| >= c.maxSpent && l.spent != [] then l.spent[1..] else l.spent;
    l.(spent := kept + [Entry(key, now + c.ttl)])
  }

  /** A redemption attempt with the two clock readings the code takes. */
  datatype Attempt = Attempt(key: string, genuine: bool, pruneTime: int, markTime: int)

  datatype Verdict = Accepted | AlreadySpent | Invalid

  function Judge(l: Ledger, a: Attempt): Verdict {
    if Has(Prune(l, a.pruneTime).spent, a.key) then AlreadySpent
    else if !a.genuine then Invalid
    else Accepted
  }

  function After(c: Config, l: Ledger, a: Attempt): Ledger {
    var pruned := Prune(l, a.pruneTime);
    if Judge(l, a) == Accepted then Mark(c, pruned, a.key, a.markTime) else pruned
  }

  /** A minute after the last pruning exactly the entries that have not expired stay, in their order; before, all do. */
  lemma PruneExactly(l: Ledger, now: int)
    ensures now - l.lastPrune < 60000 ==> Prune(l, now) == l
    ensures now - l.lastPrune >= 60000 ==> Prune(l, now).lastPrune == now
    ensures now - l.lastPrune >= 60000 ==> forall e :: e in Prune(l, now).spent <==> e in l.spent && e.expiry > now
  {
    UnexpiredExactly(l.spent, now);
  }

  lemma {:induction false} UnexpiredExactly(spent: seq<Entry>, now: int)
    ensures forall e :: e in Unexpired(spent, now) <==> e in spent && e.expiry > now
  {
    if spent != [] { UnexpiredExactly(spent[1..], now); }
  }

  // ---------- whole runs ----------

  function Run(c: Config, s: seq<Attempt>): Ledger {
    if s == [] then Ledger([], 0) else After(c, Run(c, s[..|s| - 1]), s[|s| - 1])
  }

  /** The accepted attempts of a run, in order. */
  function History(c: Config, s: seq<Attempt>): (h: seq<Attempt>)
    ensures |h| <= |s|
  {
    if s == [] then []
    else
      var front, a := s[..|s| - 1], s[|s| - 1];
      if Judge(Run(c, front), a) == Accepted then History(c, front) + [a] else History(c, front)
  }

  /** The clock never goes back. */
  ghost predicate Monotone(s: seq<Attempt>) {
    && (forall i | 0 <= i < |s| :: s[i].pruneTime <= s[i].markTime)
    && (forall i, j | 0 <= i < j < |s| :: s[i].markTime <= s[j].pruneTime)
  }

  /** Last clock reading of a run. */
  ghost predicate NotAfter(s: seq<Attempt>, now: int) { forall i | 0 <= i < |s| :: s[i].markTime <= now }

  function EntryOf(c: Config, a: Attempt): Entry { Entry(a.key, a.markTime + c.ttl) }

  function Entries(c: Config, h: seq<Attempt>): (r: seq<Entry>)
    ensures |r| == |h|
  {
    seq(|h|, i requires 0 <= i < |h| => EntryOf(c, h[i]))
  }

  ghost predicate Ordered(h: seq<Attempt>) {
    forall i, j | 0 <= i < j < |h| :: h[i].markTime <= h[j].pruneTime <= h[j].markTime
  }

  /** An entry leaves the ledger only by expiry or once maxSpent later redemptions were accepted. */
  ghost predicate Gone(c: Config, h: seq<Attempt>, k: nat, now: int)
    requires k < |h|
  {
    h[k].markTime + c.ttl <= now || |h| - k > c.maxSpent
  }

  /** The ledger is the tail of the history from base on; everything before base is gone. */
  ghost predicate Tail(c: Config, h: seq<Attempt>, spent: seq<Entry>, base: nat, now: int) {
    && base <= |h| && |h| - base <= c.maxSpent
    && spent == Entries(c, h[base..])
    && Ordered(h) && NotAfter(h, now)
    && forall k | 0 <= k < base :: Gone(c, h, k, now)
  }

  // ---------- one step keeps the ledger a tail of the history ----------

  lemma {:induction false} AllUnexpired(spent: seq<Entry>, now: int)
    requires forall i | 0 <= i < |spent| :: spent[i].expiry > now
    ensures Unexpired(spent, now) == spent
  {
    if spent != [] { AllUnexpired(spent[1..], now); }
  }

  /** Pruning a tail of an ordered history leaves a shorter tail. */
  lemma {:induction false} UnexpiredTail(c: Config, h: seq<Attempt>, base: nat, now: int) returns (cut: nat)
    requires base <= |h| && Ordered(h)
    ensures base <= cut <= |h|
    ensures Unexpired(Entries(c, h[base..]), now) == Entries(c, h[cut..])
    ensures forall k | base <= k < cut :: h[k].markTime + c.ttl <= now
    decreases |h| - base
  {
    var entries := Entries(c, h[base..]);
    if base == |h| || h[base].markTime + c.ttl > now {
      cut := base;
      forall i | 0 <= i < |entries| ensures entries[i].expiry > now {
        assert i == 0 || h[base].markTime <= h[base + i].markTime;
      }
      AllUnexpired(entries, now);
    } else {
      assert entries[1..] == Entries(c, h[base + 1..]);
      cut := UnexpiredTail(c, h, base + 1, now);
    }
  }

  lemma PruneTail(c: Config, l: Ledger, h: seq<Attempt>, base: nat, now: int, time: int) returns (cut: nat)
    requires Tail(c, h, l.spent, base, now) && now <= time
    ensures Tail(c, h, Prune(l, time).spent, cut, time)
  {
    cut := base;
    if time - l.lastPrune >= PRUNE_INTERVAL { cut := UnexpiredTail(c, h, base, time); }
    forall k | 0 <= k < cut ensures Gone(c, h, k, time) {
      assert k < base ==> Gone(c, h, k, now);
    }
  }

  lemma MarkTail(c: Config, l: Ledger, h: seq<Attempt>, base: nat, a: Attempt) returns (cut: nat)
    requires c.maxSpent >= 1 && Tail(c, h, l.spent, base, a.pruneTime) && a.pruneTime <= a.markTime
    ensures Tail(c, h + [a], Mark(c, l, a.key, a.markTime).spent, cut, a.markTime)
  {
    cut := if |l.spent| >= c.maxSpent then base + 1 else base;
    var h' := h + [a];
    assert Entries(c, h'[cut..]) == Entries(c, h[cut..]) + [EntryOf(c, a)];
    assert cut == base + 1 ==> l.spent[1..] == Entries(c, h[cut..]);
    forall k | 0 <= k < cut ensures Gone(c, h', k, a.markTime) {
      assert k < base ==> Gone(c, h, k, a.pruneTime);
    }
  }

  /** The times of a history are those of its run. */
  lemma {:induction false} HistoryTimes(c: Config, s: seq<Attempt>, now: int)
    requires NotAfter(s, now)
    ensures NotAfter(History(c, s), now)
  {
    if s != [] { HistoryTimes(c, s[..|s| - 1], now); }
  }

  /** In every run with a clock that does not go back, the ledger is a tail of the accepted attempts. */
  lemma {:induction false} LedgerIsTail(c: Config, s: seq<Attempt>, now: int) returns (base: nat)
    requires c.maxSpent >= 1 && Monotone(s) && NotAfter(s, now)
    ensures Tail(c, History(c, s), Run(c, s).spent, base, now)
  {
    base := 0;
    if s != [] {
      var front, a := s[..|s| - 1], s[|s| - 1];
      base := LedgerIsTail(c, front, a.pruneTime);
      base := PruneTail(c, Run(c, front), History(c, front), base, a.pruneTime, a.pruneTime);
      if Judge(Run(c, front), a) == Accepted {
        base := MarkTail(c, Prune(Run(c, front), a.pruneTime), History(c, front), base, a);
      } else {
        LaterTail(c, History(c, s), Run(c, s).spent, base, a.pruneTime, a.markTime);
      }
      LaterTail(c, History(c, s), Run(c, s).spent, base, a.markTime, now);
    }
  }

  lemma LaterTail(c: Config, h: seq<Attempt>, spent: seq<Entry>, base: nat, now: int, later: int)
    requires Tail(c, h, spent, base, now) && now <= later
    ensures Tail(c, h, spent, base, later)
  {
    forall k | 0 <= k < base ensures Gone(c, h, k, later) {
      assert Gone(c, h, k, now);
    }
  }

  // ---------- what a run promises ----------

  /** The ledger never holds more than maxSpent entries, and its first one has the earliest expiry. */
  lemma LedgerBounded(c: Config, s: seq<Attempt>)
    requires c.maxSpent >= 1 && Monotone(s)
    ensures |Run(c, s).spent| <= c.maxSpent
    ensures forall i | 0 <= i < |Run(c, s).spent| :: Run(c, s).spent[0].expiry <= Run(c, s).spent[i].expiry
  {
    hide Run, History;
    if s != [] {
      assert NotAfter(s, s[|s| - 1].markTime);
      var base := LedgerIsTail(c, s, s[|s| - 1].markTime);
      var h := History(c, s);
      forall i | 0 <= i < |Run(c, s).spent| ensures Run(c, s).spent[0].expiry <= Run(c, s).spent[i].expiry {
        assert i == 0 || h[base].markTime <= h[base + i].markTime;
      }
    } else {
      assert Run(c, s) == Ledger([], 0) by { EmptyRun(c, s); }
    }
  }

  lemma EmptyRun(c: Config, s: seq<Attempt>)
    requires s == []
    ensures Run(c, s) == Ledger([], 0)
  {
  }

  lemma TailHas(c: Config, h: seq<Attempt>, spent: seq<Entry>, base: nat, now: int, key: string)
    requires Tail(c, h, spent, base, now)
    ensures Has(spent, key) <==> exists i | base <= i < |h| :: h[i].key == key
  {
    if i :| base <= i < |h| && h[i].key == key {
      assert spent[i - base].key == key;
    }
  }

  /**
   * Two accepted redemptions of one nonce are at least ttl apart, or at least maxSpent other
   * redemptions were accepted between them.
   */
  lemma {:induction false} Separated(c: Config, s: seq<Attempt>, i: nat, j: nat)
    requires c.maxSpent >= 1 && Monotone(s)
    requires i < j < |History(c, s)| && History(c, s)[i].key == History(c, s)[j].key
    ensures History(c, s)[i].markTime + c.ttl <= History(c, s)[j].pruneTime || j - i - 1 >= c.maxSpent
  {
    var front, a := s[..|s| - 1], s[|s| - 1];
    var h := History(c, front);
    if j < |h| {
      Separated(c, front, i, j);
    } else {
      var base := LedgerIsTail(c, front, a.pruneTime);
      base := PruneTail(c, Run(c, front), h, base, a.pruneTime, a.pruneTime);
      TailHas(c, h, Prune(Run(c, front), a.pruneTime).spent, base, a.pruneTime, a.key);
      assert h[i].key == a.key;
      assert Gone(c, h, i, a.pruneTime);
    }
  }

  /** A minute after the last pruning a nonce is accepted again once all its redemptions are ttl old. */
  lemma ExpiredForgotten(c: Config, s: seq<Attempt>, a: Attempt)
    requires c.maxSpent >= 1 && Monotone(s + [a]) && a.genuine && a.pruneTime - Run(c, s).lastPrune >= 60000
    requires forall i | 0 <= i < |History(c, s)| && History(c, s)[i].key == a.key ::
      History(c, s)[i].markTime + c.ttl <= a.pruneTime
    ensures Judge(Run(c, s), a) == Accepted
  {
    hide Run, History;
    var t := s + [a];
    assert forall i | 0 <= i < |s| :: t[i] == s[i];
    assert t[|s|] == a;
    var h := History(c, s);
    var base := LedgerIsTail(c, s, a.pruneTime);
    PruneExactly(Run(c, s), a.pruneTime);
    var kept := Prune(Run(c, s), a.pruneTime).spent;
    forall i | 0 <= i < |kept| ensures kept[i].key != a.key {
      assert kept[i] in kept;
      var j :| 0 <= j < |Run(c, s).spent| && Run(c, s).spent[j] == kept[i];
      assert Run(c, s).spent[j] == EntryOf(c, h[base + j]);
    }
  }

  /** A genuine token whose nonce was never accepted before is accepted. */
  lemma FreshAccepted(c: Config, s: seq<Attempt>, a: Attempt)
    requires c.maxSpent >= 1 && Monotone(s + [a]) && a.genuine
    requires forall i | 0 <= i < |History(c, s)| :: History(c, s)[i].key != a.key
    ensures Judge(Run(c, s), a) == Accepted
  {
    hide Run, History;
    var t := s + [a];
    assert forall i | 0 <= i < |s| :: t[i] == s[i];
    assert t[|s|] == a;
    var base := LedgerIsTail(c, s, a.pruneTime);
    base := PruneTail(c, Run(c, s), History(c, s), base, a.pruneTime, a.pruneTime);
    TailHas(c, History(c, s), Prune(Run(c, s), a.pruneTime).spent, base, a.pruneTime, a.key);
  }
}
