/** Ascending sort by a numeric key: the meaning of `sort((a, b) => a - b)`. */
module Sorting {

  /** The key of a real number. */
  function Real(x: real): real { x }

  ghost predicate Ascending<T>(key: T -> real, s: seq<T>) {
    forall i, j | 0 <= i < j < |s| :: key(s[i]) <= key(s[j])
  }

  /** Distinct elements have distinct keys. */
  ghost predicate Injective<T(!new)>(key: T -> real) {
    forall x, y :: key(x) == key(y) ==> x == y
  }

  lemma FirstAscending<T>(key: T -> real, x: T, s: seq<T>)
    requires Ascending(key, s) && forall i | 0 <= i < |s| :: key(x) <= key(s[i])
    ensures Ascending(key, [x] + s)
  {
    var t := [x] + s;
    assert forall i | 1 <= i < |t| :: t[i] == s[i - 1];
  }

  function Insert<T>(key: T -> real, x: T, s: seq<T>): (r: seq<T>)
    requires Ascending(key, s)
    ensures |r| == |s| + 1
    ensures forall i | 0 <= i < |r| :: r[i] == x || r[i] in s
    ensures Ascending(key, r)
  {
    if s == [] || key(x) < key(s[0]) then
      FirstAscending(key, x, s);
      [x] + s
    else
      var tail := Insert(key, x, s[1..]);
      FirstAscending(key, s[0], tail);
      [s[0]] + tail
  }

  lemma SplitFirst<T>(s: seq<T>)
    requires s != []
    ensures multiset(s) == multiset{s[0]} + multiset(s[1..])
  {
    assert s == [s[0]] + s[1..];
  }

  lemma SplitLast<T>(s: seq<T>)
    requires s != []
    ensures multiset(s) == multiset(s[..|s| - 1]) + multiset{s[|s| - 1]}
  {
    assert s == s[..|s| - 1] + [s[|s| - 1]];
  }

  lemma {:induction false} InsertContents<T>(key: T -> real, x: T, s: seq<T>)
    requires Ascending(key, s)
    ensures multiset(Insert(key, x, s)) == multiset(s) + multiset{x}
  {
    if s == [] || key(x) < key(s[0]) {
    } else {
      InsertContents(key, x, s[1..]);
      SplitFirst(s);
    }
  }

  function Sort<T>(key: T -> real, s: seq<T>): (r: seq<T>)
    ensures |r| == |s|
    ensures Ascending(key, r)
  {
    if s == [] then [] else Insert(key, s[|s| - 1], Sort(key, s[..|s| - 1]))
  }

  lemma {:induction false} SortContents<T>(key: T -> real, s: seq<T>)
    ensures multiset(Sort(key, s)) == multiset(s)
  {
    if s != [] {
      SplitLast(s);
      SortContents(key, s[..|s| - 1]);
      InsertContents(key, s[|s| - 1], Sort(key, s[..|s| - 1]));
    }
  }

  lemma SortMembers<T>(key: T -> real, s: seq<T>)
    ensures forall x :: x in Sort(key, s) <==> x in s
  {
    SortContents(key, s);
    forall x ensures x in Sort(key, s) <==> x in s {
      assert x in Sort(key, s) <==> x in multiset(Sort(key, s));
      assert x in s <==> x in multiset(s);
    }
  }

  /** The first elements of two ascending arrangements of one multiset have the same key. */
  lemma FirstKeys<T>(key: T -> real, s: seq<T>, t: seq<T>)
    requires s != [] && t != []
    requires Ascending(key, s) && Ascending(key, t)
    requires multiset(s) == multiset(t)
    ensures key(s[0]) <= key(t[0])
  {
    assert t[0] in multiset(t);
    assert t[0] in s;
  }

  /** Arrangements of one multiset that agree in the first element agree in the multiset of the rest. */
  lemma RestContents<T>(s: seq<T>, t: seq<T>)
    requires s != [] && t != [] && multiset(s) == multiset(t) && s[0] == t[0]
    ensures multiset(s[1..]) == multiset(t[1..])
  {
    SplitFirst(s);
    SplitFirst(t);
    assert multiset(s[1..]) == multiset(s) - multiset{s[0]} == multiset(t[1..]);
  }

  /** With an injective key there is only one ascending arrangement. */
  lemma {:induction false} AscendingUnique<T(!new)>(key: T -> real, s: seq<T>, t: seq<T>)
    requires Injective(key)
    requires Ascending(key, s) && Ascending(key, t)
    requires multiset(s) == multiset(t)
    ensures s == t
  {
    assert |multiset(s)| == |s| && |multiset(t)| == |t|;
    if s != [] {
      FirstKeys(key, s, t);
      FirstKeys(key, t, s);
      RestContents(s, t);
      AscendingUnique(key, s[1..], t[1..]);
      assert s == [s[0]] + s[1..] && t == [t[0]] + t[1..];
    }
  }

  /** Sorting forgets the order of its input and nothing else. */
  lemma SortIgnoresOrder<T(!new)>(key: T -> real, s: seq<T>, t: seq<T>)
    requires Injective(key)
    ensures Sort(key, s) == Sort(key, t) <==> multiset(s) == multiset(t)
  {
    SortContents(key, s);
    SortContents(key, t);
    if multiset(s) == multiset(t) {
      AscendingUnique(key, Sort(key, s), Sort(key, t));
    }
  }

  function Map<S, T>(f: S -> T, s: seq<S>): (r: seq<T>)
    ensures |r| == |s|
    ensures forall i | 0 <= i < |s| :: r[i] == f(s[i])
  {
    seq(|s|, i requires 0 <= i < |s| => f(s[i]))
  }

  /** f keeps the order of keys, strictly. */
  ghost predicate Monotone<T(!new)>(key: T -> real, f: T -> T) {
    forall x, y {:trigger key(f(x)), key(f(y))} :: key(x) <= key(y) <==> key(f(x)) <= key(f(y))
  }

  lemma MonotoneStrict<T(!new)>(key: T -> real, f: T -> T, x: T, y: T)
    requires Monotone(key, f)
    ensures key(x) < key(y) <==> key(f(x)) < key(f(y))
  {
    assert key(y) <= key(x) <==> key(f(y)) <= key(f(x));
  }

  lemma MapAscending<T(!new)>(key: T -> real, f: T -> T, s: seq<T>)
    requires Ascending(key, s) && Monotone(key, f)
    ensures Ascending(key, Map(f, s))
  {
    forall i, j | 0 <= i < j < |s| ensures key(Map(f, s)[i]) <= key(Map(f, s)[j]) {
      assert key(s[i]) <= key(s[j]);
    }
  }

  lemma MapFirst<S, T>(f: S -> T, x: S, s: seq<S>)
    ensures Map(f, [x] + s) == [f(x)] + Map(f, s)
  {
  }

  /** What Insert does at the first element. */
  lemma InsertStep<T>(key: T -> real, x: T, s: seq<T>)
    requires Ascending(key, s) && s != [] && !(key(x) < key(s[0]))
    ensures Ascending(key, s[1..]) && Insert(key, x, s) == [s[0]] + Insert(key, x, s[1..])
  {
  }

  lemma InsertFirst<T>(key: T -> real, x: T, s: seq<T>)
    requires Ascending(key, s) && (s == [] || key(x) < key(s[0]))
    ensures Insert(key, x, s) == [x] + s
  {
  }

  lemma {:induction false} InsertMap<T(!new)>(key: T -> real, f: T -> T, x: T, s: seq<T>)
    requires Ascending(key, s) && Ascending(key, Map(f, s))
    requires Monotone(key, f)
    ensures Insert(key, f(x), Map(f, s)) == Map(f, Insert(key, x, s))
  {
    hide Ascending, Monotone, Insert;
    if s == [] {
      InsertFirst(key, x, s);
      InsertFirst(key, f(x), Map(f, s));
      MapFirst(f, x, s);
    } else {
      var first, rest := s[0], s[1..];
      assert s == [first] + rest;
      MapFirst(f, first, rest);
      MonotoneStrict(key, f, x, first);
      hide Map;
      assert Map(f, s)[0] == f(first) && Map(f, s)[1..] == Map(f, rest);
      if key(x) < key(first) {
        InsertFirst(key, x, s);
        InsertFirst(key, f(x), Map(f, s));
        MapFirst(f, x, s);
      } else {
        InsertStep(key, x, s);
        InsertStep(key, f(x), Map(f, s));
        InsertMap(key, f, x, rest);
        MapFirst(f, first, Insert(key, x, rest));
      }
    }
  }

  /** Sorting commutes with a strictly increasing change of scale. */
  lemma {:induction false} SortMap<T(!new)>(key: T -> real, f: T -> T, s: seq<T>)
    requires Monotone(key, f)
    ensures Sort(key, Map(f, s)) == Map(f, Sort(key, s))
  {
    if s != [] {
      var front := s[..|s| - 1];
      SortMap(key, f, front);
      assert Map(f, s)[..|s| - 1] == Map(f, front);
      MapAscending(key, f, Sort(key, front));
      hide Ascending, Monotone, Insert;
      InsertMap(key, f, s[|s| - 1], Sort(key, front));
    }
  }

  // ---------- counting ----------

  /** How many elements pass the test. */
  function Tally<T>(test: T -> bool, s: seq<T>): (c: nat)
    ensures c <= |s|
  {
    if s == [] then 0 else Tally(test, s[..|s| - 1]) + if test(s[|s| - 1]) then 1 else 0
  }

  function Less(v: real): real -> bool { y => y < v }
  function AtMost(v: real): real -> bool { y => y <= v }
  function Equal(v: real): real -> bool { y => y == v }

  lemma {:induction false} TallyConcat<T>(test: T -> bool, s: seq<T>, t: seq<T>)
    ensures Tally(test, s + t) == Tally(test, s) + Tally(test, t)
  {
    if t == [] {
      assert s + t == s;
    } else {
      assert (s + t)[..|s + t| - 1] == s + t[..|t| - 1];
      TallyConcat(test, s, t[..|t| - 1]);
    }
  }

  lemma {:induction false} TallyInsert<T>(key: T -> real, test: T -> bool, x: T, s: seq<T>)
    requires Ascending(key, s)
    ensures Tally(test, Insert(key, x, s)) == Tally(test, s) + if test(x) then 1 else 0
  {
    if s == [] || key(x) < key(s[0]) {
      TallyConcat(test, [x], s);
    } else {
      var rest := s[1..];
      TallyInsert(key, test, x, rest);
      TallyConcat(test, [s[0]], rest);
      assert s == [s[0]] + rest;
      TallyConcat(test, [s[0]], Insert(key, x, rest));
    }
  }

  /** Counting does not see the order. */
  lemma {:induction false} TallySort<T>(key: T -> real, test: T -> bool, s: seq<T>)
    ensures Tally(test, Sort(key, s)) == Tally(test, s)
  {
    if s != [] {
      TallySort(key, test, s[..|s| - 1]);
      TallyInsert(key, test, s[|s| - 1], Sort(key, s[..|s| - 1]));
    }
  }

  lemma {:induction false} TallyAll<T>(test: T -> bool, s: seq<T>)
    requires forall i | 0 <= i < |s| :: test(s[i])
    ensures Tally(test, s) == |s|
  {
    if s != [] { TallyAll(test, s[..|s| - 1]); }
  }

  lemma {:induction false} TallyNone<T>(test: T -> bool, s: seq<T>)
    requires forall i | 0 <= i < |s| :: !test(s[i])
    ensures Tally(test, s) == 0
  {
    if s != [] { TallyNone(test, s[..|s| - 1]); }
  }

  lemma FewSmaller(t: seq<real>, k: nat)
    requires Ascending(Real, t) && k < |t|
    ensures Tally(Less(t[k]), t) <= k
  {
    var test, high := Less(t[k]), t[k..];
    assert t == t[..k] + high;
    TallyConcat(test, t[..k], high);
    forall i | 0 <= i < |high| ensures !test(high[i]) {
      assert i == 0 || Real(t[k]) <= Real(t[k + i]);
    }
    hide Tally, Ascending;
    TallyNone(test, high);
  }

  lemma ManyAtMost(t: seq<real>, k: nat)
    requires Ascending(Real, t) && k < |t|
    ensures k < Tally(AtMost(t[k]), t)
  {
    var test, low := AtMost(t[k]), t[..k + 1];
    assert t == low + t[k + 1..];
    TallyConcat(test, low, t[k + 1..]);
    forall i | 0 <= i < |low| ensures test(low[i]) {
      assert i == k || Real(t[i]) <= Real(t[k]);
    }
    hide Tally, Ascending;
    TallyAll(test, low);
  }

  /** The element at index k of an ascending sequence has at most k smaller and more than k not larger. */
  lemma OrderStatistic(t: seq<real>, k: nat)
    requires Ascending(Real, t) && k < |t|
    ensures Tally(Less(t[k]), t) <= k < Tally(AtMost(t[k]), t)
  {
    hide Ascending, Tally, Less, AtMost;
    FewSmaller(t, k);
    ManyAtMost(t, k);
  }
}
