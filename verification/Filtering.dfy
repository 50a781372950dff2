/** The elements of a sequence that pass a test, in their order. */
module Filtering {
  import opened Sorting

  function Filter<T>(keep: T -> bool, s: seq<T>): (r: seq<T>)
    ensures |r| <= |s|
    ensures forall x | x in r :: x in s && keep(x)
  {
    if s == [] then []
    else Filter(keep, s[..|s| - 1]) + if keep(s[|s| - 1]) then [s[|s| - 1]] else []
  }

  lemma {:induction false} FilterConcat<T>(keep: T -> bool, s: seq<T>, t: seq<T>)
    ensures Filter(keep, s + t) == Filter(keep, s) + Filter(keep, t)
  {
    if t == [] {
      assert s + t == s;
    } else {
      assert (s + t)[..|s + t| - 1] == s + t[..|t| - 1];
      FilterConcat(keep, s, t[..|t| - 1]);
    }
  }

  lemma {:induction false} FilterContents<T>(keep: T -> bool, s: seq<T>)
    ensures forall v :: multiset(Filter(keep, s))[v] == if keep(v) then multiset(s)[v] else 0
  {
    if s != [] {
      SplitLast(s);
      FilterContents(keep, s[..|s| - 1]);
    }
  }

  lemma FilterIgnoresOrder<T>(keep: T -> bool, s: seq<T>, t: seq<T>)
    requires multiset(s) == multiset(t)
    ensures multiset(Filter(keep, s)) == multiset(Filter(keep, t))
  {
    FilterContents(keep, s);
    FilterContents(keep, t);
  }
}
