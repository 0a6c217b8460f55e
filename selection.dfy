/** The store's `find(filter)` and `countDocuments(filter)` over a collection
    held in its natural order: the documents satisfying a filter, order kept. */
module Selection {

  /** The elements of `s` that satisfy `p`, in their order in `s`. */
  function Select<T(!new)>(s: seq<T>, p: T -> bool): (r: seq<T>)
    ensures |r| <= |s|
    ensures forall x :: x in r <==> x in s && p(x)
    ensures multiset(r) <= multiset(s)
    decreases |s|
  {
    if s == [] then []
    else
      assert s == [s[0]] + s[1..];
      if p(s[0]) then [s[0]] + Select(s[1..], p) else Select(s[1..], p)
  }

  /** A filter every element passes selects the whole collection. */
  lemma {:induction false} SelectAll<T(!new)>(s: seq<T>, p: T -> bool)
    requires forall x :: x in s ==> p(x)
    ensures Select(s, p) == s
    decreases |s|
  {
    if s != [] {
      SelectAll(s[1..], p);
    }
  }

  /** Replacing one element changes the count by what the filter says of the old
      and the new element, and by nothing else. */
  lemma {:induction false} SelectCountAfterUpdate<T(!new)>(s: seq<T>, i: nat, y: T, p: T -> bool)
    requires i < |s|
    ensures |Select(s[i := y], p)| + (if p(s[i]) then 1 else 0)
         == |Select(s, p)| + (if p(y) then 1 else 0)
    decreases |s|
  {
    if i > 0 {
      assert s[i := y][1..] == s[1..][i - 1 := y];
      SelectCountAfterUpdate(s[1..], i - 1, y, p);
    } else {
      assert s[i := y][1..] == s[1..];
    }
  }
}
