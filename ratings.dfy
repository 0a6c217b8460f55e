/** The `{ref, rating}` entries both schemas keep, and the find-or-append rule
    the rating handler applies to them. On a recipe an entry's `ref` is the
    rater (`user` in the schema); on a user it is the rated recipe (`recipe`). */
module Ratings {
  import opened Types

  datatype RatingEntry = RatingEntry(ref: nat, rating: real)

  /** The schema bounds `min: 1, max: 5` of a rating value. */
  predicate InRange(v: real) { 1.0 <= v <= 5.0 }

  predicate AllInRange(es: seq<RatingEntry>)
  {
    forall i :: 0 <= i < |es| ==> InRange(es[i].rating)
  }

  predicate HasRef(es: seq<RatingEntry>, k: nat)
  {
    exists i :: 0 <= i < |es| && es[i].ref == k
  }

  /** At most one entry per key. */
  predicate UniqueRefs(es: seq<RatingEntry>)
  {
    forall i, j :: 0 <= i < j < |es| ==> es[i].ref != es[j].ref
  }

  /** `Array.prototype.find` by key: the position of the first entry for `k`. */
  function IndexOf(es: seq<RatingEntry>, k: nat): (r: Option<nat>)
    ensures r.Some? ==> r.value < |es| && es[r.value].ref == k
    ensures r.Some? ==> forall j :: 0 <= j < r.value ==> es[j].ref != k
    ensures r.None? <==> !HasRef(es, k)
  {
    if es == [] then None
    else if es[0].ref == k then Some(0)
    else match IndexOf(es[1..], k)
      case None => None
      case Some(i) => Some(i + 1)
  }

  /** Overwrite the value of the first entry for `k`, or append a new entry. */
  function Upsert(es: seq<RatingEntry>, k: nat, v: real): (r: seq<RatingEntry>)
    ensures |r| == if HasRef(es, k) then |es| else |es| + 1
    ensures !HasRef(es, k) ==> r == es + [RatingEntry(k, v)]
    ensures RatingEntry(k, v) in r
    ensures forall j :: 0 <= j < |es| ==> r[j].ref == es[j].ref
    ensures forall j :: 0 <= j < |es| && r[j] != es[j] ==> r[j] == RatingEntry(k, v)
    ensures HasRef(es, k) ==> && r[IndexOf(es, k).value] == RatingEntry(k, v)
                              && forall j :: 0 <= j < |es| && j != IndexOf(es, k).value ==> r[j] == es[j]
  {
    match IndexOf(es, k)
    case Some(i) =>
      var r := es[i := es[i].(rating := v)];
      assert r[i] == RatingEntry(k, v);
      r
    case None => es + [RatingEntry(k, v)]
  }

  /** `reduce((sum, r) => sum + r.rating, 0)`, folding from the left. */
  function Sum(es: seq<RatingEntry>): real
  {
    if es == [] then 0.0 else Sum(es[..|es| - 1]) + es[|es| - 1].rating
  }

  /** The arithmetic mean of the values, 0 for no entries (the schema default). */
  function Mean(es: seq<RatingEntry>): real
  {
    if es == [] then 0.0 else Sum(es) / (|es| as real)
  }

  /** Upsert keeps keys unique. */
  lemma UpsertUnique(es: seq<RatingEntry>, k: nat, v: real)
    requires UniqueRefs(es)
    ensures UniqueRefs(Upsert(es, k, v))
  {
  }

  /** On unique keys, the key has exactly one entry afterwards, carrying `v`,
      and every other entry is one that was there before. */
  lemma UpsertSingleEntry(es: seq<RatingEntry>, k: nat, v: real)
    requires UniqueRefs(es)
    ensures forall x :: x in Upsert(es, k, v) && x.ref == k ==> x == RatingEntry(k, v)
    ensures forall x :: x in Upsert(es, k, v) && x.ref != k ==> x in es
    ensures forall x :: x in es && x.ref != k ==> x in Upsert(es, k, v)
  {
    if HasRef(es, k) {
      var i := IndexOf(es, k).value;
      assert Upsert(es, k, v) == es[i := RatingEntry(k, v)];
    }
  }

  /** Upsert keeps every value within the schema bounds. */
  lemma UpsertInRange(es: seq<RatingEntry>, k: nat, v: real)
    requires AllInRange(es) && InRange(v)
    ensures AllInRange(Upsert(es, k, v))
  {
  }

  /** Submitting the same value twice leaves the entries as the first submission left them. */
  lemma UpsertIdempotent(es: seq<RatingEntry>, k: nat, v: real)
    ensures Upsert(Upsert(es, k, v), k, v) == Upsert(es, k, v)
  {
    var r := Upsert(es, k, v);
    assert HasRef(r, k) by {
      var j :| 0 <= j < |r| && r[j] == RatingEntry(k, v);
    }
    var i := IndexOf(r, k).value;
    if HasRef(es, k) {
      var i0 := IndexOf(es, k).value;
      assert r[i0] == RatingEntry(k, v);
      assert forall j :: 0 <= j < i0 ==> r[j].ref == es[j].ref;
      assert i == i0;
    } else {
      assert r == es + [RatingEntry(k, v)];
      assert i == |es|;
    }
    assert r[i] == RatingEntry(k, v);
    assert r[i := r[i].(rating := v)] == r;
  }

  /** Bounds on the sum of in-range values. */
  lemma {:induction false} SumBounds(es: seq<RatingEntry>)
    requires AllInRange(es)
    ensures |es| as real <= Sum(es) <= 5.0 * |es| as real
    decreases |es|
  {
    if es != [] {
      var init := es[..|es| - 1];
      assert AllInRange(init) by {
        forall i | 0 <= i < |init| ensures InRange(init[i].rating) {
          assert init[i] == es[i];
        }
      }
      SumBounds(init);
      assert InRange(es[|es| - 1].rating);
    }
  }

  /** The mean of in-range values is itself in range: an average rating is between 1 and 5. */
  lemma MeanInRange(es: seq<RatingEntry>)
    requires AllInRange(es) && es != []
    ensures InRange(Mean(es))
  {
    SumBounds(es);
    QuotientBounds(Sum(es), |es| as real, 1.0, 5.0);
  }

  lemma QuotientBounds(s: real, n: real, lo: real, hi: real)
    requires n > 0.0 && lo * n <= s <= hi * n
    ensures lo <= s / n <= hi
  {
  }
}
