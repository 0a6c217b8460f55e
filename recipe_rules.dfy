/** The document updates the like and rating handlers make to a loaded recipe
    and user before saving them, stated as functions of the loaded document. */
module RecipeRules {
  import opened Types
  import opened Ratings
  import opened RecipeSchema
  import opened UserSchema

  /** `MongooseArray.pull(x)`: removes every occurrence of `x`, keeps the rest in order. */
  function Pull(s: seq<UserId>, x: UserId): (r: seq<UserId>)
    ensures x !in r
    ensures forall y :: y != x ==> (y in r <==> y in s)
    ensures |r| <= |s|
    ensures x !in s ==> r == s
  {
    if s == [] then []
    else if s[0] == x then Pull(s[1..], x)
    else [s[0]] + Pull(s[1..], x)
  }

  /** Pulling an id that occurs once from a duplicate-free list removes exactly one element. */
  lemma {:induction false} PullOnce(s: seq<UserId>, x: UserId)
    requires NoDup(s) && x in s
    ensures |Pull(s, x)| == |s| - 1 && NoDup(Pull(s, x))
    decreases |s|
  {
    assert NoDup(s[1..]) by {
      forall i, j | 0 <= i < j < |s[1..]| ensures s[1..][i] != s[1..][j] {
        assert s[1..][i] == s[i + 1] && s[1..][j] == s[j + 1];
      }
    }
    if s[0] != x {
      PullOnce(s[1..], x);
      var t := Pull(s[1..], x);
      assert s[0] !in t by {
        assert s[0] !in s[1..];
      }
    } else {
      assert x !in s[1..];
    }
  }

  /** Pulling the id that was just pushed gives back the list before the push. */
  lemma {:induction false} PullPushed(s: seq<UserId>, x: UserId)
    requires x !in s
    ensures Pull(s + [x], x) == s
    decreases |s|
  {
    if s != [] {
      assert (s + [x])[1..] == s[1..] + [x];
      PullPushed(s[1..], x);
    }
  }

  /** The like toggle: a caller already in `likedBy` is pulled and `likes`
      drops by one, clamped at 0; otherwise the caller is pushed and `likes`
      grows by one. */
  function Toggle(r: Recipe, u: UserId): (r': Recipe)
    ensures u in r'.likedBy <==> u !in r.likedBy
    ensures forall y :: y != u ==> (y in r'.likedBy <==> y in r.likedBy)
    ensures u in r.likedBy ==> r'.likedBy == Pull(r.likedBy, u) && r'.likes == Max(0, r.likes - 1)
    ensures u !in r.likedBy ==> r'.likedBy == r.likedBy + [u] && r'.likes == r.likes + 1
    ensures r.likes >= 0 ==> r'.likes >= 0
    ensures u in r.likedBy ==> r'.likes >= 0
    ensures r' == r.(likedBy := r'.likedBy, likes := r'.likes)
  {
    if u in r.likedBy then r.(likedBy := Pull(r.likedBy, u), likes := Max(0, r.likes - 1))
    else r.(likedBy := r.likedBy + [u], likes := r.likes + 1)
  }

  /** On a consistent recipe the toggle keeps `likes == |likedBy|` and introduces
      no duplicate id, so the clamp never bites. */
  lemma ToggleConsistent(r: Recipe, u: UserId)
    requires Consistent(r)
    ensures Consistent(Toggle(r, u))
    ensures Toggle(r, u).likes == if u in r.likedBy then r.likes - 1 else r.likes + 1
  {
    if u in r.likedBy {
      PullOnce(r.likedBy, u);
    } else {
      var s := r.likedBy + [u];
      forall i, j | 0 <= i < j < |s| ensures s[i] != s[j] {
        if j == |s| - 1 { assert s[i] in r.likedBy; }
      }
    }
  }

  /** Like then unlike restores both `likedBy` and `likes`. */
  lemma LikeThenUnlike(r: Recipe, u: UserId)
    requires u !in r.likedBy && r.likes >= 0
    ensures Toggle(Toggle(r, u), u) == r
  {
    PullPushed(r.likedBy, u);
  }

  /** The recipe side of a rating: the rater's entry is upserted, `ratingCount`
      grows only when a new rater is appended, and `averageRating` is recomputed
      over the whole collection. */
  function RateOnRecipe(r: Recipe, u: UserId, v: real): (r': Recipe)
    ensures r'.ratings == Upsert(r.ratings, u, v)
    ensures r'.ratingCount == if HasRef(r.ratings, u) then r.ratingCount else r.ratingCount + 1
    ensures r'.ratings != [] && r'.averageRating == Sum(r'.ratings) / (|r'.ratings| as real)
    ensures r' == r.(ratings := r'.ratings, ratingCount := r'.ratingCount, averageRating := r'.averageRating)
  {
    var ratings := Upsert(r.ratings, u, v);
    r.(ratings := ratings,
       ratingCount := if IndexOf(r.ratings, u).Some? then r.ratingCount else r.ratingCount + 1,
       averageRating := Mean(ratings))
  }

  /** The user side of a rating: the mirrored `{recipe, rating}` entry is upserted. */
  function RateOnUser(usr: User, recipe: RecipeId, v: real): (usr': User)
    ensures usr'.ratings == Upsert(usr.ratings, recipe, v)
    ensures usr' == usr.(ratings := usr'.ratings)
  {
    usr.(ratings := Upsert(usr.ratings, recipe, v))
  }

  /** A valid rating keeps a consistent recipe consistent: one entry per rater,
      `ratingCount == |ratings|`, the average the exact mean, now between 1 and 5. */
  lemma RateConsistent(r: Recipe, u: UserId, v: real)
    requires Consistent(r) && InRange(v)
    ensures Consistent(RateOnRecipe(r, u, v))
    ensures InRange(RateOnRecipe(r, u, v).averageRating)
  {
    var r' := RateOnRecipe(r, u, v);
    UpsertUnique(r.ratings, u, v);
    UpsertInRange(r.ratings, u, v);
    MeanInRange(r'.ratings);
  }

  /** After rating, the rater has exactly one entry on the recipe, carrying the submitted value. */
  lemma RatedOnce(r: Recipe, u: UserId, v: real)
    requires Consistent(r)
    ensures RatingEntry(u, v) in RateOnRecipe(r, u, v).ratings
    ensures forall x :: x in RateOnRecipe(r, u, v).ratings && x.ref == u ==> x.rating == v
  {
    UpsertSingleEntry(r.ratings, u, v);
  }

  /** Submitting the same value twice leaves the recipe as the first submission left it. */
  lemma RateIdempotent(r: Recipe, u: UserId, v: real)
    ensures RateOnRecipe(RateOnRecipe(r, u, v), u, v) == RateOnRecipe(r, u, v)
  {
    var r1 := RateOnRecipe(r, u, v);
    UpsertIdempotent(r.ratings, u, v);
    assert HasRef(r1.ratings, u) by {
      var j :| 0 <= j < |r1.ratings| && r1.ratings[j] == RatingEntry(u, v);
    }
  }

  /** The same for the user-side mirror. */
  lemma RateOnUserIdempotent(usr: User, recipe: RecipeId, v: real)
    ensures RateOnUser(RateOnUser(usr, recipe, v), recipe, v) == RateOnUser(usr, recipe, v)
  {
    UpsertIdempotent(usr.ratings, recipe, v);
  }

  /** A valid rating keeps the user-side entries one per recipe and within bounds. */
  lemma RateOnUserConsistent(usr: User, recipe: RecipeId, v: real)
    requires UserConsistent(usr) && InRange(v)
    ensures UserConsistent(RateOnUser(usr, recipe, v))
    ensures forall x :: x in RateOnUser(usr, recipe, v).ratings && x.ref == recipe ==> x.rating == v
  {
    UpsertUnique(usr.ratings, recipe, v);
    UpsertInRange(usr.ratings, recipe, v);
    UpsertSingleEntry(usr.ratings, recipe, v);
  }

  /** Ratings {3, 5} average 4; the first rater then changing 3 to 1 gives {1, 5},
      average 3, with the count unchanged at 2. */
  lemma RatingExample(r: Recipe, a: UserId, b: UserId)
    requires r.ratings == [] && r.ratingCount == 0 && a != b
    ensures RateOnRecipe(RateOnRecipe(r, a, 3.0), b, 5.0).averageRating == 4.0
    ensures RateOnRecipe(RateOnRecipe(r, a, 3.0), b, 5.0).ratingCount == 2
    ensures RateOnRecipe(RateOnRecipe(RateOnRecipe(r, a, 3.0), b, 5.0), a, 1.0).averageRating == 3.0
    ensures RateOnRecipe(RateOnRecipe(RateOnRecipe(r, a, 3.0), b, 5.0), a, 1.0).ratingCount == 2
  {
    var r1 := RateOnRecipe(r, a, 3.0);
    assert r1.ratings == [RatingEntry(a, 3.0)] && r1.ratingCount == 1;
    var r2 := RateOnRecipe(r1, b, 5.0);
    SecondRater(r1, a, b);
    assert r2.ratingCount == 2;
    ReRate(r2, a, b);
  }

  /** A second, different rater joins a single rating of 3 with a 5. */
  lemma SecondRater(r1: Recipe, a: UserId, b: UserId)
    requires r1.ratings == [RatingEntry(a, 3.0)] && a != b
    ensures RateOnRecipe(r1, b, 5.0).ratings == [RatingEntry(a, 3.0), RatingEntry(b, 5.0)]
    ensures RateOnRecipe(r1, b, 5.0).averageRating == 4.0
    ensures RateOnRecipe(r1, b, 5.0).ratingCount == r1.ratingCount + 1
  {
    assert IndexOf(r1.ratings, b) == None;
    var es := [RatingEntry(a, 3.0), RatingEntry(b, 5.0)];
    assert Upsert(r1.ratings, b, 5.0) == es;
    SumOfTwo(es);
  }

  /** The first of two raters changing 3 to 1 leaves {1, 5}: average 3, count unchanged. */
  lemma ReRate(r2: Recipe, a: UserId, b: UserId)
    requires r2.ratings == [RatingEntry(a, 3.0), RatingEntry(b, 5.0)]
    ensures RateOnRecipe(r2, a, 1.0).averageRating == 3.0
    ensures RateOnRecipe(r2, a, 1.0).ratingCount == r2.ratingCount
  {
    assert IndexOf(r2.ratings, a) == Some(0);
    var es := [RatingEntry(a, 1.0), RatingEntry(b, 5.0)];
    assert Upsert(r2.ratings, a, 1.0) == es;
    SumOfTwo(es);
  }

  lemma SumOfTwo(es: seq<RatingEntry>)
    requires |es| == 2
    ensures Sum(es) == es[0].rating + es[1].rating
  {
    var init := es[..1];
    assert init[..0] == [] && init[0] == es[0];
    assert Sum(init) == es[0].rating;
  }
}
