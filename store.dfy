/** The two collections the handlers work on, held in memory: recipes and
    users by id, the recipes' natural order, and the next free id. Each
    state-changing handler is a method; the read-only handlers are the
    functions of RecipeQueries and Profiles applied to `Collection()` and `users`. */
module Store {
  import opened Types
  import opened Text
  import opened Ratings
  import opened Selection
  import opened RecipeSchema
  import opened UserSchema
  import opened RecipeRules
  import opened Profiles

  /** The recipes of `table` listed in the order of `ids`. */
  function Gather(ids: seq<RecipeId>, table: map<RecipeId, Recipe>): (r: seq<Recipe>)
    requires forall id :: id in ids ==> id in table
    ensures |r| == |ids|
    ensures forall j :: 0 <= j < |ids| ==> r[j] == table[ids[j]]
  {
    seq(|ids|, j requires 0 <= j < |ids| => table[ids[j]])
  }

  /** Adding a recipe under a new id at the end of the order appends it to the collection. */
  lemma GatherAppend(ids: seq<RecipeId>, table: map<RecipeId, Recipe>, id: RecipeId, r: Recipe)
    requires forall k :: k in ids ==> k in table
    requires id !in ids
    ensures Gather(ids + [id], table[id := r]) == Gather(ids, table) + [r]
  {
    var a := Gather(ids + [id], table[id := r]);
    var b := Gather(ids, table) + [r];
    forall j | 0 <= j < |a| ensures a[j] == b[j] {
      if j < |ids| {
        assert (ids + [id])[j] == ids[j] && ids[j] != id;
      }
    }
  }

  /** The filter keeping every id but `id`. */
  function OtherId(id: RecipeId): RecipeId -> bool
  {
    (x: RecipeId) => x != id
  }

  /** The filter keeping every recipe but the one under `id`. */
  function OtherRecipe(id: RecipeId): Recipe -> bool
  {
    (x: Recipe) => x.id != id
  }

  lemma GatherCons(ids: seq<RecipeId>, table: map<RecipeId, Recipe>)
    requires ids != [] && forall k :: k in ids ==> k in table
    ensures Gather(ids, table) == [table[ids[0]]] + Gather(ids[1..], table)
  {
  }

  /** Dropping one id from the table and the order drops exactly the recipe
      carrying that id from the collection, keeping the others in order. */
  lemma {:induction false} GatherRemove(ids: seq<RecipeId>, table: map<RecipeId, Recipe>, id: RecipeId)
    requires forall k :: k in ids ==> k in table && table[k].id == k
    ensures forall k :: k in Select(ids, OtherId(id)) ==> k in table - {id}
    ensures Gather(Select(ids, OtherId(id)), table - {id}) == Select(Gather(ids, table), OtherRecipe(id))
    decreases |ids|
  {
    if ids != [] {
      var rest := ids[1..];
      GatherRemove(rest, table, id);
      GatherCons(ids, table);
      var g := Gather(ids, table);
      assert g[0] == table[ids[0]] && g[0].id == ids[0];
      assert g[1..] == Gather(rest, table);
      if ids[0] != id {
        assert Select(ids, OtherId(id)) == [ids[0]] + Select(rest, OtherId(id));
        assert Select(g, OtherRecipe(id)) == [g[0]] + Select(g[1..], OtherRecipe(id));
        GatherCons(Select(ids, OtherId(id)), table - {id});
      } else {
        assert Select(ids, OtherId(id)) == Select(rest, OtherId(id));
        assert Select(g, OtherRecipe(id)) == Select(g[1..], OtherRecipe(id));
      }
    }
  }

  /** Saving a recipe back under an id of the order replaces it in place in the collection. */
  lemma GatherUpdate(ids: seq<RecipeId>, table: map<RecipeId, Recipe>, p: nat, r: Recipe)
    requires forall k :: k in ids ==> k in table
    requires p < |ids| && NoDup(ids)
    ensures Gather(ids, table[ids[p] := r]) == Gather(ids, table)[p := r]
  {
  }

  /** `find(...)` on the ratings array: the position of the first entry for `k`. */
  method FindEntry(es: seq<RatingEntry>, k: nat) returns (found: Option<nat>)
    ensures found == IndexOf(es, k)
  {
    var i := 0;
    while i < |es|
      invariant 0 <= i <= |es|
      invariant forall j :: 0 <= j < i ==> es[j].ref != k
    {
      if es[i].ref == k {
        return Some(i);
      }
      i := i + 1;
    }
    return None;
  }

  /** `reduce((sum, r) => sum + r.rating, 0)`: the left-to-right sum of the ratings. */
  method SumRatings(es: seq<RatingEntry>) returns (s: real)
    ensures s == Sum(es)
  {
    s := 0.0;
    var i := 0;
    while i < |es|
      invariant 0 <= i <= |es|
      invariant s == Sum(es[..i])
    {
      assert es[..i + 1][..i] == es[..i];
      s := s + es[i].rating;
      i := i + 1;
    }
    assert es[..i] == es;
  }

  /** The in-place edits `rateRecipe` makes to the loaded recipe before saving it:
      overwrite the rater's entry or push a new one and bump `ratingCount`, then
      recompute the average by summing every entry. */
  method RateLoaded(r: Recipe, u: UserId, v: real) returns (r': Recipe)
    ensures r' == RateOnRecipe(r, u, v)
  {
    r' := r;
    var existing := FindEntry(r'.ratings, u);
    if existing.Some? {
      r' := r'.(ratings := r'.ratings[existing.value := RatingEntry(u, v)]);
    } else {
      r' := r'.(ratings := r'.ratings + [RatingEntry(u, v)]);
      r' := r'.(ratingCount := r'.ratingCount + 1);
    }
    var total := SumRatings(r'.ratings);
    r' := r'.(averageRating := total / (|r'.ratings| as real));
  }

  /** The in-place edit `rateRecipe` makes to the loaded rater before saving it:
      overwrite the entry for the recipe or push a new one. */
  method MirrorRating(usr: User, recipe: RecipeId, v: real) returns (usr': User)
    ensures usr' == RateOnUser(usr, recipe, v)
  {
    usr' := usr;
    var existing := FindEntry(usr'.ratings, recipe);
    if existing.Some? {
      usr' := usr'.(ratings := usr'.ratings[existing.value := RatingEntry(recipe, v)]);
    } else {
      usr' := usr'.(ratings := usr'.ratings + [RatingEntry(recipe, v)]);
    }
  }

  /** The recipe table: every recipe under its own id, below the next free id,
      with consistent aggregates, and listed exactly once in the order. */
  ghost predicate RecipesValid(recipes: map<RecipeId, Recipe>, order: seq<RecipeId>, nextId: nat)
  {
    && (forall id :: id in recipes ==> recipes[id].id == id && id < nextId && Consistent(recipes[id]))
    && NoDup(order)
    && (forall id :: id in order <==> id in recipes)
  }

  /** The user table: every user under its own id, below the next free id, with
      consistent rating entries, and no stored email held twice. */
  ghost predicate UsersValid(users: map<UserId, User>, nextId: nat)
  {
    && (forall id :: id in users ==> users[id].id == id && id < nextId && UserConsistent(users[id]))
    && UniqueEmails(users)
  }

  /** Saving a consistent recipe back under its own id keeps the recipe table valid. */
  lemma ReplaceRecipeKeepsValid(recipes: map<RecipeId, Recipe>, order: seq<RecipeId>, nextId: nat, id: RecipeId, r: Recipe)
    requires RecipesValid(recipes, order, nextId)
    requires id in recipes && r.id == id && Consistent(r)
    ensures RecipesValid(recipes[id := r], order, nextId)
  {
  }

  /** Saving a consistent user back under its own id, with an email no one else
      holds, keeps the user table valid. */
  lemma ReplaceUserKeepsValid(users: map<UserId, User>, nextId: nat, id: UserId, u: User)
    requires UsersValid(users, nextId)
    requires id in users && u.id == id && UserConsistent(u) && !HeldByOther(users, id, u.email)
    ensures UsersValid(users[id := u], nextId)
  {
  }

  /** A consistent user saved under the next free id, with an email no one
      holds, keeps the user table valid once the id is taken. */
  lemma AddUserKeepsValid(users: map<UserId, User>, nextId: nat, u: User)
    requires UsersValid(users, nextId)
    requires u.id == nextId && UserConsistent(u) && !HeldByOther(users, nextId, u.email)
    ensures UsersValid(users[nextId := u], nextId + 1)
  {
    var users' := users[nextId := u];
    forall a, b | a in users' && b in users' && a != b
      ensures users'[a].email != users'[b].email
    {
      if a == nextId {
        assert b in users && b != nextId;
      } else if b == nextId {
        assert a in users && a != nextId;
      }
    }
  }

  /** Listing a valid recipe table in its order gives every stored recipe, each
      exactly once. */
  lemma GatherListsTable(recipes: map<RecipeId, Recipe>, order: seq<RecipeId>, nextId: nat)
    requires RecipesValid(recipes, order, nextId)
    ensures forall x :: x in Gather(order, recipes) ==> x.id in recipes && recipes[x.id] == x && Consistent(x)
    ensures forall id :: id in recipes ==> recipes[id] in Gather(order, recipes)
    ensures forall i, j :: 0 <= i < j < |order| ==> Gather(order, recipes)[i].id != Gather(order, recipes)[j].id
  {
    var c := Gather(order, recipes);
    forall x | x in c ensures x.id in recipes && recipes[x.id] == x {
      var j :| 0 <= j < |c| && c[j] == x;
      assert recipes[order[j]] == x;
    }
    forall id | id in recipes ensures recipes[id] in c {
      var j :| 0 <= j < |order| && order[j] == id;
      assert c[j] == recipes[id];
    }
    assert forall j :: 0 <= j < |c| ==> c[j].id == order[j];
  }

  /** Taking the next free id keeps the recipe table valid. */
  lemma BumpKeepsRecipesValid(recipes: map<RecipeId, Recipe>, order: seq<RecipeId>, nextId: nat)
    requires RecipesValid(recipes, order, nextId)
    ensures RecipesValid(recipes, order, nextId + 1)
  {
  }

  /** The in-place edits `toggleLikeRecipe` makes to the loaded recipe before saving it. */
  method ToggleLoaded(r: Recipe, u: UserId) returns (r': Recipe)
    ensures r' == Toggle(r, u)
  {
    r' := r;
    if u in r'.likedBy {
      r' := r'.(likedBy := Pull(r'.likedBy, u));
      r' := r'.(likes := Max(0, r'.likes - 1));
    } else {
      r' := r'.(likedBy := r'.likedBy + [u]);
      r' := r'.(likes := r'.likes + 1);
    }
  }

  /** Toggling one stored recipe keeps the recipe table valid, answers a `likes`
      equal to the number of likers, and moves the toggling user's favourites
      count over the whole collection by exactly one. */
  lemma ToggleInTable(recipes: map<RecipeId, Recipe>, order: seq<RecipeId>, nextId: nat, id: RecipeId, u: UserId)
    requires RecipesValid(recipes, order, nextId) && id in recipes
    ensures RecipesValid(recipes[id := Toggle(recipes[id], u)], order, nextId)
    ensures Toggle(recipes[id], u).likes == |Toggle(recipes[id], u).likedBy|
    ensures |Favorites(Gather(order, recipes[id := Toggle(recipes[id], u)]), u)|
         == if u in recipes[id].likedBy then |Favorites(Gather(order, recipes), u)| - 1
            else |Favorites(Gather(order, recipes), u)| + 1
  {
    ToggleConsistent(recipes[id], u);
    ReplaceRecipeKeepsValid(recipes, order, nextId, id, Toggle(recipes[id], u));
    ToggleFavoritesInTable(recipes, order, nextId, id, u);
  }

  /** Toggling one stored recipe moves the toggling user's favourites count over
      the whole collection by exactly one. */
  lemma ToggleFavoritesInTable(recipes: map<RecipeId, Recipe>, order: seq<RecipeId>, nextId: nat, id: RecipeId, u: UserId)
    requires RecipesValid(recipes, order, nextId) && id in recipes
    ensures |Favorites(Gather(order, recipes[id := Toggle(recipes[id], u)]), u)|
         == if u in recipes[id].likedBy then |Favorites(Gather(order, recipes), u)| - 1
            else |Favorites(Gather(order, recipes), u)| + 1
  {
    var p :| 0 <= p < |order| && order[p] == id;
    GatherUpdate(order, recipes, p, Toggle(recipes[id], u));
    ToggleMovesFavorites(Gather(order, recipes), p, u);
  }

  /** The answer of a like toggle: which message was sent and the new `likes`. */
  datatype LikeMessage = Liked | Unliked
  datatype LikeOutcome = LikeOutcome(message: LikeMessage, likes: int)

  /** The answer of a rating: the recipe's new average and count. */
  datatype RatingSummary = RatingSummary(averageRating: real, ratingCount: int)

  /** A rating the handler accepts: present and within 1..5. */
  predicate Accepted(rating: Option<real>)
  {
    rating.Some? && InRange(rating.value)
  }

  /** The recipe under `id` exists and belongs to `caller`: the filter
      `{ _id: id, user: caller }` matches it. */
  predicate Owns(table: map<RecipeId, Recipe>, id: RecipeId, caller: UserId)
  {
    id in table && table[id].user == caller
  }

  class Store {
    var recipes: map<RecipeId, Recipe>
    var order: seq<RecipeId>
    var users: map<UserId, User>
    var nextId: nat

    /** Every record sits under its own id, below the next free id; every recipe's
        cached aggregates agree with its likers and ratings; the order lists each
        stored recipe once; the user-side ratings are one per recipe and within
        bounds; the unique index on `email` holds. */
    ghost predicate Valid()
      reads this
    {
      RecipesValid(recipes, order, nextId) && UsersValid(users, nextId)
    }

    /** The recipe collection in its natural (insertion) order. */
    function Collection(): (c: seq<Recipe>)
      reads this
      requires Valid()
      ensures |c| == |recipes|
      ensures forall x :: x in c ==> x.id in recipes && recipes[x.id] == x && Consistent(x)
      ensures forall id :: id in recipes ==> recipes[id] in c
      ensures forall i, j :: 0 <= i < j < |c| ==> c[i].id != c[j].id
    {
      assert |recipes.Keys| == |order| by { OrderCountsKeys(); }
      GatherListsTable(recipes, order, nextId);
      Gather(order, recipes)
    }

    /** A duplicate-free order that lists exactly the keys is as long as the key set. */
    lemma OrderCountsKeys()
      requires NoDup(order) && (forall id :: id in order <==> id in recipes)
      ensures |recipes.Keys| == |order|
    {
      NoDupCard(order, recipes.Keys);
    }

    static lemma {:induction false} NoDupCard(s: seq<RecipeId>, keys: set<RecipeId>)
      requires NoDup(s) && (forall id :: id in s <==> id in keys)
      ensures |keys| == |s|
      decreases |s|
    {
      if s != [] {
        var last := s[|s| - 1];
        var init := s[..|s| - 1];
        assert s == init + [last];
        assert NoDup(init) by {
          forall i, j | 0 <= i < j < |init| ensures init[i] != init[j] {
            assert init[i] == s[i] && init[j] == s[j];
          }
        }
        assert last !in init;
        NoDupCard(init, keys - {last});
      }
    }

    /** An empty database. */
    constructor ()
      ensures Valid()
      ensures recipes == map[] && order == [] && users == map[] && nextId == 0
    {
      recipes := map[];
      order := [];
      users := map[];
      nextId := 0;
    }

    /** Saving a new user document: the setters normalise the name and the email,
        the `required` validators refuse an empty name, email or password once the
        setters have run, and the unique index on `email` refuses a second holder
        of a stored email. */
    method InsertUser(fullName: string, email: string, password: string) returns (res: Result<User>)
      requires Valid()
      modifies this
      ensures Valid()
      ensures res.Failure? <==> || Trim(fullName) == "" || NormaliseEmail(email) == "" || password == ""
                                || HeldByOther(old(users), old(nextId), NormaliseEmail(email))
      ensures res.Failure? ==> res.error == ServerError && unchanged(this)
      ensures res.Success? ==> res.value == NewUser(old(nextId), fullName, email, password)
      ensures res.Success? ==> users == old(users)[old(nextId) := res.value] && nextId == old(nextId) + 1
      ensures recipes == old(recipes) && order == old(order)
    {
      var checked := ValidatedUser(nextId, fullName, email, password);
      if checked.Failure? {
        return Failure(ServerError);
      }
      var u := checked.value;
      if HeldByOther(users, nextId, u.email) {
        return Failure(ServerError);
      }
      SaveUser(u);
      res := Success(u);
    }

    /** The insert half of `InsertUser`: a validated user whose email no one
        holds is stored under the next free id. */
    method SaveUser(u: User)
      requires Valid() && u.id == nextId && UserConsistent(u) && !HeldByOther(users, nextId, u.email)
      modifies this
      ensures Valid()
      ensures users == old(users)[old(nextId) := u] && nextId == old(nextId) + 1
      ensures recipes == old(recipes) && order == old(order)
    {
      AddUserKeepsValid(users, nextId, u);
      BumpKeepsRecipesValid(recipes, order, nextId);
      users := users[nextId := u];
      nextId := nextId + 1;
      assert RecipesValid(recipes, order, nextId) && UsersValid(users, nextId);
    }

    /** `createRecipe`: the body plus the caller as owner, validated and saved
        under a fresh id at the end of the collection. */
    method CreateRecipe(draft: RecipeDraft, caller: UserId, now: nat) returns (res: Result<Recipe>)
      requires Valid()
      modifies this
      ensures Valid()
      ensures res == NewRecipe(draft, old(nextId), caller, now)
      ensures res.Failure? ==> unchanged(this)
      ensures res.Success? ==> && recipes == old(recipes)[old(nextId) := res.value]
                               && order == old(order) + [old(nextId)]
                               && nextId == old(nextId) + 1
                               && Collection() == old(Collection()) + [res.value]
      ensures users == old(users)
    {
      res := NewRecipe(draft, nextId, caller, now);
      if res.Success? {
        assert nextId !in order;
        GatherAppend(order, recipes, nextId, res.value);
        recipes := recipes[nextId := res.value];
        order := order + [nextId];
        nextId := nextId + 1;
        assert RecipesValid(recipes, order, nextId) && UsersValid(users, nextId);
      }
    }

    /** `getRecipeById`: the recipe under `id`, or 404. */
    function GetRecipeById(id: RecipeId): (res: Result<Recipe>)
      reads this
      requires Valid()
      ensures res.Success? <==> id in recipes
      ensures res.Success? ==> res.value.id == id && res.value in Collection()
      ensures res.Failure? ==> res.error == RecipeNotFound
    {
      if id in recipes then
        var c := Collection();
        var j :| 0 <= j < |order| && order[j] == id;
        assert c[j] == recipes[id];
        Success(recipes[id])
      else Failure(RecipeNotFound)
    }

    /** `updateRecipe`: applies the patch to the recipe only when its id and owner
        both match; a missing recipe and another user's recipe get the same 404. */
    method UpdateRecipe(id: RecipeId, caller: UserId, patch: RecipePatch) returns (res: Result<Recipe>)
      requires Valid()
      modifies this
      ensures Valid()
      ensures res.Success? <==> Owns(old(recipes), id, caller)
      ensures res.Failure? ==> res.error == NotFoundOrUnauthorized && unchanged(this)
      ensures res.Success? ==> && res.value == ApplyPatch(old(recipes)[id], patch)
                               && recipes == old(recipes)[id := res.value]
      ensures order == old(order) && users == old(users) && nextId == old(nextId)
    {
      if !Owns(recipes, id, caller) {
        return Failure(NotFoundOrUnauthorized);
      }
      var updated := ApplyPatch(recipes[id], patch);
      recipes := recipes[id := updated];
      assert RecipesValid(recipes, order, nextId) && UsersValid(users, nextId);
      res := Success(updated);
    }

    /** `deleteRecipe`: removes the recipe only when its id and owner both match;
        a missing recipe and another user's recipe get the same 404. Nothing
        but that one recipe leaves the collection. */
    method DeleteRecipe(id: RecipeId, caller: UserId) returns (res: Result<Recipe>)
      requires Valid()
      modifies this
      ensures Valid()
      ensures res.Success? <==> Owns(old(recipes), id, caller)
      ensures res.Failure? ==> res.error == NotFoundOrUnauthorized && unchanged(this)
      ensures res.Success? ==> && res.value == old(recipes)[id]
                               && recipes == old(recipes) - {id}
                               && order == Select(old(order), OtherId(id))
                               && Collection() == Select(old(Collection()), OtherRecipe(id))
      ensures users == old(users) && nextId == old(nextId)
    {
      if !Owns(recipes, id, caller) {
        return Failure(NotFoundOrUnauthorized);
      }
      res := Success(recipes[id]);
      GatherRemove(order, recipes, id);
      var kept := Select(order, OtherId(id));
      assert NoDup(kept) by { SelectNoDup(order, id); }
      recipes := recipes - {id};
      order := kept;
      assert RecipesValid(recipes, order, nextId) && UsersValid(users, nextId);
    }

    static lemma {:induction false} SelectNoDup(s: seq<RecipeId>, id: RecipeId)
      requires NoDup(s)
      ensures NoDup(Select(s, OtherId(id)))
      decreases |s|
    {
      if s != [] {
        assert NoDup(s[1..]) by {
          forall i, j | 0 <= i < j < |s[1..]| ensures s[1..][i] != s[1..][j] {
            assert s[1..][i] == s[i + 1] && s[1..][j] == s[j + 1];
          }
        }
        SelectNoDup(s[1..], id);
        assert s[0] !in s[1..];
      }
    }

    /** `toggleLikeRecipe`: pulls a caller who already likes the recipe and
        lowers `likes`, clamped at 0, or pushes the caller and raises `likes`;
        answers with the message and the new count. The `save` re-runs the
        `required` validators, so a recipe an update left without a required
        field is refused with a server error and nothing is saved. */
    method ToggleLike(id: RecipeId, u: UserId) returns (res: Result<LikeOutcome>)
      requires Valid()
      modifies this
      ensures Valid()
      ensures res.Failure? <==> id !in old(recipes) || !RequiredFieldsPresent(old(recipes)[id])
      ensures res.Failure? ==> res.error == (if id in old(recipes) then ServerError else RecipeNotFound)
      ensures res.Failure? ==> unchanged(this)
      ensures res.Success? ==> && recipes == old(recipes)[id := Toggle(old(recipes)[id], u)]
                               && res.value.message == (if u in old(recipes)[id].likedBy then Unliked else Liked)
                               && res.value.likes == recipes[id].likes == |recipes[id].likedBy|
      ensures order == old(order) && users == old(users) && nextId == old(nextId)
    {
      if id !in recipes {
        return Failure(RecipeNotFound);
      }
      if !RequiredFieldsPresent(recipes[id]) {
        return Failure(ServerError);
      }
      var liked := u in recipes[id].likedBy;
      var r := ToggleLoaded(recipes[id], u);
      ToggleInTable(recipes, order, nextId, id, u);
      recipes := recipes[id := r];
      assert RecipesValid(recipes, order, nextId) && UsersValid(users, nextId);
      res := Success(LikeOutcome(if liked then Unliked else Liked, r.likes));
    }

    /** `incrementViews`: one `$inc` of `views`, answering with the new count. */
    method IncrementViews(id: RecipeId) returns (res: Result<int>)
      requires Valid()
      modifies this
      ensures Valid()
      ensures res.Failure? <==> id !in old(recipes)
      ensures res.Failure? ==> res.error == RecipeNotFound && unchanged(this)
      ensures res.Success? ==> && recipes == old(recipes)[id := old(recipes)[id].(views := old(recipes)[id].views + 1)]
                               && res.value == old(recipes)[id].views + 1
                               && res.value >= 1
      ensures order == old(order) && users == old(users) && nextId == old(nextId)
    {
      if id !in recipes {
        return Failure(RecipeNotFound);
      }
      var r := recipes[id];
      r := r.(views := r.views + 1);
      ReplaceRecipeKeepsValid(recipes, order, nextId, id, r);
      recipes := recipes[id := r];
      assert RecipesValid(recipes, order, nextId) && UsersValid(users, nextId);
      res := Success(r.views);
    }

    /** `rateRecipe`: validates the score; upserts the rater's entry on the recipe,
        counting only a new rater, recomputes the average over all entries and saves
        the recipe; then upserts the mirrored entry on the rater's user record and
        saves it. Each `save` re-runs the `required` validators: a recipe missing a
        required field is refused before anything is saved, and a rater with no
        record or with a missing required field fails after the recipe was saved. */
    method RateRecipe(recipeId: RecipeId, userId: UserId, rating: Option<real>) returns (res: Result<RatingSummary>)
      requires Valid()
      modifies this
      ensures Valid()
      ensures !Accepted(rating) ==> res == Failure(InvalidRating) && unchanged(this)
      ensures Accepted(rating) && recipeId !in old(recipes) ==> res == Failure(RecipeNotFound) && unchanged(this)
      ensures (Accepted(rating) && recipeId in old(recipes) && !RequiredFieldsPresent(old(recipes)[recipeId]))
                ==> res == Failure(ServerError) && unchanged(this)
      ensures (Accepted(rating) && recipeId in old(recipes) && RequiredFieldsPresent(old(recipes)[recipeId]))
                ==> recipes == old(recipes)[recipeId := RateOnRecipe(old(recipes)[recipeId], userId, rating.value)]
      ensures (Accepted(rating) && recipeId in old(recipes) && RequiredFieldsPresent(old(recipes)[recipeId])
               && (userId !in old(users) || !UserFieldsPresent(old(users)[userId])))
                ==> res == Failure(ServerError) && users == old(users)
      ensures res.Success? <==> && Accepted(rating) && recipeId in old(recipes) && RequiredFieldsPresent(old(recipes)[recipeId])
                                && userId in old(users) && UserFieldsPresent(old(users)[userId])
      ensures res.Success? ==> && users == old(users)[userId := RateOnUser(old(users)[userId], recipeId, rating.value)]
                               && res.value == RatingSummary(recipes[recipeId].averageRating, recipes[recipeId].ratingCount)
                               && InRange(res.value.averageRating)
                               && res.value.ratingCount == |recipes[recipeId].ratings|
      ensures order == old(order) && nextId == old(nextId)
    {
      if rating.None? || rating.value < 1.0 || rating.value > 5.0 {
        return Failure(InvalidRating);
      }
      var v := rating.value;
      if recipeId !in recipes {
        return Failure(RecipeNotFound);
      }
      var saved := SaveRating(recipeId, userId, v);
      if saved.Failure? {
        return Failure(ServerError);
      }
      if userId !in users {
        return Failure(ServerError);
      }
      var mirrored := SaveMirror(recipeId, userId, v);
      if mirrored.Failure? {
        return Failure(ServerError);
      }
      res := Success(saved.value);
    }

    /** The recipe half of `rateRecipe`: the loaded recipe is rated and saved,
        unless the `required` validators refuse it. */
    method SaveRating(recipeId: RecipeId, userId: UserId, v: real) returns (res: Result<RatingSummary>)
      requires Valid() && recipeId in recipes && InRange(v)
      modifies this
      ensures Valid()
      ensures res.Failure? <==> !RequiredFieldsPresent(old(recipes)[recipeId])
      ensures res.Failure? ==> res.error == ServerError && unchanged(this)
      ensures res.Success? ==> recipes == old(recipes)[recipeId := RateOnRecipe(old(recipes)[recipeId], userId, v)]
      ensures res.Success? ==> && res.value == RatingSummary(recipes[recipeId].averageRating, recipes[recipeId].ratingCount)
                               && InRange(res.value.averageRating)
                               && res.value.ratingCount == |recipes[recipeId].ratings|
      ensures users == old(users) && order == old(order) && nextId == old(nextId)
    {
      if !RequiredFieldsPresent(recipes[recipeId]) {
        return Failure(ServerError);
      }
      var r := RateLoaded(recipes[recipeId], userId, v);
      RateConsistent(recipes[recipeId], userId, v);
      ReplaceRecipeKeepsValid(recipes, order, nextId, recipeId, r);
      recipes := recipes[recipeId := r];
      assert RecipesValid(recipes, order, nextId) && UsersValid(users, nextId);
      res := Success(RatingSummary(r.averageRating, r.ratingCount));
    }

    /** The user half of `rateRecipe`: the loaded rater gets the mirrored entry and
        is saved, unless the `required` validators refuse it. */
    method SaveMirror(recipeId: RecipeId, userId: UserId, v: real) returns (res: Result<User>)
      requires Valid() && userId in users && InRange(v)
      modifies this
      ensures Valid()
      ensures res.Failure? <==> !UserFieldsPresent(old(users)[userId])
      ensures res.Failure? ==> res.error == ServerError && unchanged(this)
      ensures res.Success? ==> && users == old(users)[userId := RateOnUser(old(users)[userId], recipeId, v)]
                               && res.value == users[userId]
      ensures recipes == old(recipes) && order == old(order) && nextId == old(nextId)
    {
      if !UserFieldsPresent(users[userId]) {
        return Failure(ServerError);
      }
      var usr := MirrorRating(users[userId], recipeId, v);
      RateOnUserConsistent(users[userId], recipeId, v);
      ReplaceUserKeepsValid(users, nextId, userId, usr);
      users := users[userId := usr];
      assert RecipesValid(recipes, order, nextId) && UsersValid(users, nextId);
      res := Success(usr);
    }

    /** `updateMe`: a non-empty new email that some other user already holds is
        refused with 409 before anything is looked up; a caller with no record
        gets 404; a write the unique index still refuses is a server error;
        otherwise the name and email are set through their setters and the
        record is answered without its password. */
    method UpdateMe(caller: UserId, patch: UserPatch) returns (res: Result<PublicUser>)
      requires Valid()
      modifies this
      ensures Valid()
      ensures (patch.email.Some? && patch.email.value != ""
               && HeldByOther(old(users), caller, NormaliseEmail(patch.email.value)))
                ==> res == Failure(EmailInUse)
      ensures res.Failure? ==> unchanged(this)
      ensures (patch.email.None? || patch.email.value == ""
               || !HeldByOther(old(users), caller, NormaliseEmail(patch.email.value)))
                ==> (caller !in old(users) ==> res == Failure(UserNotFound))
      ensures res.Success? <==> && caller in old(users)
                                && !HeldByOther(old(users), caller, ApplyUserPatch(old(users)[caller], patch).email)
      ensures res.Success? ==> && users == old(users)[caller := ApplyUserPatch(old(users)[caller], patch)]
                               && res.value == Public(users[caller])
      ensures recipes == old(recipes) && order == old(order) && nextId == old(nextId)
    {
      if patch.email.Some? && patch.email.value != "" {
        if HeldByOther(users, caller, NormaliseEmail(patch.email.value)) {
          return Failure(EmailInUse);
        }
      }
      if caller !in users {
        return Failure(UserNotFound);
      }
      var updated := ApplyUserPatch(users[caller], patch);
      if HeldByOther(users, caller, updated.email) {
        return Failure(ServerError);
      }
      ReplaceUserKeepsValid(users, nextId, caller, updated);
      users := users[caller := updated];
      assert RecipesValid(recipes, order, nextId) && UsersValid(users, nextId);
      res := Success(Public(updated));
    }
  }
}
