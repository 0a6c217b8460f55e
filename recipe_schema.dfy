/** The Recipe document: its fields, the defaults a new document starts with,
    the `required` validation run when one is created, and the patch an update applies. */
module RecipeSchema {
  import opened Types
  import opened Ratings

  datatype Recipe = Recipe(
    id: RecipeId,
    title: string,
    description: string,
    image: string,
    prepTime: int,
    difficulty: string,
    category: string,
    cuisine: string,
    diet: string,
    serves: int,
    calories: Option<int>,
    ingredients: seq<string>,
    instructions: seq<string>,
    user: UserId,                 // the owner
    likes: int,
    likedBy: seq<UserId>,
    views: int,
    averageRating: real,
    ratingCount: int,
    ratings: seq<RatingEntry>,    // ref = the rater
    createdAt: nat)

  /** The body of a create request: every schema field the client may send. */
  datatype RecipeDraft = RecipeDraft(
    title: Option<string>,
    description: Option<string>,
    image: Option<string>,
    prepTime: Option<int>,
    difficulty: Option<string>,
    category: Option<string>,
    cuisine: Option<string>,
    diet: Option<string>,
    serves: Option<int>,
    calories: Option<int>,
    ingredients: seq<string>,
    instructions: seq<string>)

  /** Mongoose's `required` on a String rejects a missing value and the empty string. */
  predicate RequiredString(s: Option<string>) { s.Some? && s.value != "" }

  predicate AllNonEmpty(ss: seq<string>) { forall i :: 0 <= i < |ss| ==> ss[i] != "" }

  /** Every `required: true` path of the schema holds a value. */
  predicate Complete(d: RecipeDraft)
  {
    && RequiredString(d.title) && RequiredString(d.description) && RequiredString(d.image)
    && d.prepTime.Some? && RequiredString(d.difficulty) && RequiredString(d.category)
    && RequiredString(d.cuisine) && RequiredString(d.diet) && d.serves.Some?
    && AllNonEmpty(d.ingredients) && AllNonEmpty(d.instructions)
  }

  /** The `required` validators every `save` of a loaded recipe runs again: each
      required string is non-empty and so is every ingredient and instruction.
      (`prepTime`, `serves` and the owner are always present in this model.) */
  predicate RequiredFieldsPresent(r: Recipe)
  {
    && r.title != "" && r.description != "" && r.image != "" && r.difficulty != ""
    && r.category != "" && r.cuisine != "" && r.diet != ""
    && AllNonEmpty(r.ingredients) && AllNonEmpty(r.instructions)
  }

  /** The cached aggregates agree with the collections they summarise:
      `likes` counts the distinct likers, `ratingCount` the distinct raters,
      `averageRating` is the exact mean of the ratings, every rating is within
      the schema bounds, and `views` is non-negative. */
  predicate Consistent(r: Recipe)
  {
    && r.likes == |r.likedBy| && NoDup(r.likedBy)
    && r.views >= 0
    && AllInRange(r.ratings) && UniqueRefs(r.ratings)
    && r.ratingCount == |r.ratings|
    && r.averageRating == Mean(r.ratings)
  }

  /** `new Recipe(body)` followed by the validation `save` runs: fails unless every
      required field is present, otherwise copies the fields and starts every
      counter and aggregate at its default of 0, with no likers and no ratings. */
  function NewRecipe(d: RecipeDraft, id: RecipeId, owner: UserId, now: nat): (r: Result<Recipe>)
    ensures r.Success? <==> Complete(d)
    ensures r.Failure? ==> r.error == ServerError
    ensures r.Success? ==> r.value.id == id && r.value.user == owner && r.value.createdAt == now
    ensures r.Success? ==> (r.value.likes == 0 && r.value.views == 0
                            && r.value.averageRating == 0.0 && r.value.ratingCount == 0
                            && r.value.likedBy == [] && r.value.ratings == [])
    ensures r.Success? ==> Consistent(r.value) && RequiredFieldsPresent(r.value)
    ensures r.Success? ==> (r.value.title == d.title.value && r.value.ingredients == d.ingredients
                            && r.value.category == d.category.value && r.value.cuisine == d.cuisine.value
                            && r.value.diet == d.diet.value && r.value.difficulty == d.difficulty.value)
    ensures r.Success? ==> (r.value.description == d.description.value && r.value.image == d.image.value
                            && r.value.prepTime == d.prepTime.value && r.value.serves == d.serves.value
                            && r.value.calories == d.calories && r.value.instructions == d.instructions)
  {
    if !Complete(d) then Failure(ServerError)
    else Success(Recipe(
      id, d.title.value, d.description.value, d.image.value, d.prepTime.value,
      d.difficulty.value, d.category.value, d.cuisine.value, d.diet.value,
      d.serves.value, d.calories, d.ingredients, d.instructions,
      owner, 0, [], 0, 0.0, 0, [], now))
  }

  /** The body of an update request; an absent field is left as it is. */
  datatype RecipePatch = RecipePatch(
    title: Option<string>,
    description: Option<string>,
    image: Option<string>,
    prepTime: Option<int>,
    difficulty: Option<string>,
    category: Option<string>,
    cuisine: Option<string>,
    diet: Option<string>,
    serves: Option<int>,
    calories: Option<int>,
    ingredients: Option<seq<string>>,
    instructions: Option<seq<string>>)

  function Or<T>(o: Option<T>, current: T): T
  {
    if o.Some? then o.value else current
  }

  /** A field after an update: the given value when the update carries one, else the old value. */
  predicate SetOrKept<T(==)>(o: Option<T>, after: T, before: T)
  {
    if o.Some? then after == o.value else after == before
  }

  /** The update document applied by `findOneAndUpdate`: it sets the fields the
      patch carries and leaves identity, owner, counters and ratings alone. */
  function ApplyPatch(r: Recipe, p: RecipePatch): (r': Recipe)
    ensures r'.id == r.id && r'.user == r.user && r'.createdAt == r.createdAt
    ensures r'.likes == r.likes && r'.likedBy == r.likedBy && r'.views == r.views
    ensures r'.ratings == r.ratings && r'.ratingCount == r.ratingCount
    ensures r'.averageRating == r.averageRating
    ensures Consistent(r) ==> Consistent(r')
    ensures SetOrKept(p.title, r'.title, r.title) && SetOrKept(p.description, r'.description, r.description)
    ensures SetOrKept(p.image, r'.image, r.image) && SetOrKept(p.prepTime, r'.prepTime, r.prepTime)
    ensures SetOrKept(p.difficulty, r'.difficulty, r.difficulty) && SetOrKept(p.category, r'.category, r.category)
    ensures SetOrKept(p.cuisine, r'.cuisine, r.cuisine) && SetOrKept(p.diet, r'.diet, r.diet)
    ensures SetOrKept(p.serves, r'.serves, r.serves) && SetOrKept(p.ingredients, r'.ingredients, r.ingredients)
    ensures SetOrKept(p.instructions, r'.instructions, r.instructions)
    ensures p.calories.Some? ==> r'.calories == p.calories
    ensures p.calories.None? ==> r'.calories == r.calories
  {
    r.(title := Or(p.title, r.title),
       description := Or(p.description, r.description),
       image := Or(p.image, r.image),
       prepTime := Or(p.prepTime, r.prepTime),
       difficulty := Or(p.difficulty, r.difficulty),
       category := Or(p.category, r.category),
       cuisine := Or(p.cuisine, r.cuisine),
       diet := Or(p.diet, r.diet),
       serves := Or(p.serves, r.serves),
       calories := if p.calories.Some? then p.calories else r.calories,
       ingredients := Or(p.ingredients, r.ingredients),
       instructions := Or(p.instructions, r.instructions))
  }

  /** Sending the same update twice leaves the recipe as the first one left it. */
  lemma PatchIdempotent(r: Recipe, p: RecipePatch)
    ensures ApplyPatch(ApplyPatch(r, p), p) == ApplyPatch(r, p)
  {
  }

  /** An empty patch changes nothing. */
  lemma EmptyPatchIsIdentity(r: Recipe)
    ensures ApplyPatch(r, RecipePatch(None, None, None, None, None, None, None, None, None, None, None, None)) == r
  {
  }
}
