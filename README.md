# Recipe sharing backend — a verified model of its recipe and profile handlers

The backend stores two kinds of documents, recipes and users, and its handlers create,
list, search, paginate, like, view-count, rate, update and delete recipes, and read and
update the caller's own profile. This project models those handlers over an in-memory
database and proves the rules they keep:

- every rater has at most one rating on a recipe;
- `ratingCount` equals the number of ratings;
- `averageRating` is the exact mean of the ratings: 0 while a recipe has no rating, and between 1 and 5 once it has one;
- `likes` equals the number of distinct likers and never goes negative;
- a page of a listing is the right slice of the newest-first matches;
- only the owner can update or delete a recipe;
- no two users hold the same stored email.

Layout, one module per file:

- `types.dfy` (`Types`): ids, `Option`, `Result`, the error answers and their HTTP status codes.
- `text.dfy` (`Text`): whitespace trimming, lower-casing and literal substring search on strings.
- `ratings.dfy` (`Ratings`): `{ref, rating}` entries.
  - The find-or-append upsert shared by the recipe side (ref = rater) and the user side (ref = recipe).
  - The sum and the mean.
- `recipe_schema.dfy` (`RecipeSchema`): the Recipe document.
  - Required fields, defaults and the consistency of its cached counters.
  - The update patch.
- `user_schema.dfy` (`UserSchema`): the User document.
  - The name and email setters, the unique email index and the profile patch.
- `selection.dfy` (`Selection`): `find(filter)` / `countDocuments(filter)` over a collection in natural order.
- `recipe_rules.dfy` (`RecipeRules`): the edits the like and rating handlers make to a loaded document.
- `recipe_queries.dfy` (`RecipeQueries`): the read-only recipe listings.
  - Filter, newest-first sort, skip/limit window and the page envelope.
  - The popular listing and one user's recipes.
- `profiles.dfy` (`Profiles`): the profile read, with its count of liked recipes.
- `store.dfy` (`Store`): the database as a class.
  - A recipe table, a user table, the recipes' natural order and the next free id.
  - One method per state-changing handler; each states the whole new state and keeps `Valid()`.

The read-only handlers are functions over `Store.Collection()` and `users`.
The state-changing ones are methods of `Store.Store`.
The in-place edits `toggleLikeRecipe` and `rateRecipe` make to the loaded document before saving it are small methods (`ToggleLoaded`, `RateLoaded`, `MirrorRating`, with the loops `FindEntry` and `SumRatings`). Each is proved equal to the pure rule in `RecipeRules`, and the lemmas about those rules carry over.

Two behaviours of the code that the model keeps as written:

- a rating is any number from 1 to 5, fractions included, because the handler only compares it with 1 and 5. Ratings are therefore `real`;
- a rating for a rater who has no user record is saved on the recipe before the handler fails with a server error. The model has this outcome explicitly.

## Model

| member | source | states |
|---|---|---|
| Types.Status | src/controllers/recipeController.js:159-164 | every failure answer is a 4xx or 5xx status, and only the catch-all server error is 500 |
| Text.Trim | src/models/User.js:4-8 | the trimmed string is the input with only whitespace cut off before and after it, and it starts and ends with a non-space |
| Text.TrimIgnoresPadding | src/models/User.js:4-8 | whitespace added before and after a string does not change its trim |
| Text.TrimIdempotent | src/models/User.js:4-8 | trimming an already trimmed string changes nothing |
| Text.LowerTrimCommute | src/models/User.js:9-15 | lower-casing then trimming gives the same string as trimming then lower-casing |
| Text.ContainsIffOccurs | src/controllers/recipeController.js:23-29 | the left-to-right search finds the word exactly when it occurs at some position |
| Ratings.IndexOf | src/controllers/recipeController.js:165 | `find` returns the first entry with the key, and returns nothing exactly when no entry has it |
| Ratings.Upsert | src/controllers/recipeController.js:165-171 | for an existing key only the first entry with that key, the one `find` returns, takes the new value and every other entry is kept; a new key appends exactly one entry; the submitted entry is present afterwards |
| Ratings.UpsertUnique | src/controllers/recipeController.js:165-171 | the upsert keeps at most one entry per key |
| Ratings.UpsertSingleEntry | src/controllers/recipeController.js:165-171 | after the upsert the only entry for the key carries the submitted value, and every entry for another key is kept |
| Ratings.UpsertInRange | src/models/Recipe.js:22-27 | the upsert of a value within 1..5 keeps every entry within 1..5 |
| Ratings.UpsertIdempotent | src/controllers/recipeController.js:165-171 | upserting the same key and value twice equals upserting it once |
| Ratings.SumBounds | src/controllers/recipeController.js:173 | the sum of n ratings within 1..5 lies between n and 5n |
| Ratings.MeanInRange | src/controllers/recipeController.js:173 | the mean of a non-empty collection of ratings within 1..5 lies within 1..5 |
| RecipeSchema.NewRecipe | src/models/Recipe.js:4-21 | creation succeeds exactly when every required field is present; the new recipe has every required field present, carries every field of the body, its owner, id and creation time, counters and average at 0, no likers and no ratings, and is consistent |
| RecipeSchema.ApplyPatch | src/controllers/recipeController.js:63-67 | the patch leaves id, owner, creation time, likes, likers, views and ratings unchanged, keeps consistency, sets every editable field it carries and keeps every one it does not |
| RecipeSchema.PatchIdempotent | src/controllers/recipeController.js:63-67 | applying the same update twice equals applying it once |
| RecipeSchema.EmptyPatchIsIdentity | src/controllers/recipeController.js:63-67 | an update carrying no field leaves the recipe unchanged |
| UserSchema.NormaliseEmail | src/models/User.js:9-15 | the stored email is the trimmed input in lower case; it is no longer than the input, lower-casing leaves it unchanged, and it has no whitespace at either end |
| UserSchema.NormaliseEmailIdempotent | src/models/User.js:9-15 | a stored email is already normal |
| UserSchema.NormaliseEmailIgnoresCase | src/models/User.js:9-15 | emails that differ only in the case of their letters are stored as the same value |
| UserSchema.NormaliseEmailIgnoresPadding | src/models/User.js:9-15 | whitespace typed before or after an email is not stored |
| UserSchema.NewUser | src/models/User.js:4-25 | a new user has the trimmed name, the normalised email, the password and no ratings |
| UserSchema.ValidatedUser | src/models/User.js:4-19 | creating a user fails exactly when the trimmed name, the normalised email or the password is empty, since the `required` validators see the values after the setters; otherwise the document is the new user |
| UserSchema.ApplyUserPatch | src/controllers/userController.js:31 | an update sets a given name trimmed and a given email normalised, and leaves id, password and ratings alone |
| Selection.Select | src/controllers/recipeController.js:35-36 | the selection holds exactly the elements that pass the filter, never more than the collection |
| Selection.SelectAll | src/controllers/recipeController.js:22 | a filter everything passes selects the whole collection in order |
| Selection.SelectCountAfterUpdate | src/controllers/userController.js:10 | replacing one document changes the count of matches only by what the filter says of the old and new document |
| RecipeRules.Pull | src/controllers/recipeController.js:96 | `pull` removes the id, keeps every other id and never grows the list |
| RecipeRules.PullOnce | src/controllers/recipeController.js:96 | pulling an id that occurs once from a duplicate-free list shortens it by exactly one and keeps it duplicate-free |
| RecipeRules.PullPushed | src/controllers/recipeController.js:96-99 | pulling the id just pushed gives back the previous list |
| RecipeRules.Toggle | src/controllers/recipeController.js:94-101 | a caller in `likedBy` is pulled and `likes` becomes max(0, likes − 1); any other caller is pushed once at the end and `likes` grows by one; no other id and no other field changes |
| RecipeRules.ToggleConsistent | src/controllers/recipeController.js:94-101 | on a consistent recipe the toggle keeps `likes` equal to the number of likers, without duplicates and moves `likes` by exactly one |
| RecipeRules.LikeThenUnlike | src/controllers/recipeController.js:94-101 | like then unlike restores both `likedBy` and `likes` |
| RecipeRules.RateOnRecipe | src/controllers/recipeController.js:165-173 | the rater's entry is upserted; `ratingCount` grows only for a new rater; the ratings are non-empty and the average is their sum over their number; nothing else changes |
| RecipeRules.RateOnUser | src/controllers/recipeController.js:176-182 | the mirrored `{recipe, rating}` entry is upserted on the user and nothing else changes |
| RecipeRules.RateConsistent | src/controllers/recipeController.js:165-173 | a valid rating keeps one entry per rater, `ratingCount` equal to the number of ratings, the average the exact mean, and the average within 1..5 |
| RecipeRules.RatedOnce | src/controllers/recipeController.js:165-171 | after rating, the rater's only entry on the recipe carries the submitted value |
| RecipeRules.RateIdempotent | src/controllers/recipeController.js:165-173 | submitting the same rating twice leaves the recipe as the first submission left it |
| RecipeRules.RateOnUserIdempotent | src/controllers/recipeController.js:176-182 | submitting the same rating twice leaves the user as the first submission left it |
| RecipeRules.RateOnUserConsistent | src/controllers/recipeController.js:176-182 | the user side keeps one entry per recipe, within 1..5, and the only entry for this recipe carries the submitted value |
| RecipeRules.RatingExample | src/controllers/recipeController.js:165-173 | ratings 3 and 5 average 4 with count 2; re-rating 3 as 1 gives average 3, count still 2 |
| RecipeRules.SecondRater | src/controllers/recipeController.js:168-173 | a second rater's 5 joining a single 3 appends an entry, raises the count by one and gives average 4 |
| RecipeRules.ReRate | src/controllers/recipeController.js:166-173 | the first of ratings {3, 5} re-rating as 1 keeps the count and gives average 3 |
| RecipeQueries.Matching | src/controllers/recipeController.js:22-33 | a recipe is listed exactly when it is in the collection and passes the search and every given exact-match filter, and no recipe is listed more often than it is stored, so `total` never exceeds the collection |
| RecipeQueries.UnfilteredMatchesAll | src/controllers/recipeController.js:22-33 | with no filter parameter every recipe matches, in natural order |
| RecipeQueries.CategoryExcludes | src/controllers/recipeController.js:30 | a given category excludes every recipe of another category |
| RecipeQueries.SearchIgnoresCase | src/controllers/recipeController.js:23-29 | the search matches the same recipes whatever the case of the search word |
| RecipeQueries.TitleHitMatches | src/controllers/recipeController.js:23-29 | a recipe whose title holds the search word, ignoring case, matches a query with no other filter |
| RecipeQueries.Insert | src/controllers/recipeController.js:40 | inserting into a newest-first sequence keeps it sorted and adds exactly that recipe |
| RecipeQueries.SortDesc | src/controllers/recipeController.js:40 | the sort is descending by the key and a permutation of its input |
| RecipeQueries.PageCount | src/controllers/recipeController.js:41 | `pages` is the least number of `limit`-sized pages holding `total` items |
| RecipeQueries.Window | src/controllers/recipeController.js:38-39 | the window holds at most `limit` items, the items of the input from position `skip` on |
| RecipeQueries.WindowOfSorted | src/controllers/recipeController.js:38-40 | a window of a sorted sequence is sorted and holds only its elements |
| RecipeQueries.Paginate | src/controllers/recipeController.js:34-41 | `total` counts every match; `page` is the requested page; `pages` is the ceiling of total over limit; min(limit, total − skip) items, none when skip reaches total; newest first; only matches |
| RecipeQueries.PaginateAt | src/controllers/recipeController.js:34-40 | the j-th item of the page is the (skip + j)-th newest match |
| RecipeQueries.ListRecipes | src/controllers/recipeController.js:19-46 | the listing is the page of the matches at skip (page − 1) × limit, and every listed recipe is in the collection and matches |
| RecipeQueries.PaginationExample | src/controllers/recipeController.js:34-41 | with 25 matches and limit 10, page 2 holds the 11th to 20th newest match and there are 3 pages |
| RecipeQueries.InWindow | src/controllers/recipeController.js:38-39 | an element whose position lies between skip and skip + limit is in the window |
| RecipeQueries.PageHolds | src/controllers/recipeController.js:34-40 | every match appears on the page its newest-first position falls on |
| RecipeQueries.PopularKey | src/controllers/recipeController.js:129-130 | the popular listing sorts by views exactly when asked for `views`, and by likes otherwise |
| RecipeQueries.Popular | src/controllers/recipeController.js:127-140 | the popular listing holds min(limit, collection size) recipes, sorted by the chosen field, drawn from the collection, and no recipe left out ranks above one listed |
| RecipeQueries.PrefixRanksHigher | src/controllers/recipeController.js:131-133 | in a sorted sequence every element before a cut ranks at least as high as every element after it |
| RecipeQueries.UserRecipes | src/controllers/recipeController.js:143-151 | a user's listing holds exactly the recipes that user owns, each no more often than it is stored |
| Profiles.Favorites | src/controllers/userController.js:10 | the favourites are exactly the recipes whose `likedBy` holds the user, each no more often than it is stored, so `totalFavorites` counts stored recipes |
| Profiles.GetMe | src/controllers/userController.js:5-18 | a missing user gets 404; otherwise the answer is the public record (no password) and the number of recipes the user likes |
| Profiles.ProfileHidesPassword | src/controllers/userController.js:7 | the profile answer does not depend on the stored password |
| Profiles.ToggleMovesFavorites | src/controllers/userController.js:10 | a like raises and an unlike lowers the caller's favourites count by exactly one |
| Profiles.OtherToggleKeepsFavorites | src/controllers/userController.js:10 | another user's like or unlike leaves the caller's favourites count unchanged |
| Store.GatherAppend | src/controllers/recipeController.js:9-10 | saving a recipe under a new id appends it to the collection |
| Store.GatherRemove | src/controllers/recipeController.js:79 | removing one id removes exactly that recipe from the collection and keeps the others in order |
| Store.FindEntry | src/controllers/recipeController.js:165 | the loop finds the first entry with the key, as `IndexOf` specifies |
| Store.SumRatings | src/controllers/recipeController.js:173 | the loop computes the left-to-right sum of the ratings |
| Store.RateLoaded | src/controllers/recipeController.js:165-173 | the in-place edits of the loaded recipe give exactly `RateOnRecipe` |
| Store.MirrorRating | src/controllers/recipeController.js:177-182 | the in-place edits of the loaded user give exactly `RateOnUser` |
| Store.ToggleLoaded | src/controllers/recipeController.js:94-101 | the in-place edits of the loaded recipe give exactly `Toggle` |
| Store.ToggleFavoritesInTable | src/controllers/userController.js:10 | toggling a stored recipe moves the toggling user's favourites count over the whole collection by exactly one |
| Store.ToggleInTable | src/controllers/recipeController.js:94-102 | saving a toggled recipe keeps the recipe table valid, leaves `likes` equal to the number of likers, and moves the toggling user's favourites count over the collection by exactly one |
| Store.GatherListsTable | src/controllers/recipeController.js:131 | a valid table listed in its order holds every stored recipe, only stored recipes, and no id twice |
| Store.Store.Collection | src/controllers/recipeController.js:131 | the collection lists every stored recipe, only stored recipes, no id twice, each consistent |
| Store.Store.InsertUser | src/models/User.js:4-19 | a user is saved with normalised fields under a fresh id unless the trimmed name, the normalised email or the password is empty, which the `required` validators refuse, or another user already holds the normalised email, which the unique index refuses; a refusal is a server error and changes nothing |
| Store.Store.SaveUser | src/models/User.js:9-15 | a validated user whose email no one holds is stored under the next free id, and the tables stay valid |
| Store.Store.CreateRecipe | src/controllers/recipeController.js:5-16 | the recipe is validated, gets the caller as owner and a fresh id, and is appended to the collection; a failed validation changes nothing |
| Store.Store.GetRecipeById | src/controllers/recipeController.js:49-58 | the recipe under the id, which is in the collection, or 404 exactly when there is none |
| Store.Store.UpdateRecipe | src/controllers/recipeController.js:61-74 | succeeds exactly when the recipe exists and belongs to the caller, and then replaces it by the patched recipe; otherwise one 404 and nothing changes |
| Store.Store.DeleteRecipe | src/controllers/recipeController.js:77-86 | succeeds exactly when the recipe exists and belongs to the caller, and then removes only that recipe from the table, the order and the collection; otherwise one 404 and nothing changes |
| Store.Store.ToggleLike | src/controllers/recipeController.js:89-108 | 404 for a missing recipe; 500 with nothing saved when the recipe lacks a required field, which `save` validates again; otherwise the recipe is toggled and saved, the message says whether it was an unlike, and the answered `likes` equals the number of likers |
| Store.Store.IncrementViews | src/controllers/recipeController.js:111-124 | 404 for a missing recipe; otherwise `views` grows by exactly one and the new count is answered |
| Store.Store.RateRecipe | src/controllers/recipeController.js:154-189 | an absent or out-of-range rating, a missing recipe and a recipe lacking a required field change nothing; otherwise the recipe is rated and saved; a missing rater or one lacking a required field then fails with 500 and the recipe saved; on success the user side is mirrored and the answered average, within 1..5, and count are the recipe's |
| Store.Store.SaveRating | src/controllers/recipeController.js:163-174 | the `required` validators refuse a recipe lacking a required field with 500 and nothing changes; otherwise the loaded recipe is rated and saved, the table stays valid, and the answered average lies within 1..5 and the count equals the number of ratings |
| Store.Store.SaveMirror | src/controllers/recipeController.js:176-183 | the `required` validators refuse a rater whose name, email or password is empty with 500 and nothing changes; otherwise the loaded rater gets the mirrored entry and is saved, and the table stays valid |
| Store.Store.UpdateMe | src/controllers/userController.js:21-38 | a new email held by another user gets 409 before the caller is looked up; a missing caller gets 404; failures change nothing; success stores the patched profile and answers it without the password |

## Left out

- The HTTP layer, authentication middleware, the database connection, logging and the catch-all 500 responses: a handler's answer is a `Result`.
- Signup, login and the password reset flow: the model has only the document rules they rely on. These are the user document's setters and the unique email index (`InsertUser`).
- `populate('user', 'fullName email')`: listings return recipes with the owner's id, not the joined owner fields.
- Regular-expression metacharacters in the search word: the search is a literal substring search.
- Unicode case folding: lower-casing covers ASCII letters only. Trimming covers ASCII whitespace plus a few common Unicode spaces.
- `parseInt` of `page` and `limit` and the NaN it yields on bad input: both are numbers, at least 1 (`ValidPaging`, `requires limit >= 1`). A non-integer `limit` such as `2.5` is not modelled either: the code computes `pages` from the unparsed value and the page size from the parsed one, so the two disagree.
- Floating point: `averageRating` is the exact rational mean. Numeric fields are unbounded integers.
- Concurrency: every handler runs as one atomic step. The atomicity of `$inc` and races between concurrent likes or ratings are not modelled.
- `updatedAt` and the clock: `createdAt` is a parameter of `CreateRecipe`.
- Unknown fields in a request body, mass assignment and validators: the create and update bodies are typed, so the body cannot overwrite `user`, `likes`, `views` or the ratings. `updateMe` cannot set `password` or `ratings`. Update validators are off in the code, so an update can store an empty required field; the next `save` of that document, by a like or a rating, is then refused, and the model has that refusal.
- The order of ties: the newest-first and popular sorts put the earlier stored recipe first when their `createdAt`, or the chosen `likes` or `views` count, is equal. MongoDB leaves that order unspecified (recipeController.js:38, :131), so across two page requests a tied recipe can repeat or be skipped. `PaginateAt` and `PageHolds` hold for the model's fixed order only.
- Malformed ids and the cast errors they raise: ids are natural numbers.
- The spelling of an id: `findById` also accepts an id written in upper-case hexadecimal, but the user-side lookup compares `toString()`, which is lower case, with the id as written in the URL. Re-rating through such a URL therefore appends a second user-side entry for the recipe. With ids as numbers each id has one spelling, so the model cannot show this.
- Ratings that are not numbers: the model's rating is an optional number. A non-numeric value such as `"abc"` passes the 400 guard, because comparisons with NaN are false, and then fails the save with 500; `true` is cast to 1. Neither case is modelled.
- Deleting a recipe leaves its entries on the users' `ratings`. The model keeps that behaviour and proves no link between the two sides beyond each rating call.
- Store.Store.UpdateMe: the server error from a write the unique index refuses has no ensures of its own. It falls under "failures change nothing" and the success condition.
