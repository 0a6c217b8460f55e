/** The profile read of the user controller: the caller's public record and
    the number of recipes the caller has liked. */
module Profiles {
  import opened Types
  import opened Selection
  import opened RecipeSchema
  import opened UserSchema
  import opened RecipeRules

  /** The `getMe` answer: the user without the password, plus `totalFavorites`. */
  datatype Profile = Profile(user: PublicUser, totalFavorites: nat)

  /** The recipes whose `likedBy` holds `u`: `countDocuments({ likedBy: u })` counts these. */
  function Favorites(collection: seq<Recipe>, u: UserId): (r: seq<Recipe>)
    ensures forall x :: x in r <==> x in collection && u in x.likedBy
    ensures |r| <= |collection|
    ensures multiset(r) <= multiset(collection)
  {
    Select(collection, (x: Recipe) => u in x.likedBy)
  }

  /** `getMe`: 404 when the caller has no record; otherwise the public record
      and the count of recipes the caller likes. */
  function GetMe(users: map<UserId, User>, collection: seq<Recipe>, caller: UserId): (r: Result<Profile>)
    ensures r.Failure? <==> caller !in users
    ensures r.Failure? ==> r.error == UserNotFound
    ensures r.Success? ==> r.value.user == Public(users[caller])
    ensures r.Success? ==> r.value.totalFavorites == |Favorites(collection, caller)|
    ensures r.Success? ==> r.value.totalFavorites <= |collection|
  {
    if caller !in users then Failure(UserNotFound)
    else Success(Profile(Public(users[caller]), |Favorites(collection, caller)|))
  }

  /** The profile never carries a password: it is the projection of the stored record. */
  lemma ProfileHidesPassword(users: map<UserId, User>, collection: seq<Recipe>, caller: UserId, pw: string)
    requires caller in users
    ensures GetMe(users[caller := users[caller].(password := pw)], collection, caller) == GetMe(users, collection, caller)
  {
  }

  /** Toggling the caller's like on one recipe of the collection moves the
      caller's favourites count by exactly one: up on a like, down on an unlike. */
  lemma ToggleMovesFavorites(collection: seq<Recipe>, i: nat, u: UserId)
    requires i < |collection|
    ensures |Favorites(collection[i := Toggle(collection[i], u)], u)|
         == if u in collection[i].likedBy then |Favorites(collection, u)| - 1
            else |Favorites(collection, u)| + 1
  {
    SelectCountAfterUpdate(collection, i, Toggle(collection[i], u), (x: Recipe) => u in x.likedBy);
  }

  /** Toggling someone else's like leaves the caller's favourites count alone. */
  lemma OtherToggleKeepsFavorites(collection: seq<Recipe>, i: nat, u: UserId, other: UserId)
    requires i < |collection| && other != u
    ensures |Favorites(collection[i := Toggle(collection[i], other)], u)| == |Favorites(collection, u)|
  {
    SelectCountAfterUpdate(collection, i, Toggle(collection[i], other), (x: Recipe) => u in x.likedBy);
  }
}
