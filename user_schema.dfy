/** The User document: the `trim` setter on the full name, the `lowercase` and
    `trim` setters and the unique index on the email, and the user-side rating mirror. */
module UserSchema {
  import opened Types
  import opened Text
  import opened Ratings

  datatype User = User(
    id: UserId,
    fullName: string,
    email: string,
    password: string,             // the stored hash
    ratings: seq<RatingEntry>)    // ref = the rated recipe

  /** What the handlers send back for a user: every field but the password. */
  datatype PublicUser = PublicUser(id: UserId, fullName: string, email: string, ratings: seq<RatingEntry>)

  function Public(u: User): PublicUser
  {
    PublicUser(u.id, u.fullName, u.email, u.ratings)
  }

  /** The `required` validators every `save` of a loaded user runs again. */
  predicate UserFieldsPresent(u: User)
  {
    u.fullName != "" && u.email != "" && u.password != ""
  }

  /** The user-side entries keep one entry per recipe, each within the schema bounds. */
  predicate UserConsistent(u: User)
  {
    UniqueRefs(u.ratings) && AllInRange(u.ratings)
  }

  /** The setters of `email`, in schema order: `lowercase`, then `trim`. */
  function NormaliseEmail(s: string): (r: string)
    ensures r == Lower(Trim(s))
    ensures |r| <= |s|
    ensures Lower(r) == r
    ensures r == [] || (!IsSpace(r[0]) && !IsSpace(r[|r| - 1]))
  {
    LowerTrimCommute(s);
    LowerOfTrimmed(s, Trim(s));
    Trim(Lower(s))
  }

  /** Lower-casing a trimmed part of `s` gives a lower-case string, no longer
      than `s`, with no whitespace at either end. */
  lemma LowerOfTrimmed(s: string, t: string)
    requires |t| <= |s| && (t == [] || (!IsSpace(t[0]) && !IsSpace(t[|t| - 1])))
    ensures |Lower(t)| <= |s| && Lower(Lower(t)) == Lower(t)
    ensures Lower(t) == [] || (!IsSpace(Lower(t)[0]) && !IsSpace(Lower(t)[|t| - 1]))
  {
    LowerIdempotent(t);
    LowerKeepsEnds(t);
  }

  /** A stored email is already normal: normalising it again is the identity. */
  lemma NormaliseEmailIdempotent(s: string)
    ensures NormaliseEmail(NormaliseEmail(s)) == NormaliseEmail(s)
  {
    var r := NormaliseEmail(s);
    assert Lower(r) == r;
    TrimFixed(r);
  }

  /** Emails that differ only in the case of their letters are stored as the same value. */
  lemma NormaliseEmailIgnoresCase(a: string, b: string)
    requires Lower(a) == Lower(b)
    ensures NormaliseEmail(a) == NormaliseEmail(b)
  {
    LowerTrimCommute(a);
    LowerTrimCommute(b);
  }

  /** Whitespace typed around an email is not stored. */
  lemma NormaliseEmailIgnoresPadding(w1: string, s: string, w2: string)
    requires AllSpace(w1) && AllSpace(w2)
    ensures NormaliseEmail(w1 + s + w2) == NormaliseEmail(s)
  {
    TrimIgnoresPadding(w1, s, w2);
  }

  /** The unique index on `email`: no two users hold the same stored email. */
  predicate UniqueEmails(users: map<UserId, User>)
  {
    forall a, b :: a in users && b in users && a != b ==> users[a].email != users[b].email
  }

  /** Some user other than `caller` holds `email`. */
  predicate HeldByOther(users: map<UserId, User>, caller: UserId, email: string)
  {
    exists other :: other in users && other != caller && users[other].email == email
  }

  /** A freshly built user document: trimmed name, normalised email,
      no ratings yet. */
  function NewUser(id: UserId, fullName: string, email: string, password: string): (u: User)
    ensures u.id == id && u.ratings == [] && u.password == password && UserConsistent(u)
    ensures u.fullName == Trim(fullName)
    ensures u.email == NormaliseEmail(email)
  {
    User(id, Trim(fullName), NormaliseEmail(email), password, [])
  }

  /** `new User(...)` followed by the validation `save` runs: the `required`
      validators see the values the setters produced, so an empty name, email or
      password, after trimming, is refused. */
  function ValidatedUser(id: UserId, fullName: string, email: string, password: string): (r: Result<User>)
    ensures r.Success? <==> Trim(fullName) != "" && NormaliseEmail(email) != "" && password != ""
    ensures r.Failure? ==> r.error == ServerError
    ensures r.Success? ==> r.value == NewUser(id, fullName, email, password) && UserFieldsPresent(r.value)
  {
    var u := NewUser(id, fullName, email, password);
    if !UserFieldsPresent(u) then Failure(ServerError) else Success(u)
  }

  /** The profile fields an update request may carry; an absent field is left as it is. */
  datatype UserPatch = UserPatch(fullName: Option<string>, email: Option<string>)

  /** `findByIdAndUpdate(id, updates)`: the update document passes through the
      same setters, so a new name is trimmed and a new email normalised. */
  function ApplyUserPatch(u: User, p: UserPatch): (u': User)
    ensures u'.id == u.id && u'.password == u.password && u'.ratings == u.ratings
    ensures p.fullName.None? ==> u'.fullName == u.fullName
    ensures p.fullName.Some? ==> u'.fullName == Trim(p.fullName.value)
    ensures p.email.None? ==> u'.email == u.email
    ensures p.email.Some? ==> u'.email == NormaliseEmail(p.email.value)
  {
    u.(fullName := if p.fullName.Some? then Trim(p.fullName.value) else u.fullName,
       email := if p.email.Some? then NormaliseEmail(p.email.value) else u.email)
  }

}
