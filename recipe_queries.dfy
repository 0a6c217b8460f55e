/** The read-only listings of the recipe controller: the filtered, newest-first,
    paginated listing; the popular listing; the listing of one user's recipes.
    Each is a function of the collection in its natural (insertion) order. */
module RecipeQueries {
  import opened Types
  import opened Text
  import opened Selection
  import opened RecipeSchema

  /** The query string of a listing request. A filter parameter that is absent
      or empty is falsy in the handler and imposes no constraint, so both are "". */
  datatype RecipeQuery = RecipeQuery(
    search: string,
    category: string,
    cuisine: string,
    diet: string,
    difficulty: string,
    page: Option<nat>,
    limit: Option<nat>)

  const DefaultPage: nat := 1
  const DefaultLimit: nat := 10

  /** An exact-match filter on one field, applied only when the parameter is given. */
  predicate FieldMatches(param: string, value: string)
  {
    param == "" || value == param
  }

  /** The `$or` of case-insensitive searches over the title, the description
      and each ingredient, applied only when a search word is given. */
  predicate SearchMatches(r: Recipe, search: string)
  {
    || search == ""
    || ContainsIgnoringCase(r.title, search)
    || ContainsIgnoringCase(r.description, search)
    || exists i :: 0 <= i < |r.ingredients| && ContainsIgnoringCase(r.ingredients[i], search)
  }

  /** The filter document the handler builds, as a predicate on one recipe. */
  predicate Matches(r: Recipe, q: RecipeQuery)
  {
    && SearchMatches(r, q.search)
    && FieldMatches(q.category, r.category)
    && FieldMatches(q.cuisine, r.cuisine)
    && FieldMatches(q.diet, r.diet)
    && FieldMatches(q.difficulty, r.difficulty)
  }

  /** The search is insensitive to the case of the search word itself. */
  lemma SearchIgnoresCase(r: Recipe, q: RecipeQuery)
    ensures Matches(r, q) <==> Matches(r, q.(search := Lower(q.search)))
  {
    LowerIdempotent(q.search);
  }

  /** A recipe whose lower-cased title holds the lower-cased search word at some
      position matches every query that sets no exact-match filter. */
  lemma TitleHitMatches(r: Recipe, q: RecipeQuery, i: int)
    requires q.category == "" && q.cuisine == "" && q.diet == "" && q.difficulty == ""
    requires OccursAt(Lower(r.title), Lower(q.search), i)
    ensures Matches(r, q)
  {
    ContainsIffOccurs(Lower(r.title), Lower(q.search));
  }

  /** The matching recipes, in natural order. */
  function Matching(all: seq<Recipe>, q: RecipeQuery): (r: seq<Recipe>)
    ensures forall x :: x in r <==> x in all && Matches(x, q)
    ensures |r| <= |all|
    ensures multiset(r) <= multiset(all)
  {
    Select(all, (x: Recipe) => Matches(x, q))
  }

  /** A query with no filter parameters matches the whole collection. */
  lemma UnfilteredMatchesAll(all: seq<Recipe>, page: Option<nat>, limit: Option<nat>)
    ensures Matching(all, RecipeQuery("", "", "", "", "", page, limit)) == all
  {
    SelectAll(all, (x: Recipe) => Matches(x, RecipeQuery("", "", "", "", "", page, limit)));
  }

  /** A category filter excludes every recipe of another category. */
  lemma CategoryExcludes(r: Recipe, q: RecipeQuery)
    requires q.category != "" && r.category != q.category
    ensures !Matches(r, q)
  {
  }

  /** The fields listings are sorted by, descending. */
  datatype SortKey = CreatedAt | Likes | Views

  function KeyOf(r: Recipe, k: SortKey): int
  {
    match k
    case CreatedAt => r.createdAt
    case Likes => r.likes
    case Views => r.views
  }

  predicate SortedDesc(s: seq<Recipe>, k: SortKey)
  {
    forall i, j :: 0 <= i < j < |s| ==> KeyOf(s[i], k) >= KeyOf(s[j], k)
  }

  /** Inserts `x` before the first element whose key is not above its own. */
  function Insert(x: Recipe, s: seq<Recipe>, k: SortKey): (r: seq<Recipe>)
    requires SortedDesc(s, k)
    ensures SortedDesc(r, k)
    ensures multiset(r) == multiset(s) + multiset{x}
    ensures |r| == |s| + 1
  {
    if s == [] then [x]
    else if KeyOf(x, k) >= KeyOf(s[0], k) then
      ConsSorted(x, s, k);
      [x] + s
    else
      var t := Insert(x, s[1..], k);
      assert s == [s[0]] + s[1..];
      RanksAbove(s[0], x, s[1..], t, k);
      ConsSorted(s[0], t, k);
      [s[0]] + t
  }

  /** A key at least that of every element, put in front of a sorted sequence, keeps it sorted. */
  lemma ConsSorted(h: Recipe, t: seq<Recipe>, k: SortKey)
    requires SortedDesc(t, k)
    requires t == [] || KeyOf(h, k) >= KeyOf(t[0], k)
    ensures SortedDesc([h] + t, k)
  {
    var r := [h] + t;
    forall i, j | 0 <= i < j < |r| ensures KeyOf(r[i], k) >= KeyOf(r[j], k) {
      if i == 0 && j > 1 {
        assert r[j] == t[j - 1] && KeyOf(t[0], k) >= KeyOf(t[j - 1], k);
      }
    }
  }

  /** A key above `x` and above every element of a sorted `s` is above every
      element of any rearrangement of `s` with `x` added. */
  lemma RanksAbove(h: Recipe, x: Recipe, s: seq<Recipe>, t: seq<Recipe>, k: SortKey)
    requires SortedDesc([h] + s, k) && KeyOf(h, k) >= KeyOf(x, k)
    requires multiset(t) == multiset(s) + multiset{x}
    ensures t == [] || KeyOf(h, k) >= KeyOf(t[0], k)
  {
    if t != [] {
      assert t[0] in multiset(t);
      if t[0] != x {
        assert t[0] in multiset(s);
        var j :| 0 <= j < |s| && s[j] == t[0];
        var hs := [h] + s;
        assert hs[0] == h && hs[j + 1] == s[j];
        assert KeyOf(hs[0], k) >= KeyOf(hs[j + 1], k);
      }
    }
  }

  /** `sort({ [field]: -1 })`: the collection ordered by descending key. */
  function SortDesc(s: seq<Recipe>, k: SortKey): (r: seq<Recipe>)
    ensures SortedDesc(r, k)
    ensures multiset(r) == multiset(s)
    ensures |r| == |s|
  {
    if s == [] then []
    else
      assert s == [s[0]] + s[1..];
      Insert(s[0], SortDesc(s[1..], k), k)
  }

  /** `Math.ceil(total / limit)`: the fewest pages of `limit` items that hold `total` items. */
  function PageCount(total: nat, limit: nat): (pages: nat)
    requires limit >= 1
    ensures total <= pages * limit
    ensures pages == 0 || (pages - 1) * limit < total
  {
    var q := total / limit;
    if total % limit == 0 then q else
      assert (q + 1) * limit == q * limit + limit;
      q + 1
  }

  /** The `skip(skip).limit(limit)` window of a sequence. */
  function Window(s: seq<Recipe>, skip: nat, limit: nat): (r: seq<Recipe>)
    ensures |r| == if skip >= |s| then 0 else Min(limit, |s| - skip)
    ensures forall j :: 0 <= j < |r| ==> r[j] == s[skip + j]
  {
    if skip >= |s| then [] else s[skip..Min(skip + limit, |s|)]
  }

  /** A window of a sorted sequence is sorted and holds only elements of it. */
  lemma WindowOfSorted(s: seq<Recipe>, skip: nat, limit: nat, k: SortKey)
    requires SortedDesc(s, k)
    ensures SortedDesc(Window(s, skip, limit), k)
    ensures forall x :: x in Window(s, skip, limit) ==> x in s
  {
    var w := Window(s, skip, limit);
    forall i, j | 0 <= i < j < |w|
      ensures KeyOf(w[i], k) >= KeyOf(w[j], k)
    {
      assert w[i] == s[skip + i] && w[j] == s[skip + j];
    }
    forall x | x in w ensures x in s {
      var i :| 0 <= i < |w| && w[i] == x;
      assert s[skip + i] == x;
    }
  }

  /** The `{ recipes, total, page, pages }` envelope of a listing. */
  datatype Listing = Listing(recipes: seq<Recipe>, total: nat, page: nat, pages: nat)

  /** `page` and `limit` are positive when given. */
  predicate ValidPaging(q: RecipeQuery)
  {
    (q.page.Some? ==> q.page.value >= 1) && (q.limit.Some? ==> q.limit.value >= 1)
  }

  function PageOf(q: RecipeQuery): nat { if q.page.Some? then q.page.value else DefaultPage }

  function LimitOf(q: RecipeQuery): nat { if q.limit.Some? then q.limit.value else DefaultLimit }

  /** `(page - 1) * limit`: how many matches precede the requested page. */
  function SkipOf(q: RecipeQuery): nat
    requires ValidPaging(q)
  {
    (PageOf(q) - 1) * LimitOf(q)
  }

  /** The envelope for one page of the matches: the matches newest first, the
      window of at most `limit` of them after the first `skip`, how many match
      in all, and how many pages that makes. */
  function Paginate(matching: seq<Recipe>, page: nat, skip: nat, limit: nat): (l: Listing)
    requires limit >= 1
    ensures l.total == |matching| && l.page == page
    ensures l.pages == PageCount(|matching|, limit)
    ensures |l.recipes| == if skip >= |matching| then 0 else Min(limit, |matching| - skip)
    ensures |l.recipes| <= limit
    ensures SortedDesc(l.recipes, CreatedAt)
    ensures forall x :: x in l.recipes ==> x in matching
  {
    var sorted := SortDesc(matching, CreatedAt);
    var items := Window(sorted, skip, limit);
    WindowOfSorted(sorted, skip, limit, CreatedAt);
    assert forall x :: x in sorted ==> x in multiset(matching);
    Listing(items, |matching|, page, PageCount(|matching|, limit))
  }

  /** The `j`-th recipe on the page is the `(skip + j)`-th newest match. */
  lemma PaginateAt(matching: seq<Recipe>, page: nat, skip: nat, limit: nat, j: nat)
    requires limit >= 1 && j < |Paginate(matching, page, skip, limit).recipes|
    ensures skip + j < |matching|
    ensures Paginate(matching, page, skip, limit).recipes[j] == SortDesc(matching, CreatedAt)[skip + j]
  {
  }

  /** `getRecipes`: the page of the recipes that match the query. Every recipe
      listed is in the collection and matches. */
  function ListRecipes(all: seq<Recipe>, q: RecipeQuery): (l: Listing)
    requires ValidPaging(q)
    ensures l == Paginate(Matching(all, q), PageOf(q), SkipOf(q), LimitOf(q))
    ensures forall x :: x in l.recipes ==> x in all && Matches(x, q)
  {
    Paginate(Matching(all, q), PageOf(q), SkipOf(q), LimitOf(q))
  }

  /** With 25 matches and a limit of 10, page 2 holds the 11th to the 20th newest
      match, and there are 3 pages. */
  lemma PaginationExample(matching: seq<Recipe>)
    requires |matching| == 25
    ensures |Paginate(matching, 2, 10, 10).recipes| == 10
    ensures Paginate(matching, 2, 10, 10).pages == 3
    ensures Paginate(matching, 2, 10, 10).recipes == SortDesc(matching, CreatedAt)[10..20]
  {
    var l := Paginate(matching, 2, 10, 10);
    assert PageCount(25, 10) == 3;
    forall j | 0 <= j < 10 ensures l.recipes[j] == SortDesc(matching, CreatedAt)[10 + j] {
      PaginateAt(matching, 2, 10, 10, j);
    }
  }

  /** Every match appears on the page its newest-first position puts it on. */
  lemma PageHolds(matching: seq<Recipe>, page: nat, skip: nat, limit: nat, m: nat)
    requires limit >= 1 && m < |matching| && skip <= m < skip + limit
    ensures SortDesc(matching, CreatedAt)[m] in Paginate(matching, page, skip, limit).recipes
  {
    InWindow(SortDesc(matching, CreatedAt), skip, limit, m);
  }

  /** An element whose position lies in the window is in the window. */
  lemma InWindow(s: seq<Recipe>, skip: nat, limit: nat, m: nat)
    requires m < |s| && skip <= m < skip + limit
    ensures s[m] in Window(s, skip, limit)
  {
    assert Window(s, skip, limit)[m - skip] == s[m];
  }

  /** The field the popular listing sorts by: `views` when asked for, else `likes`. */
  function PopularKey(sortBy: string): (k: SortKey)
    ensures k == Views <==> sortBy == "views"
    ensures k != CreatedAt
  {
    if sortBy == "views" then Views else Likes
  }

  /** `getPopularRecipes`: the `limit` recipes ranking highest by the chosen field;
      every recipe left out ranks no higher than every one returned. */
  function Popular(all: seq<Recipe>, sortBy: string, limit: Option<nat>): (r: seq<Recipe>)
    requires limit.Some? ==> limit.value >= 1
    ensures |r| == Min(if limit.Some? then limit.value else DefaultLimit, |all|)
    ensures SortedDesc(r, PopularKey(sortBy))
    ensures multiset(r) <= multiset(all)
    ensures forall x, y :: x in r && y in multiset(all) - multiset(r) ==>
              KeyOf(x, PopularKey(sortBy)) >= KeyOf(y, PopularKey(sortBy))
  {
    var k := PopularKey(sortBy);
    var n := if limit.Some? then limit.value else DefaultLimit;
    var sorted := SortDesc(all, k);
    var m := Min(n, |sorted|);
    assert sorted == sorted[..m] + sorted[m..];
    PrefixRanksHigher(sorted, m, k);
    sorted[..m]
  }

  /** In a sorted sequence, everything before position `m` ranks at least as high
      as everything from `m` on. */
  lemma PrefixRanksHigher(s: seq<Recipe>, m: nat, k: SortKey)
    requires SortedDesc(s, k) && m <= |s|
    ensures forall x, y :: x in s[..m] && y in multiset(s[m..]) ==> KeyOf(x, k) >= KeyOf(y, k)
  {
    forall x, y | x in s[..m] && y in multiset(s[m..])
      ensures KeyOf(x, k) >= KeyOf(y, k)
    {
      var i :| 0 <= i < m && s[..m][i] == x;
      var j :| 0 <= j < |s| - m && s[m..][j] == y;
      assert s[i] == x && s[m + j] == y;
    }
  }

  /** `getUserRecipes`: the recipes owned by `u`, in natural order. */
  function UserRecipes(all: seq<Recipe>, u: UserId): (r: seq<Recipe>)
    ensures forall x :: x in r <==> x in all && x.user == u
    ensures |r| <= |all|
    ensures multiset(r) <= multiset(all)
  {
    Select(all, (x: Recipe) => x.user == u)
  }
}
