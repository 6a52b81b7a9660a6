/**
 * The "Projects by Category" section: the total the search box shows, the
 * search that narrows the categories, and the collapse of each category
 * to its first three repositories.
 */
module CategorySection {
  import opened Wrappers
  import opened Seqs
  import opened Text
  import opened Types

  /** The fewest projects for which the search box appears. */
  const SearchThreshold: nat := 10
  /** How many repositories a collapsed category shows. */
  const CollapsedCount: nat := 3

  // ---------------------------------------------------------------------
  // the total
  // ---------------------------------------------------------------------

  /** `totalProjects`: `reduce` from the left, adding each category's repository count. */
  function TotalProjects(categories: seq<Category>): nat {
    if |categories| == 0 then 0
    else TotalProjects(categories[..|categories| - 1]) + |categories[|categories| - 1].repos|
  }

  /** The total is the number of repositories in all the categories together. */
  lemma {:induction false} TotalProjectsCounts(categories: seq<Category>)
    ensures TotalProjects(categories) == |FlatMap(categories, RepoList)|
  {
    if |categories| > 0 {
      var init, last := categories[..|categories| - 1], categories[|categories| - 1];
      TotalProjectsCounts(init);
      assert categories == init + [last];
      FlatMapConcat(init, [last], RepoList);
      assert FlatMap([last], RepoList) == last.repos + FlatMap([], RepoList);
    }
  }

  /** The search box appears when there are at least ten repositories in all. */
  predicate ShowSearch(categories: seq<Category>) {
    TotalProjects(categories) >= SearchThreshold
  }

  lemma ShowSearchSpec(categories: seq<Category>)
    ensures ShowSearch(categories) <==> |FlatMap(categories, RepoList)| >= 10
  {
    TotalProjectsCounts(categories);
  }

  // ---------------------------------------------------------------------
  // the search
  // ---------------------------------------------------------------------

  /** An optional field, lower-cased, contains the query; a missing field never does. */
  predicate FieldContains(field: Option<string>, q: string) {
    field.Some? && Contains(Lower(field.value), q)
  }

  /** The repository's name, description, one of its topics or its language contains `q`. */
  predicate RepoMatches(q: string, r: Repo) {
    || Contains(Lower(r.name), q)
    || FieldContains(r.description, q)
    || (exists i :: 0 <= i < |r.topics| && Contains(Lower(r.topics[i]), q))
    || FieldContains(r.language, q)
  }

  function Matches(q: string): Repo -> bool {
    r => RepoMatches(q, r)
  }

  /** A category with only its matching repositories. */
  function Narrowed(q: string, c: Category): Category {
    c.(repos := Filter(c.repos, Matches(q)))
  }

  function NarrowBy(q: string): Category -> Category {
    c => Narrowed(q, c)
  }

  predicate HasRepos(c: Category) {
    |c.repos| > 0
  }

  /** `filteredCategories`: a blank search keeps everything; otherwise narrow each category and drop the empty ones. */
  function FilteredCategories(categories: seq<Category>, search: string): seq<Category> {
    if Trim(search) == [] then categories
    else Filter(MapSeq(categories, NarrowBy(Lower(search))), HasRepos)
  }

  /** `a` is `b` with elements dropped, each kept one related by `rel` to the one it came from. */
  ghost predicate Embeds<A, B>(a: seq<A>, b: seq<B>, rel: (A, B) -> bool)
    decreases |b|
  {
    if |a| == 0 then true
    else |b| > 0 && ((rel(a[0], b[0]) && Embeds(a[1..], b[1..], rel)) || Embeds(a, b[1..], rel))
  }

  /** The kept category has the same title and emoji and exactly the matching repositories. */
  predicate NarrowedFrom(q: string, kept: Category, c: Category) {
    kept.title == c.title && kept.emoji == c.emoji && kept.repos == Filter(c.repos, Matches(q))
  }

  function NarrowedRel(q: string): (Category, Category) -> bool {
    (kept, c) => NarrowedFrom(q, kept, c)
  }

  function SameRepo(): (Repo, Repo) -> bool {
    (x, y) => x == y
  }

  /** Mapping and then filtering keeps the order and relates each survivor to its origin. */
  lemma {:induction false} FilterMapEmbeds<A, B>(s: seq<B>, f: B -> A, p: A -> bool, rel: (A, B) -> bool)
    requires forall x | x in s :: rel(f(x), x)
    ensures Embeds(Filter(MapSeq(s, f), p), s, rel)
  {
    if |s| > 0 {
      var m := MapSeq(s, f);
      assert m[1..] == MapSeq(s[1..], f);
      FilterMapEmbeds(s[1..], f, p, rel);
      var rest := Filter(m[1..], p);
      if p(m[0]) {
        assert Filter(m, p)[1..] == rest;
      } else {
        assert Filter(m, p) == rest;
      }
    }
  }

  /** Filtering keeps the order: the survivors are a subsequence. */
  lemma {:induction false} FilterEmbeds<T>(s: seq<T>, p: T -> bool, rel: (T, T) -> bool)
    requires forall x | x in s :: rel(x, x)
    ensures Embeds(Filter(s, p), s, rel)
  {
    if |s| > 0 {
      FilterEmbeds(s[1..], p, rel);
      var rest := Filter(s[1..], p);
      if p(s[0]) {
        assert Filter(s, p)[1..] == rest;
      } else {
        assert Filter(s, p) == rest;
      }
    }
  }

  /** Every element of `a` is related to some element of `b`. */
  lemma {:induction false} EmbedsMembers<A, B>(a: seq<A>, b: seq<B>, rel: (A, B) -> bool)
    requires Embeds(a, b, rel)
    ensures forall i | 0 <= i < |a| :: exists j :: 0 <= j < |b| && rel(a[i], b[j])
    decreases |b|
  {
    if |a| > 0 {
      if rel(a[0], b[0]) && Embeds(a[1..], b[1..], rel) {
        EmbedsMembers(a[1..], b[1..], rel);
        forall i | 0 <= i < |a| ensures exists j :: 0 <= j < |b| && rel(a[i], b[j]) {
          if i == 0 {
            assert rel(a[0], b[0]);
          } else {
            var j :| 0 <= j < |b[1..]| && rel(a[1..][i - 1], b[1..][j]);
            assert rel(a[i], b[j + 1]);
          }
        }
      } else {
        EmbedsMembers(a, b[1..], rel);
        forall i | 0 <= i < |a| ensures exists j :: 0 <= j < |b| && rel(a[i], b[j]) {
          var j :| 0 <= j < |b[1..]| && rel(a[i], b[1..][j]);
          assert rel(a[i], b[j + 1]);
        }
      }
    }
  }

  /** An embedding whose relation never enlarges a category never enlarges the whole. */
  lemma {:induction false} EmbedsTotal(a: seq<Category>, b: seq<Category>, rel: (Category, Category) -> bool)
    requires Embeds(a, b, rel)
    requires forall x, y | rel(x, y) :: |x.repos| <= |y.repos|
    ensures |FlatMap(a, RepoList)| <= |FlatMap(b, RepoList)|
    decreases |b|
  {
    if |a| > 0 {
      assert FlatMap(b, RepoList) == b[0].repos + FlatMap(b[1..], RepoList);
      if rel(a[0], b[0]) && Embeds(a[1..], b[1..], rel) {
        EmbedsTotal(a[1..], b[1..], rel);
        assert FlatMap(a, RepoList) == a[0].repos + FlatMap(a[1..], RepoList);
      } else {
        EmbedsTotal(a, b[1..], rel);
      }
    }
  }

  /** A blank search (empty or only whitespace) gives back the categories unchanged. */
  lemma SearchBlank(categories: seq<Category>, search: string)
    ensures IsBlank(search) ==> FilteredCategories(categories, search) == categories
  {
    TrimEmpty(search);
  }

  /** After a search, no category is empty and every repository shown matches the lower-cased query. */
  lemma SearchKeepsMatches(categories: seq<Category>, search: string)
    requires !IsBlank(search)
    ensures var result := FilteredCategories(categories, search);
      forall c | c in result :: |c.repos| > 0 && forall r | r in c.repos :: RepoMatches(Lower(search), r)
  {
    TrimEmpty(search);
    var q := Lower(search);
    var narrowed := MapSeq(categories, NarrowBy(q));
    FilterMembers(narrowed, HasRepos);
    forall c | c in FilteredCategories(categories, search)
      ensures |c.repos| > 0 && forall r | r in c.repos :: RepoMatches(q, r)
    {
      var i :| 0 <= i < |narrowed| && narrowed[i] == c;
      FilterMembers(categories[i].repos, Matches(q));
    }
  }

  /**
   * After a search the categories keep their order; each keeps its title and
   * emoji and exactly its matching repositories, in their order.
   */
  lemma SearchKeepsOrder(categories: seq<Category>, search: string)
    requires !IsBlank(search)
    ensures Embeds(FilteredCategories(categories, search), categories, NarrowedRel(Lower(search)))
    ensures forall c | c in categories :: Embeds(Filter(c.repos, Matches(Lower(search))), c.repos, SameRepo())
  {
    TrimEmpty(search);
    FilterMapEmbeds(categories, NarrowBy(Lower(search)), HasRepos, NarrowedRel(Lower(search)));
    forall c | c in categories
      ensures Embeds(Filter(c.repos, Matches(Lower(search))), c.repos, SameRepo())
    {
      FilterEmbeds(c.repos, Matches(Lower(search)), SameRepo());
    }
  }

  /** A search never adds a repository: each one shown is in the category of the same title and emoji. */
  lemma SearchNeverAdds(categories: seq<Category>, search: string)
    ensures var result := FilteredCategories(categories, search);
      forall i, r | 0 <= i < |result| && r in result[i].repos ::
        exists j :: (0 <= j < |categories| && categories[j].title == result[i].title
          && categories[j].emoji == result[i].emoji && r in categories[j].repos)
  {
    var result := FilteredCategories(categories, search);
    TrimEmpty(search);
    if !IsBlank(search) {
      var q := Lower(search);
      SearchKeepsOrder(categories, search);
      EmbedsMembers(result, categories, NarrowedRel(q));
      forall i, r | 0 <= i < |result| && r in result[i].repos
        ensures exists j :: (0 <= j < |categories| && categories[j].title == result[i].title
          && categories[j].emoji == result[i].emoji && r in categories[j].repos)
      {
        var j :| 0 <= j < |categories| && NarrowedRel(q)(result[i], categories[j]);
        FilterMembers(categories[j].repos, Matches(q));
      }
    } else {
      forall i, r | 0 <= i < |result| && r in result[i].repos
        ensures exists j :: (0 <= j < |categories| && categories[j].title == result[i].title
          && categories[j].emoji == result[i].emoji && r in categories[j].repos)
      {
        assert categories[i] == result[i];
      }
    }
  }

  /** A search only lowers the total. */
  lemma SearchShrinksTotal(categories: seq<Category>, search: string)
    ensures TotalProjects(FilteredCategories(categories, search)) <= TotalProjects(categories)
  {
    var result := FilteredCategories(categories, search);
    TotalProjectsCounts(result);
    TotalProjectsCounts(categories);
    TrimEmpty(search);
    if !IsBlank(search) {
      var q := Lower(search);
      SearchKeepsOrder(categories, search);
      forall x, y | NarrowedRel(q)(x, y) ensures |x.repos| <= |y.repos| {
      }
      EmbedsTotal(result, categories, NarrowedRel(q));
    }
  }

  /** A search never loses a matching repository: its category is kept, with it. */
  lemma SearchFindsAll(categories: seq<Category>, search: string)
    requires !IsBlank(search)
    ensures var result := FilteredCategories(categories, search);
      forall j, r | 0 <= j < |categories| && r in categories[j].repos && RepoMatches(Lower(search), r) ::
        exists i :: 0 <= i < |result| && result[i].title == categories[j].title
          && result[i].emoji == categories[j].emoji && r in result[i].repos
  {
    TrimEmpty(search);
    var q := Lower(search);
    var narrowed := MapSeq(categories, NarrowBy(q));
    var result := FilteredCategories(categories, search);
    FilterMembers(narrowed, HasRepos);
    forall j, r | 0 <= j < |categories| && r in categories[j].repos && RepoMatches(q, r)
      ensures exists i :: (0 <= i < |result| && result[i].title == categories[j].title
        && result[i].emoji == categories[j].emoji && r in result[i].repos)
    {
      FilterMembers(categories[j].repos, Matches(q));
      var c := narrowed[j];
      assert r in c.repos;
      assert c in result;
      var i :| 0 <= i < |result| && result[i] == c;
    }
  }

  // ---------------------------------------------------------------------
  // collapse
  // ---------------------------------------------------------------------

  /** The category whose title is the expanded one shows everything. */
  predicate IsExpanded(expanded: Option<string>, c: Category) {
    expanded == Some(c.title)
  }

  /** `visibleRepos`: all when expanded, otherwise `slice(0, 3)`. */
  function VisibleRepos(expanded: Option<string>, c: Category): seq<Repo> {
    if IsExpanded(expanded, c) then c.repos else Take(c.repos, CollapsedCount)
  }

  /** `hasMore`: there is something to expand. */
  predicate HasMore(c: Category) {
    |c.repos| > CollapsedCount
  }

  /** The text of the expand button. */
  function ToggleText(expanded: Option<string>, c: Category): string {
    if IsExpanded(expanded, c) then "Show less" else "Show " + IntToString(|c.repos| - CollapsedCount) + " more"
  }

  /** A collapsed category shows its first three repositories and the button counts exactly the hidden rest. */
  lemma CollapseSpec(expanded: Option<string>, c: Category)
    ensures IsExpanded(expanded, c) ==> VisibleRepos(expanded, c) == c.repos
    ensures !IsExpanded(expanded, c) ==>
      && |VisibleRepos(expanded, c)| == (if |c.repos| < 3 then |c.repos| else 3)
      && VisibleRepos(expanded, c) + c.repos[|VisibleRepos(expanded, c)|..] == c.repos
    ensures !HasMore(c) ==> VisibleRepos(expanded, c) == c.repos
    ensures HasMore(c) && !IsExpanded(expanded, c) ==>
      var hidden := |c.repos| - |VisibleRepos(expanded, c)|;
      hidden > 0 && ToggleText(expanded, c) == "Show " + NatToString(hidden) + " more"
  {
  }
}
