/**
 * What `categorizeRepos` guarantees end to end: at most eight non-empty
 * cards, "Other Projects" last, the rest by descending score; only visible
 * repositories are shown, each once when names are unique; and a repository
 * that matches a rule is shown on the card of the first rule it matches, or
 * in "Other Projects" when the cap folds that card away.
 */
module CategorizeTheorems {
  import opened Wrappers
  import opened Seqs
  import opened Types
  import opened Categorizer
  import opened CategorizeProps
  import opened RulePassProps
  import opened FallbackProps
  import opened RankCapProps

  /** A repository on a card is a repository of the list. */
  lemma MemberOfCard(cats: seq<Category>, i: nat, r: Repo)
    requires i < |cats| && r in cats[i].repos
    ensures r in Members(cats)
  {
    var a, b := cats[..i], cats[i + 1..];
    assert cats == a + [cats[i]] + b;
    FlatMapConcat(a + [cats[i]], b, RepoList);
    FlatMapConcat(a, [cats[i]], RepoList);
    assert FlatMap([cats[i]], RepoList) == cats[i].repos + FlatMap([], RepoList);
  }

  /** The map after the rule loop and the fallback, as the ranking receives it. */
  function Fallen(visible: seq<Repo>, now: int, descTest: DescTest): seq<(string, Category)> {
    Fallback(RulePass(SortedRules(), visible, now, descTest).cmap,
             Filter(visible, Unassigned(RulePass(SortedRules(), visible, now, descTest).claimed)), now)
  }

  lemma RankedIsRankOfFallen(repos: seq<Repo>, now: int, descTest: DescTest)
    ensures Ranked(repos, now, descTest) == Rank(Fallen(Filter(repos, Visible), now, descTest), now)
  {
  }

  /** The rule cards after the loop over the table. */
  lemma RuleCardsLabelled(visible: seq<Repo>, now: int, descTest: DescTest)
    ensures Labelled(RulePass(Rules, visible, now, descTest).cmap)
    ensures NoOtherKey(RulePass(Rules, visible, now, descTest).cmap)
  {
    RuleTitlesDistinct();
    RulePassShape(Rules, visible, now, descTest);
    RuleShapedLabelled(RulePass(Rules, visible, now, descTest).cmap, Rules, now);
  }

  /** The rule loop leaves labelled rule cards, and the fallback a map fit for ranking. */
  lemma FallenShape(visible: seq<Repo>, now: int, descTest: DescTest)
    ensures OneOther(Fallen(visible, now, descTest))
  {
    SortedRulesUnchanged();
    var p := RulePass(Rules, visible, now, descTest);
    RuleCardsLabelled(visible, now, descTest);
    FallbackShape(p.cmap, Filter(visible, Unassigned(p.claimed)), now);
  }

  /** Rule cards and fallback cards together hold each visible repository at most once, and once for unique names. */
  lemma FallenMembers(visible: seq<Repo>, now: int, descTest: DescTest)
    ensures multiset(MapMembers(Fallen(visible, now, descTest))) <= multiset(visible)
    ensures UniqueNames(visible) && (forall r | r in visible :: LangKey(r) != OtherLabel) ==>
      multiset(MapMembers(Fallen(visible, now, descTest))) == multiset(visible)
  {
    SortedRulesUnchanged();
    var p := RulePass(Rules, visible, now, descTest);
    var uncategorized := Filter(visible, Unassigned(p.claimed));
    RuleCardsLabelled(visible, now, descTest);
    RuleTitlesDistinct();
    RulePassMembers(Rules, visible, now, descTest);
    FallbackMembers(p.cmap, uncategorized, now);
    FilterMembers(visible, Unassigned(p.claimed));
  }

  /**
   * At most eight cards, none empty; "Other Projects" only last; every other
   * card before any card of lower category score; and exactly the ranking
   * when it has at most eight cards, else its first seven plus one
   * "Other Projects" holding the rest sorted by score.
   */
  lemma CategorizeShape(repos: seq<Repo>, now: int, descTest: DescTest)
    ensures var out := Categorize(repos, now, descTest);
      && |out| <= MaxCategories
      && (forall i :: 0 <= i < |out| ==> NonEmpty(out[i]))
      && OtherLast(out)
      && (forall i, j :: 0 <= i < j < |out| && !IsOther(out[j]) ==>
            !IsOther(out[i]) && CategoryScore(out[i].repos, now) >= CategoryScore(out[j].repos, now))
    ensures var ranked := Ranked(repos, now, descTest);
      && (|ranked| <= MaxCategories ==> Categorize(repos, now, descTest) == ranked)
      && (|ranked| > MaxCategories ==>
            && |Categorize(repos, now, descTest)| == MaxCategories
            && Categorize(repos, now, descTest)[..MaxCategories - 1] == ranked[..MaxCategories - 1]
            && Categorize(repos, now, descTest)[MaxCategories - 1]
               == OtherCategory(SortRepos(Members(ranked[MaxCategories - 1..]), now)))
  {
    var ranked := Ranked(repos, now, descTest);
    var out := Categorize(repos, now, descTest);
    RankedIsRankOfFallen(repos, now, descTest);
    FallenShape(Filter(repos, Visible), now, descTest);
    RankOrdered(Fallen(Filter(repos, Visible), now, descTest), now);
    CapShape(ranked, now);
    forall i, j | 0 <= i < j < |out| && !IsOther(out[j])
      ensures !IsOther(out[i]) && CategoryScore(out[i].repos, now) >= CategoryScore(out[j].repos, now)
    {
      if |ranked| > MaxCategories {
        assert j < MaxCategories - 1;
        assert out[i] == out[..MaxCategories - 1][i] && out[j] == out[..MaxCategories - 1][j];
      }
    }
  }

  /** The cards show the visible repositories, each no more often than it is listed. */
  lemma CategorizeMembers(repos: seq<Repo>, now: int, descTest: DescTest)
    ensures multiset(Members(Categorize(repos, now, descTest))) <= multiset(Filter(repos, Visible))
    ensures UniqueNames(repos) && (forall r | r in repos :: r.language != Some(OtherLabel)) ==>
      multiset(Members(Categorize(repos, now, descTest))) == multiset(Filter(repos, Visible))
  {
    var visible := Filter(repos, Visible);
    RankedIsRankOfFallen(repos, now, descTest);
    CapMembers(Ranked(repos, now, descTest), now);
    RankMembers(Fallen(visible, now, descTest), now);
    FallenMembers(visible, now, descTest);
    FilterMembers(repos, Visible);
  }

  /** Only visible repositories of the list are shown. */
  lemma CategorizeShowsVisible(repos: seq<Repo>, now: int, descTest: DescTest, i: nat, r: Repo)
    requires i < |Categorize(repos, now, descTest)| && r in Categorize(repos, now, descTest)[i].repos
    ensures r in repos && Visible(r)
  {
    MemberOfCard(Categorize(repos, now, descTest), i, r);
    CategorizeMembers(repos, now, descTest);
    assert r in multiset(Filter(repos, Visible));
    FilterMembers(repos, Visible);
  }

  /** Before the cap, a repository that matches a rule is on that first-matching rule's card. */
  lemma RankedFirstMatch(repos: seq<Repo>, now: int, descTest: DescTest, r: Repo, k: nat)
    requires UniqueNames(repos) && r in repos && Visible(r)
    requires FirstMatch(Rules, r, descTest) == Some(k)
    ensures exists c :: c in Ranked(repos, now, descTest) && c.title == Rules[k].title && r in c.repos
  {
    var visible := Filter(repos, Visible);
    FilterMembers(repos, Visible);
    var fallen := Fallen(visible, now, descTest);
    var i := FallenFirstMatch(visible, now, descTest, r, k);
    RankedIsRankOfFallen(repos, now, descTest);
    RankMembers(fallen, now);
    assert fallen[i].1 in Values(fallen) by {
      assert Values(fallen)[i] == fallen[i].1;
    }
  }

  /** After the fallback, the first-matching rule's card is still in place and still holds the repository. */
  lemma FallenFirstMatch(visible: seq<Repo>, now: int, descTest: DescTest, r: Repo, k: nat) returns (i: nat)
    requires UniqueNames(visible) && r in visible
    requires FirstMatch(Rules, r, descTest) == Some(k)
    ensures i < |Fallen(visible, now, descTest)|
    ensures Fallen(visible, now, descTest)[i].1.title == Rules[k].title
    ensures r in Fallen(visible, now, descTest)[i].1.repos
  {
    SortedRulesUnchanged();
    var p := RulePass(Rules, visible, now, descTest);
    var fallen := Fallen(visible, now, descTest);
    RuleTitlesDistinct();
    RulePassFirstMatch(Rules, visible, now, descTest);
    assert TakenByFirst(p, Rules, r, descTest);
    i :| 0 <= i < |p.cmap| && p.cmap[i].0 == Rules[k].title && r in p.cmap[i].1.repos;
    RulePassShape(Rules, visible, now, descTest);
    RuleShapedLabelled(p.cmap, Rules, now);
    FallbackShape(p.cmap, Filter(visible, Unassigned(p.claimed)), now);
    assert p.cmap[i].1.repos <= fallen[i].1.repos;
  }

  /** After the cap, that repository is on its rule's card or, when the card was folded away, in "Other Projects". */
  lemma CategorizeFirstMatch(repos: seq<Repo>, now: int, descTest: DescTest, r: Repo, k: nat)
    requires UniqueNames(repos) && r in repos && Visible(r)
    requires FirstMatch(Rules, r, descTest) == Some(k)
    ensures exists c :: c in Categorize(repos, now, descTest) && (c.title == Rules[k].title || IsOther(c)) && r in c.repos
  {
    var ranked := Ranked(repos, now, descTest);
    var out := Categorize(repos, now, descTest);
    RankedFirstMatch(repos, now, descTest, r, k);
    var c :| c in ranked && c.title == Rules[k].title && r in c.repos;
    if |ranked| > MaxCategories {
      CategorizeShape(repos, now, descTest);
      var m :| 0 <= m < |ranked| && ranked[m] == c;
      if m < MaxCategories - 1 {
        assert out[m] == out[..MaxCategories - 1][m];
        assert out[m] in out;
      } else {
        FoldedIntoOther(ranked, now, m, r);
        assert out[MaxCategories - 1] in out;
      }
    }
  }

  /** A repository on a card the cap folds away is in the merged "Other Projects" card. */
  lemma FoldedIntoOther(ranked: seq<Category>, now: int, m: nat, r: Repo)
    requires MaxCategories - 1 <= m < |ranked| && r in ranked[m].repos
    ensures r in SortRepos(Members(ranked[MaxCategories - 1..]), now)
  {
    var tail := ranked[MaxCategories - 1..];
    assert tail[m - (MaxCategories - 1)] == ranked[m];
    MemberOfCard(tail, m - (MaxCategories - 1), r);
    SortByMultiset(Members(tail), ScoreBefore(now));
    assert r in multiset(SortRepos(Members(tail), now));
  }

  lemma {:induction false} RulePassNothing(rules: seq<Rule>, now: int, descTest: DescTest)
    ensures RulePass(rules, [], now, descTest) == Pass({}, [])
  {
    if |rules| > 0 {
      RulePassNothing(rules[..|rules| - 1], now, descTest);
    }
  }

  /** No repositories, no cards. */
  lemma CategorizeNothing(now: int, descTest: DescTest)
    ensures Categorize([], now, descTest) == []
  {
    RulePassNothing(SortedRules(), now, descTest);
  }
}
