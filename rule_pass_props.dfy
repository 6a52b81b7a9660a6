/**
 * The rule loop of the categorizer: starting from an empty map, each rule
 * adds at most one card, titled after the rule and filled with the matching
 * repositories not yet taken, sorted by score. A repository is taken by the
 * first rule, in priority order, that it matches.
 */
module RulePassProps {
  import opened Wrappers
  import opened Seqs
  import opened Types
  import opened Categorizer
  import opened CategorizeProps

  /** All repositories shown on a list of cards, card by card. */
  function Members(cats: seq<Category>): seq<Repo> {
    FlatMap(cats, RepoList)
  }

  function MapMembers(cmap: seq<(string, Category)>): seq<Repo> {
    Members(Values(cmap))
  }

  /** A name identifies the repository, as it does among one user's repositories. */
  predicate UniqueNames(repos: seq<Repo>) {
    forall a, b | a in repos && b in repos && a.name == b.name :: a == b
  }

  /** The rule a repository belongs to: the first one, in the given order, whose test it passes. */
  function RuleTest(r: Repo, descTest: DescTest): Rule -> bool {
    (rule: Rule) => Matches(rule.id, r, descTest)
  }

  function FirstMatch(rules: seq<Rule>, r: Repo, descTest: DescTest): Option<nat> {
    FindFirst(rules, RuleTest(r, descTest))
  }

  /** What the rule loop leaves in the map: one non-empty, score-sorted card per key, keyed by its rule's title. */
  ghost predicate RuleShaped(cmap: seq<(string, Category)>, rules: seq<Rule>, now: int) {
    && DistinctKeys(cmap)
    && forall i :: 0 <= i < |cmap| ==>
         && cmap[i].0 == cmap[i].1.title
         && cmap[i].0 in RuleTitles(rules)
         && cmap[i].0 != OtherLabel
         && |cmap[i].1.repos| > 0
         && SortedBy(cmap[i].1.repos, ScoreBefore(now))
  }

  /** The card a rule contributes, if any repository is left for it. */
  function RuleCard(p: Pass, rule: Rule, visible: seq<Repo>, now: int, descTest: DescTest): Category {
    Category(rule.title, rule.emoji, SortRepos(Filter(visible, Eligible(p.claimed, rule, descTest)), now))
  }

  /** A rule whose title is new either leaves the map alone or appends its card. */
  lemma RuleStepAppends(p: Pass, rule: Rule, visible: seq<Repo>, now: int, descTest: DescTest)
    requires rule.title !in Keys(p.cmap)
    ensures var q := RuleStep(p, rule, visible, now, descTest);
      || (q == p && |Filter(visible, Eligible(p.claimed, rule, descTest))| == 0)
      || (q.cmap == p.cmap + [(rule.title, RuleCard(p, rule, visible, now, descTest))]
          && q.claimed == p.claimed + Names(Filter(visible, Eligible(p.claimed, rule, descTest)))
          && |RuleCard(p, rule, visible, now, descTest).repos| > 0)
  {
    var matched := Filter(visible, Eligible(p.claimed, rule, descTest));
    SortByMultiset(matched, ScoreBefore(now));
  }

  lemma RuleStepShape(p: Pass, rules: seq<Rule>, rule: Rule, visible: seq<Repo>, now: int, descTest: DescTest)
    requires RuleShaped(p.cmap, rules, now)
    requires rule.title !in RuleTitles(rules) && rule.title != OtherLabel
    ensures RuleShaped(RuleStep(p, rule, visible, now, descTest).cmap, rules + [rule], now)
  {
    assert rule.title !in Keys(p.cmap);
    RuleStepAppends(p, rule, visible, now, descTest);
    ScoreOrder(now);
    SortBySorted(Filter(visible, Eligible(p.claimed, rule, descTest)), ScoreBefore(now));
    assert RuleTitles(rules + [rule]) == RuleTitles(rules) + {rule.title};
  }

  lemma {:induction false} RulePassShape(rules: seq<Rule>, visible: seq<Repo>, now: int, descTest: DescTest)
    requires DistinctTitles(rules) && NoOtherTitle(rules)
    ensures RuleShaped(RulePass(rules, visible, now, descTest).cmap, rules, now)
  {
    if |rules| > 0 {
      var init, rule := rules[..|rules| - 1], rules[|rules| - 1];
      assert rules == init + [rule];
      RulePassShape(init, visible, now, descTest);
      assert rule.title !in RuleTitles(init);
      RuleStepShape(RulePass(init, visible, now, descTest), init, rule, visible, now, descTest);
    }
  }

  // ---------------------------------------------------------------------
  // no repository is lost or shown twice
  // ---------------------------------------------------------------------

  lemma MapMembersAppend(cmap: seq<(string, Category)>, k: string, c: Category)
    ensures MapMembers(cmap + [(k, c)]) == MapMembers(cmap) + c.repos
  {
    assert Values(cmap + [(k, c)]) == Values(cmap) + [c];
    FlatMapConcat(Values(cmap), [c], RepoList);
    assert FlatMap([c], RepoList) == c.repos + FlatMap([], RepoList);
  }

  /** Extending one card adds exactly the new repositories. */
  lemma MembersExtendCat(cats: seq<Category>, j: nat, more: seq<Repo>)
    requires j < |cats|
    ensures multiset(Members(cats[j := Extend(cats[j], more)])) == multiset(Members(cats)) + multiset(more)
  {
    var c := cats[j];
    var c' := Extend(c, more);
    var a, b := cats[..j], cats[j + 1..];
    assert cats == a + [c] + b;
    assert cats[j := c'] == a + [c'] + b;
    FlatMapConcat(a + [c], b, RepoList);
    FlatMapConcat(a, [c], RepoList);
    FlatMapConcat(a + [c'], b, RepoList);
    FlatMapConcat(a, [c'], RepoList);
    assert FlatMap([c'], RepoList) == c.repos + more + FlatMap([], RepoList);
    assert FlatMap([c], RepoList) == c.repos + FlatMap([], RepoList);
  }

  /** Still free and not matched by the rule. */
  function Passed(claimed: set<string>, rule: Rule, descTest: DescTest): Repo -> bool {
    (r: Repo) => r.name !in claimed && !Matches(rule.id, r, descTest)
  }

  /** The free repositories split into those the rule takes and those it passes over. */
  lemma ClaimSplit(claimed: set<string>, rule: Rule, visible: seq<Repo>, descTest: DescTest)
    ensures multiset(Filter(visible, Unassigned(claimed)))
         == multiset(Filter(visible, Eligible(claimed, rule, descTest))) + multiset(Filter(visible, Passed(claimed, rule, descTest)))
  {
    FilterSplit(visible, Unassigned(claimed), (r: Repo) => Matches(rule.id, r, descTest),
      Eligible(claimed, rule, descTest), Passed(claimed, rule, descTest));
  }

  /** After claiming, what stays free is what the rule passed over: at most that, exactly that for unique names. */
  lemma ClaimRest(claimed: set<string>, rule: Rule, visible: seq<Repo>, descTest: DescTest)
    ensures var after := claimed + Names(Filter(visible, Eligible(claimed, rule, descTest)));
      multiset(Filter(visible, Unassigned(after))) <= multiset(Filter(visible, Passed(claimed, rule, descTest)))
    ensures var after := claimed + Names(Filter(visible, Eligible(claimed, rule, descTest)));
      UniqueNames(visible) ==>
        multiset(Filter(visible, Unassigned(after))) == multiset(Filter(visible, Passed(claimed, rule, descTest)))
  {
    var matched := Filter(visible, Eligible(claimed, rule, descTest));
    var after := claimed + Names(matched);
    FilterMembers(visible, Eligible(claimed, rule, descTest));
    forall x | x in visible && Unassigned(after)(x) ensures Passed(claimed, rule, descTest)(x) {
      if Matches(rule.id, x, descTest) {
        assert x in matched;
      }
    }
    FilterWeaker(visible, Unassigned(after), Passed(claimed, rule, descTest));
    if UniqueNames(visible) {
      assert forall x | x in visible && Passed(claimed, rule, descTest)(x) :: Unassigned(after)(x);
      FilterWeaker(visible, Passed(claimed, rule, descTest), Unassigned(after));
    }
  }

  /** One rule moves repositories from the free list onto its card, losing none and, for unique names, adding none. */
  lemma RuleStepMembers(p: Pass, rule: Rule, visible: seq<Repo>, now: int, descTest: DescTest)
    requires rule.title !in Keys(p.cmap)
    ensures var q := RuleStep(p, rule, visible, now, descTest);
      multiset(MapMembers(q.cmap)) + multiset(Filter(visible, Unassigned(q.claimed)))
        <= multiset(MapMembers(p.cmap)) + multiset(Filter(visible, Unassigned(p.claimed)))
    ensures var q := RuleStep(p, rule, visible, now, descTest);
      UniqueNames(visible) ==>
        multiset(MapMembers(q.cmap)) + multiset(Filter(visible, Unassigned(q.claimed)))
          == multiset(MapMembers(p.cmap)) + multiset(Filter(visible, Unassigned(p.claimed)))
  {
    var matched := Filter(visible, Eligible(p.claimed, rule, descTest));
    RuleStepAppends(p, rule, visible, now, descTest);
    if |matched| > 0 {
      var c := RuleCard(p, rule, visible, now, descTest);
      MapMembersAppend(p.cmap, rule.title, c);
      SortByMultiset(matched, ScoreBefore(now));
      ClaimSplit(p.claimed, rule, visible, descTest);
      ClaimRest(p.claimed, rule, visible, descTest);
    }
  }

  /**
   * After the rule loop, the cards and the free list together hold each
   * visible repository at most once, and exactly once when names are unique.
   */
  lemma {:induction false} RulePassMembers(rules: seq<Rule>, visible: seq<Repo>, now: int, descTest: DescTest)
    requires DistinctTitles(rules) && NoOtherTitle(rules)
    ensures var p := RulePass(rules, visible, now, descTest);
      multiset(MapMembers(p.cmap)) + multiset(Filter(visible, Unassigned(p.claimed))) <= multiset(visible)
    ensures var p := RulePass(rules, visible, now, descTest);
      UniqueNames(visible) ==>
        multiset(MapMembers(p.cmap)) + multiset(Filter(visible, Unassigned(p.claimed))) == multiset(visible)
  {
    if |rules| == 0 {
      FilterAll(visible, Unassigned({}));
      assert MapMembers([]) == [];
    } else {
      var init, rule := rules[..|rules| - 1], rules[|rules| - 1];
      assert rules == init + [rule];
      RulePassMembers(init, visible, now, descTest);
      RulePassShape(init, visible, now, descTest);
      var p := RulePass(init, visible, now, descTest);
      assert rule.title !in Keys(p.cmap) by {
        assert rule.title !in RuleTitles(init);
      }
      RuleStepMembers(p, rule, visible, now, descTest);
    }
  }

  // ---------------------------------------------------------------------
  // the first matching rule takes the repository
  // ---------------------------------------------------------------------

  /** `r` is taken exactly when some rule matches it, and then it sits on the card of the first such rule. */
  ghost predicate TakenByFirst(p: Pass, rules: seq<Rule>, r: Repo, descTest: DescTest) {
    && (r.name in p.claimed <==> FirstMatch(rules, r, descTest).Some?)
    && (FirstMatch(rules, r, descTest).Some? ==>
          exists i :: 0 <= i < |p.cmap| && p.cmap[i].0 == rules[FirstMatch(rules, r, descTest).value].title
                      && r in p.cmap[i].1.repos)
  }

  /** A repository some earlier rule took stays on that rule's card. */
  lemma RuleStepKeeps(p: Pass, rules: seq<Rule>, rule: Rule, visible: seq<Repo>, now: int, descTest: DescTest, r: Repo)
    requires rule.title !in Keys(p.cmap)
    requires TakenByFirst(p, rules, r, descTest) && FirstMatch(rules, r, descTest).Some?
    ensures TakenByFirst(RuleStep(p, rule, visible, now, descTest), rules + [rule], r, descTest)
  {
    var q := RuleStep(p, rule, visible, now, descTest);
    var k := FirstMatch(rules, r, descTest).value;
    RuleStepAppends(p, rule, visible, now, descTest);
    FindFirstSnoc(rules, rule, RuleTest(r, descTest));
    var i :| 0 <= i < |p.cmap| && p.cmap[i].0 == rules[k].title && r in p.cmap[i].1.repos;
    assert (rules + [rule])[k] == rules[k];
    assert q.cmap[i] == p.cmap[i];
  }

  /** A repository no earlier rule took goes to this rule exactly when it matches. */
  lemma RuleStepTakes(p: Pass, rules: seq<Rule>, rule: Rule, visible: seq<Repo>, now: int, descTest: DescTest, r: Repo)
    requires UniqueNames(visible) && r in visible
    requires rule.title !in Keys(p.cmap)
    requires TakenByFirst(p, rules, r, descTest) && FirstMatch(rules, r, descTest).None?
    ensures TakenByFirst(RuleStep(p, rule, visible, now, descTest), rules + [rule], r, descTest)
  {
    var q := RuleStep(p, rule, visible, now, descTest);
    var matched := Filter(visible, Eligible(p.claimed, rule, descTest));
    RuleStepAppends(p, rule, visible, now, descTest);
    FindFirstSnoc(rules, rule, RuleTest(r, descTest));
    FilterMembers(visible, Eligible(p.claimed, rule, descTest));
    if Matches(rule.id, r, descTest) {
      assert r in matched;
      SortByMultiset(matched, ScoreBefore(now));
      assert r in multiset(SortRepos(matched, now));
      assert q.cmap[|p.cmap|].0 == (rules + [rule])[|rules|].title;
    } else {
      assert r !in matched;
    }
  }

  /** The rule loop gives each visible repository to the first rule it matches, and leaves it free if none does. */
  lemma {:induction false} RulePassFirstMatch(rules: seq<Rule>, visible: seq<Repo>, now: int, descTest: DescTest)
    requires DistinctTitles(rules) && NoOtherTitle(rules)
    requires UniqueNames(visible)
    ensures forall r | r in visible :: TakenByFirst(RulePass(rules, visible, now, descTest), rules, r, descTest)
  {
    if |rules| > 0 {
      var init, rule := rules[..|rules| - 1], rules[|rules| - 1];
      assert rules == init + [rule];
      RulePassFirstMatch(init, visible, now, descTest);
      RulePassShape(init, visible, now, descTest);
      var p := RulePass(init, visible, now, descTest);
      assert rule.title !in Keys(p.cmap) by {
        assert rule.title !in RuleTitles(init);
      }
      forall r | r in visible ensures TakenByFirst(RulePass(rules, visible, now, descTest), rules, r, descTest) {
        if FirstMatch(init, r, descTest).Some? {
          RuleStepKeeps(p, init, rule, visible, now, descTest, r);
        } else {
          RuleStepTakes(p, init, rule, visible, now, descTest, r);
        }
      }
    }
  }
}
