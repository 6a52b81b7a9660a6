/**
 * Properties of the categorizer's building blocks: the two comparators are
 * strict weak orders (so the sorts are well defined and stable), the score
 * terms are bounded, and the rule table is already in priority order with
 * distinct titles.
 */
module CategorizeProps {
  import opened Wrappers
  import opened Seqs
  import opened Text
  import opened Types
  import opened Categorizer

  // ---------------------------------------------------------------------
  // scores
  // ---------------------------------------------------------------------

  /** The recency term is never negative, is at most 1 for a push in the past, and vanishes after 365 days. */
  lemma RecencyBounds(r: Repo, now: int)
    ensures 0.0 <= Recency(r, now)
    ensures r.pushedAt <= now ==> Recency(r, now) <= 1.0
    ensures Recency(r, now) > 0.0 <==> now - r.pushedAt < 365 * DayMs
  {
    var d := (now - r.pushedAt) as real;
    var days := d / DayMs as real;
    assert days / 365.0 == d / (365 * DayMs) as real;
    if r.pushedAt <= now {
      assert d >= 0.0;
    }
  }

  /** A repository's score lies between its popularity term and one more than it. */
  lemma RepoScoreBounds(r: Repo, now: int)
    ensures RepoScore(r, now) >= (3 * r.stars + 2 * r.forks) as real
    ensures r.pushedAt <= now ==> RepoScore(r, now) <= (3 * r.stars + 2 * r.forks) as real + 1.0
  {
    RecencyBounds(r, now);
  }

  /** The maximum of a non-empty list is one of its scores and no score exceeds it. */
  lemma {:induction false} MaxScoreIsMax(repos: seq<Repo>, now: int)
    requires |repos| > 0
    ensures exists i :: 0 <= i < |repos| && MaxScore(repos, now) == RepoScore(repos[i], now)
    ensures forall i :: 0 <= i < |repos| ==> RepoScore(repos[i], now) <= MaxScore(repos, now)
  {
    RecencyBounds(repos[0], now);
    if |repos| == 1 {
      assert MaxScore(repos, now) == RepoScore(repos[0], now);
    } else {
      MaxScoreIsMax(repos[1..], now);
      var k :| 0 <= k < |repos[1..]| && MaxScore(repos[1..], now) == RepoScore(repos[1..][k], now);
      if RepoScore(repos[0], now) <= MaxScore(repos[1..], now) {
        assert MaxScore(repos, now) == RepoScore(repos[k + 1], now);
      }
      forall i | 0 <= i < |repos| ensures RepoScore(repos[i], now) <= MaxScore(repos, now) {
        if i > 0 {
          assert repos[i] == repos[1..][i - 1];
        }
      }
    }
  }

  /** The category score is the maximum counted twice plus the sum, and at least three times the maximum. */
  lemma {:induction false} SumScoreBounds(repos: seq<Repo>, now: int)
    ensures SumScore(repos, now) >= 0.0
    ensures forall i :: 0 <= i < |repos| ==> RepoScore(repos[i], now) <= SumScore(repos, now)
  {
    if |repos| > 0 {
      SumScoreBounds(repos[1..], now);
      RecencyBounds(repos[0], now);
      forall i | 0 <= i < |repos| ensures RepoScore(repos[i], now) <= SumScore(repos, now) {
        if i > 0 {
          assert repos[i] == repos[1..][i - 1];
        }
      }
    }
  }

  /** The sum and the maximum of a card are comparable: the card's score is at least three times its best repository. */
  lemma CategoryScoreBounds(repos: seq<Repo>, now: int)
    requires |repos| > 0
    ensures CategoryScore(repos, now) >= 3.0 * MaxScore(repos, now)
  {
    MaxScoreIsMax(repos, now);
    SumScoreBounds(repos, now);
  }

  /** Ordering by descending repository score is a strict weak order. */
  lemma ScoreOrder(now: int)
    ensures StrictWeakOrder(ScoreBefore(now))
  {
  }

  /** The ranking comparator is a strict weak order, "Other Projects" forming the last class. */
  lemma RankOrder(now: int)
    ensures StrictWeakOrder(RankBefore(now))
  {
  }

  /** What the ranking order says: "Other Projects" never comes before, and among the rest the scores decide. */
  lemma RankBeforeMeaning(a: Category, b: Category, now: int)
    ensures IsOther(a) ==> !RankBefore(now)(a, b)
    ensures !IsOther(a) && IsOther(b) ==> RankBefore(now)(a, b)
    ensures !IsOther(a) && !IsOther(b) ==> (RankBefore(now)(a, b) <==> CategoryScore(a.repos, now) > CategoryScore(b.repos, now))
  {
  }

  /** `sortRepos` is a permutation into descending score, keeping equal scores in input order. */
  lemma SortReposSpec(repos: seq<Repo>, now: int, v: Repo)
    ensures multiset(SortRepos(repos, now)) == multiset(repos)
    ensures forall i, j :: 0 <= i < j < |repos| ==> RepoScore(SortRepos(repos, now)[i], now) >= RepoScore(SortRepos(repos, now)[j], now)
    ensures Filter(SortRepos(repos, now), TiedWith(ScoreBefore(now), v)) == Filter(repos, TiedWith(ScoreBefore(now), v))
  {
    ScoreOrder(now);
    SortByMultiset(repos, ScoreBefore(now));
    SortBySorted(repos, ScoreBefore(now));
    SortByStable(repos, ScoreBefore(now), v);
  }

  // ---------------------------------------------------------------------
  // the rule table
  // ---------------------------------------------------------------------

  function RuleTitles(rules: seq<Rule>): set<string> {
    set rule | rule in rules :: rule.title
  }

  predicate DistinctTitles(rules: seq<Rule>) {
    forall i, j :: 0 <= i < |rules| && 0 <= j < |rules| && rules[i].title == rules[j].title ==> i == j
  }

  /** No rule is titled "Other Projects". */
  predicate NoOtherTitle(rules: seq<Rule>) {
    forall i :: 0 <= i < |rules| ==> rules[i].title != OtherLabel
  }

  /** The table lists the rules by non-increasing priority. */
  lemma RulesByPriority()
    ensures forall i, j :: 0 <= i < j < |Rules| ==> Rules[i].priority >= Rules[j].priority
  {
    forall i, j | 0 <= i < j < 14 ensures RuleAt(i).priority >= RuleAt(j).priority {
    }
  }

  /** Sorting the rules by priority keeps the table order: equal priorities stay in table order. */
  lemma SortedRulesUnchanged()
    ensures SortedRules() == Rules
  {
    RulesByPriority();
    SortByIdentity(Rules, PriorityBefore);
  }

  /** The fourteen titles are distinct and none is "Other Projects". */
  lemma RuleTitlesDistinct()
    ensures |Rules| == 14
    ensures DistinctTitles(Rules)
    ensures NoOtherTitle(Rules)
  {
    forall i, j | 0 <= i < 14 && 0 <= j < 14 && RuleAt(i).title == RuleAt(j).title ensures i == j {
    }
  }
}
