/**
 * Ranking and the cap: the non-empty cards are ordered by descending
 * category score with "Other Projects" last, and beyond eight cards the top
 * seven stay while the rest merge into a final "Other Projects" card.
 */
module RankCapProps {
  import opened Wrappers
  import opened Seqs
  import opened Types
  import opened Categorizer
  import opened CategorizeProps
  import opened RulePassProps

  /** Distinct keys, and a card titled "Other Projects" only under that key. */
  ghost predicate OneOther(cmap: seq<(string, Category)>) {
    && DistinctKeys(cmap)
    && forall i :: 0 <= i < |cmap| && IsOther(cmap[i].1) ==> cmap[i].0 == OtherLabel
  }

  /** "Other Projects" appears at most at the last position. */
  predicate OtherLast(cats: seq<Category>) {
    forall i :: 0 <= i < |cats| && IsOther(cats[i]) ==> i == |cats| - 1
  }

  lemma OneOtherCount(cmap: seq<(string, Category)>)
    requires OneOther(cmap)
    ensures |Filter(Values(cmap), IsOther)| <= 1
  {
    var v := Values(cmap);
    forall i, j | 0 <= i < |v| && 0 <= j < |v| && IsOther(v[i]) && IsOther(v[j]) ensures i == j {
      assert cmap[i].0 == OtherLabel && cmap[j].0 == OtherLabel;
    }
    FilterAtMostOne(v, IsOther);
  }

  /** Empty cards hold nothing, so dropping them keeps the repositories. */
  lemma {:induction false} DropEmptyMembers(cats: seq<Category>)
    ensures Members(Filter(cats, NonEmpty)) == Members(cats)
  {
    if |cats| > 0 {
      DropEmptyMembers(cats[1..]);
      var h := if NonEmpty(cats[0]) then [cats[0]] else [];
      FlatMapConcat(h, Filter(cats[1..], NonEmpty), RepoList);
      assert FlatMap([cats[0]], RepoList) == cats[0].repos + FlatMap([], RepoList);
    }
  }

  /** Ranking reorders the cards and drops only empty ones. */
  lemma RankMembers(cmap: seq<(string, Category)>, now: int)
    ensures multiset(Members(Rank(cmap, now))) == multiset(MapMembers(cmap))
    ensures forall c :: c in Rank(cmap, now) <==> c in Values(cmap) && NonEmpty(c)
  {
    var kept := Filter(Values(cmap), NonEmpty);
    DropEmptyMembers(Values(cmap));
    SortByMultiset(kept, RankBefore(now));
    FlatMapPermutation(Rank(cmap, now), kept, RepoList);
    FilterMembers(Values(cmap), NonEmpty);
    forall c ensures c in Rank(cmap, now) <==> c in kept {
      assert c in Rank(cmap, now) <==> c in multiset(Rank(cmap, now));
      assert c in kept <==> c in multiset(kept);
    }
  }

  /** The ranking holds at most one "Other Projects" card. */
  lemma RankOtherCount(cmap: seq<(string, Category)>, now: int)
    requires OneOther(cmap)
    ensures |Filter(Rank(cmap, now), IsOther)| <= 1
  {
    var kept := Filter(Values(cmap), NonEmpty);
    SortByMultiset(kept, RankBefore(now));
    FilterPermutation(Rank(cmap, now), kept, IsOther);
    FilterFilterSub(Values(cmap), NonEmpty, IsOther);
    OneOtherCount(cmap);
    SubMultisetSize(multiset(Filter(kept, IsOther)), multiset(Filter(Values(cmap), IsOther)));
  }

  /** A ranking sorted by `RankBefore` puts everything after an "Other Projects" card in that class too. */
  lemma SortedOtherTail(ranked: seq<Category>, now: int, i: nat, j: nat)
    requires SortedBy(ranked, RankBefore(now))
    requires i < j < |ranked| && IsOther(ranked[i])
    ensures IsOther(ranked[j])
  {
    assert !RankBefore(now)(ranked[j], ranked[i]);
  }

  /** The ranking puts "Other Projects" last. */
  lemma RankOtherLast(cmap: seq<(string, Category)>, now: int)
    requires OneOther(cmap)
    ensures OtherLast(Rank(cmap, now))
  {
    var ranked := Rank(cmap, now);
    RankOrder(now);
    SortBySorted(Filter(Values(cmap), NonEmpty), RankBefore(now));
    RankOtherCount(cmap, now);
    forall i | 0 <= i < |ranked| && IsOther(ranked[i]) ensures i == |ranked| - 1 {
      if i < |ranked| - 1 {
        SortedOtherTail(ranked, now, i, |ranked| - 1);
        FilterTwo(ranked, IsOther, i, |ranked| - 1);
      }
    }
  }

  /**
   * The ranked cards are non-empty, "Other Projects" is last, and every
   * other card comes before every card of lower category score.
   */
  lemma RankOrdered(cmap: seq<(string, Category)>, now: int)
    requires OneOther(cmap)
    ensures var ranked := Rank(cmap, now);
      && (forall i :: 0 <= i < |ranked| ==> NonEmpty(ranked[i]))
      && OtherLast(ranked)
      && (forall i, j :: 0 <= i < j < |ranked| && !IsOther(ranked[j]) ==>
            !IsOther(ranked[i]) && CategoryScore(ranked[i].repos, now) >= CategoryScore(ranked[j].repos, now))
  {
    var ranked := Rank(cmap, now);
    RankMembers(cmap, now);
    RankOtherLast(cmap, now);
    RankOrder(now);
    SortBySorted(Filter(Values(cmap), NonEmpty), RankBefore(now));
    forall i, j | 0 <= i < j < |ranked| && !IsOther(ranked[j])
      ensures !IsOther(ranked[i]) && CategoryScore(ranked[i].repos, now) >= CategoryScore(ranked[j].repos, now)
    {
      assert !RankBefore(now)(ranked[j], ranked[i]);
    }
  }

  // ---------------------------------------------------------------------
  // the cap
  // ---------------------------------------------------------------------

  /** In either branch the cap shows at most eight cards and exactly the repositories it was given. */
  lemma CapMembers(ranked: seq<Category>, now: int)
    ensures |Cap(ranked, now)| <= MaxCategories
      || (|ranked| <= MaxCategories && Cap(ranked, now) == ranked)
    ensures multiset(Members(Cap(ranked, now))) == multiset(Members(ranked))
  {
    if |ranked| > MaxCategories {
      var keep, tail := ranked[..7], ranked[7..];
      var merged := FlatMap(tail, RepoList);
      assert ranked == keep + tail;
      FlatMapConcat(keep, tail, RepoList);
      SortByMultiset(merged, ScoreBefore(now));
      match FindFirst(keep, IsOther)
      case Some(j) =>
        MembersExtendCat(keep, j, SortRepos(merged, now));
      case None =>
        FlatMapConcat(keep, [OtherCategory(SortRepos(merged, now))], RepoList);
        assert FlatMap([OtherCategory(SortRepos(merged, now))], RepoList)
            == SortRepos(merged, now) + FlatMap([], RepoList);
    }
  }

  /**
   * On a ranking with "Other Projects" last, the cap keeps up to eight
   * cards unchanged; beyond that it keeps the first seven and appends one
   * "Other Projects" holding the rest by score, never extending a kept card.
   */
  lemma CapShape(ranked: seq<Category>, now: int)
    requires forall i :: 0 <= i < |ranked| ==> NonEmpty(ranked[i])
    requires OtherLast(ranked)
    ensures var out := Cap(ranked, now);
      && |out| <= MaxCategories
      && (|ranked| <= MaxCategories ==> out == ranked)
      && (|ranked| > MaxCategories ==>
            && |out| == MaxCategories
            && out[..MaxCategories - 1] == ranked[..MaxCategories - 1]
            && out[MaxCategories - 1] == OtherCategory(SortRepos(Members(ranked[MaxCategories - 1..]), now)))
      && (forall i :: 0 <= i < |out| ==> NonEmpty(out[i]))
      && OtherLast(out)
  {
    if |ranked| > MaxCategories {
      var keep, tail := ranked[..7], ranked[7..];
      assert FindFirst(keep, IsOther).None? by {
        forall i | 0 <= i < |keep| ensures !IsOther(keep[i]) {
          assert keep[i] == ranked[i];
        }
      }
      var merged := Members(tail);
      assert merged == tail[0].repos + Members(tail[1..]);
      SortByMultiset(merged, ScoreBefore(now));
      assert |SortRepos(merged, now)| > 0;
    }
  }
}
