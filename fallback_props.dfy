/**
 * The language fallback: the repositories no rule took are grouped by
 * language; a group of two or more joins the first card whose title
 * mentions the language, or opens a new "<language> Projects" card, and
 * everything else ends up in "Other Projects".
 */
module FallbackProps {
  import opened Wrappers
  import opened Seqs
  import opened Text
  import opened Types
  import opened Categorizer
  import opened CategorizeProps
  import opened RulePassProps

  /**
   * Every card is non-empty, none is titled "Other Projects", and each
   * title mentions its key, ignoring case.
   */
  ghost predicate Labelled(cmap: seq<(string, Category)>) {
    && DistinctKeys(cmap)
    && forall i :: 0 <= i < |cmap| ==>
         && Contains(Lower(cmap[i].1.title), Lower(cmap[i].0))
         && cmap[i].1.title != OtherLabel
         && |cmap[i].1.repos| > 0
  }

  predicate NoOtherKey(cmap: seq<(string, Category)>) {
    forall i :: 0 <= i < |cmap| ==> cmap[i].0 != OtherLabel
  }

  /** `after` keeps every entry of `before` in place, with its key and title, its repositories extended at the end. */
  ghost predicate Grows(before: seq<(string, Category)>, after: seq<(string, Category)>) {
    && |before| <= |after|
    && forall i :: 0 <= i < |before| ==>
         && after[i].0 == before[i].0
         && after[i].1.title == before[i].1.title
         && before[i].1.repos <= after[i].1.repos
  }

  lemma GrowsTransitive(a: seq<(string, Category)>, b: seq<(string, Category)>, c: seq<(string, Category)>)
    requires Grows(a, b) && Grows(b, c)
    ensures Grows(a, c)
  {
  }

  /** The rule cards are labelled: each title is its own key. */
  lemma RuleShapedLabelled(cmap: seq<(string, Category)>, rules: seq<Rule>, now: int)
    requires RuleShaped(cmap, rules, now)
    ensures Labelled(cmap) && NoOtherKey(cmap)
  {
    forall i | 0 <= i < |cmap| ensures Contains(Lower(cmap[i].1.title), Lower(cmap[i].0)) {
      ContainsPrefix(Lower(cmap[i].0), []);
      assert Lower(cmap[i].0) + [] == Lower(cmap[i].0);
    }
  }

  /** A new language card's title mentions its language and is "Other Projects" only for the language "Other". */
  lemma LanguageTitle(lang: string)
    ensures Contains(Lower(lang + " Projects"), Lower(lang))
    ensures lang + " Projects" == OtherLabel ==> lang == "Other"
  {
    LowerConcat(lang, " Projects");
    ContainsPrefix(Lower(lang), Lower(" Projects"));
    if lang + " Projects" == OtherLabel {
      assert lang == (lang + " Projects")[..|lang|];
    }
  }

  /** The group `C` joins an existing "MCP Servers" card: the title test is a substring test, ignoring case. */
  lemma LanguageCJoinsMcp()
    ensures LabelContains("C")(Category("MCP Servers", "\U{1F50C}", []))
  {
    assert OccursAt(Lower("MCP Servers"), Lower("C"), 1);
  }

  /** When no card mentions the language, the language is not yet a key, so `set` appends. */
  lemma NewLanguageAppends(cmap: seq<(string, Category)>, lang: string)
    requires Labelled(cmap) && FindFirst(Values(cmap), LabelContains(lang)).None?
    ensures lang !in Keys(cmap)
  {
    forall i | 0 <= i < |cmap| ensures cmap[i].0 != lang {
      assert !LabelContains(lang)(Values(cmap)[i]);
    }
  }

  /** A group of one, or the "Other" group, goes to the bucket. */
  lemma PlaceGroupSpills(s: Spill, lang: string, group: seq<Repo>, now: int)
    requires lang == "Other" || |group| < 2
    ensures PlaceGroup(s, lang, group, now) == Spill(s.cmap, s.other + group)
  {
  }

  /** A larger group joins the first card that mentions its language. */
  lemma PlaceGroupJoins(s: Spill, lang: string, group: seq<Repo>, now: int, j: nat)
    requires Labelled(s.cmap)
    requires !(lang == "Other" || |group| < 2) && FindFirst(Values(s.cmap), LabelContains(lang)) == Some(j)
    ensures var t := PlaceGroup(s, lang, group, now);
      && Labelled(t.cmap) && Grows(s.cmap, t.cmap) && (NoOtherKey(s.cmap) ==> NoOtherKey(t.cmap))
      && t.other == s.other
      && t.cmap[j].1.repos == s.cmap[j].1.repos + SortRepos(group, now)
  {
  }

  /** A larger group no card mentions opens "<lang> Projects" at the end. */
  lemma PlaceGroupOpens(s: Spill, lang: string, group: seq<Repo>, now: int)
    requires Labelled(s.cmap)
    requires !(lang == "Other" || |group| < 2) && FindFirst(Values(s.cmap), LabelContains(lang)).None?
    ensures var t := PlaceGroup(s, lang, group, now);
      && t == Spill(s.cmap + [(lang, Category(lang + " Projects", LangEmoji(lang), SortRepos(group, now)))], s.other)
      && Labelled(t.cmap) && Grows(s.cmap, t.cmap)
      && (lang != OtherLabel && NoOtherKey(s.cmap) ==> NoOtherKey(t.cmap))
  {
    var e := (lang, Category(lang + " Projects", LangEmoji(lang), SortRepos(group, now)));
    NewLanguageAppends(s.cmap, lang);
    assert PlaceGroup(s, lang, group, now).cmap == s.cmap + [e];
    SortByMultiset(group, ScoreBefore(now));
    LanguageTitle(lang);
    AppendLabelled(s.cmap, e);
  }

  /** Appending a labelled card under a new key keeps the map labelled. */
  lemma AppendLabelled(cmap: seq<(string, Category)>, e: (string, Category))
    requires Labelled(cmap) && e.0 !in Keys(cmap)
    requires Contains(Lower(e.1.title), Lower(e.0)) && e.1.title != OtherLabel && |e.1.repos| > 0
    ensures Labelled(cmap + [e]) && Grows(cmap, cmap + [e])
    ensures NoOtherKey(cmap) && e.0 != OtherLabel ==> NoOtherKey(cmap + [e])
  {
    var m := cmap + [e];
    forall i, j | 0 <= i < j < |m| ensures m[i].0 != m[j].0 {
      if j == |cmap| {
        assert m[i].0 == Keys(cmap)[i];
      }
    }
  }

  /** One language group keeps the map labelled and only grows it. */
  lemma PlaceGroupShape(s: Spill, lang: string, group: seq<Repo>, now: int)
    requires Labelled(s.cmap)
    ensures var t := PlaceGroup(s, lang, group, now);
      && Labelled(t.cmap) && Grows(s.cmap, t.cmap)
      && (lang != OtherLabel && NoOtherKey(s.cmap) ==> NoOtherKey(t.cmap))
  {
    if lang == "Other" || |group| < 2 {
      PlaceGroupSpills(s, lang, group, now);
    } else {
      match FindFirst(Values(s.cmap), LabelContains(lang))
      case Some(j) => PlaceGroupJoins(s, lang, group, now, j);
      case None => PlaceGroupOpens(s, lang, group, now);
    }
  }

  /** The language loop, over all groups. */
  lemma {:induction false} PlaceGroupsShape(groups: seq<(string, seq<Repo>)>, cmap: seq<(string, Category)>, now: int)
    requires Labelled(cmap)
    ensures var s := PlaceGroups(groups, cmap, now);
      && Labelled(s.cmap) && Grows(cmap, s.cmap)
      && ((forall i :: 0 <= i < |groups| ==> groups[i].0 != OtherLabel) && NoOtherKey(cmap) ==> NoOtherKey(s.cmap))
  {
    if |groups| > 0 {
      var init := groups[..|groups| - 1];
      PlaceGroupsShape(init, cmap, now);
      var g := groups[|groups| - 1];
      var s := PlaceGroups(init, cmap, now);
      PlaceGroupShape(s, g.0, g.1, now);
      GrowsTransitive(cmap, s.cmap, PlaceGroup(s, g.0, g.1, now).cmap);
    }
  }

  // ---------------------------------------------------------------------
  // repositories through the fallback
  // ---------------------------------------------------------------------

  /** Replacing one card exchanges its repositories for the new card's. */
  lemma MembersReplace(cats: seq<Category>, j: nat, c: Category)
    requires j < |cats|
    ensures multiset(Members(cats[j := c])) + multiset(cats[j].repos) == multiset(Members(cats)) + multiset(c.repos)
  {
    var a, b := cats[..j], cats[j + 1..];
    assert cats == a + [cats[j]] + b;
    assert cats[j := c] == a + [c] + b;
    FlatMapConcat(a + [cats[j]], b, RepoList);
    FlatMapConcat(a, [cats[j]], RepoList);
    FlatMapConcat(a + [c], b, RepoList);
    FlatMapConcat(a, [c], RepoList);
    assert FlatMap([c], RepoList) == c.repos + FlatMap([], RepoList);
    assert FlatMap([cats[j]], RepoList) == cats[j].repos + FlatMap([], RepoList);
  }

  /** Extending one card of the map adds exactly the new repositories. */
  lemma MembersExtend(cmap: seq<(string, Category)>, j: nat, more: seq<Repo>)
    requires j < |cmap|
    ensures multiset(MapMembers(cmap[j := (cmap[j].0, Extend(cmap[j].1, more))]))
         == multiset(MapMembers(cmap)) + multiset(more)
  {
    assert Values(cmap[j := (cmap[j].0, Extend(cmap[j].1, more))]) == Values(cmap)[j := Extend(cmap[j].1, more)];
    MembersExtendCat(Values(cmap), j, more);
  }

  /** Writing an entry drops at most the entry it overwrites and adds its card's repositories. */
  lemma MapMembersPut(cmap: seq<(string, Category)>, k: string, c: Category)
    ensures multiset(MapMembers(Put(cmap, k, c))) <= multiset(MapMembers(cmap)) + multiset(c.repos)
    ensures k !in Keys(cmap) ==> MapMembers(Put(cmap, k, c)) == MapMembers(cmap) + c.repos
  {
    if k in Keys(cmap) {
      var i := IndexOf(cmap, k).value;
      PutPresent(cmap, k, c, i);
      assert Values(cmap[i := (k, c)]) == Values(cmap)[i := c];
      MembersReplace(Values(cmap), i, c);
    } else {
      MapMembersAppend(cmap, k, c);
    }
  }

  lemma PlaceGroupMembers(s: Spill, lang: string, group: seq<Repo>, now: int)
    requires Labelled(s.cmap)
    ensures var t := PlaceGroup(s, lang, group, now);
      multiset(MapMembers(t.cmap)) + multiset(t.other) == multiset(MapMembers(s.cmap)) + multiset(s.other) + multiset(group)
  {
    if !(lang == "Other" || |group| < 2) {
      SortByMultiset(group, ScoreBefore(now));
      match FindFirst(Values(s.cmap), LabelContains(lang))
      case Some(j) =>
        MembersExtend(s.cmap, j, SortRepos(group, now));
      case None =>
        NewLanguageAppends(s.cmap, lang);
        MapMembersAppend(s.cmap, lang, Category(lang + " Projects", LangEmoji(lang), SortRepos(group, now)));
    }
  }

  /** The language loop keeps every grouped repository, on a card or in the bucket. */
  lemma {:induction false} PlaceGroupsMembers(groups: seq<(string, seq<Repo>)>, cmap: seq<(string, Category)>, now: int)
    requires Labelled(cmap)
    ensures var s := PlaceGroups(groups, cmap, now);
      multiset(MapMembers(s.cmap)) + multiset(s.other) == multiset(MapMembers(cmap)) + multiset(FlatMap(Values(groups), Id))
  {
    if |groups| == 0 {
      assert Values(groups) == [];
    } else {
      var init, g := groups[..|groups| - 1], groups[|groups| - 1];
      PlaceGroupsMembers(init, cmap, now);
      PlaceGroupsShape(init, cmap, now);
      PlaceGroupMembers(PlaceGroups(init, cmap, now), g.0, g.1, now);
      GroupValuesSnoc(groups);
    }
  }

  /** The repositories of all groups are those of the earlier groups followed by the last group's. */
  lemma GroupValuesSnoc(groups: seq<(string, seq<Repo>)>)
    requires |groups| > 0
    ensures FlatMap(Values(groups), Id) == FlatMap(Values(groups[..|groups| - 1]), Id) + groups[|groups| - 1].1
  {
    var init, g := groups[..|groups| - 1], groups[|groups| - 1];
    assert Values(groups) == Values(init) + [g.1];
    FlatMapConcat(Values(init), [g.1], Id);
    assert FlatMap([g.1], Id) == g.1 + FlatMap([], Id);
  }

  // ---------------------------------------------------------------------
  // the whole fallback
  // ---------------------------------------------------------------------

  /** Writing "Other Projects" into a labelled map: the only card so titled is the one under that key. */
  lemma PutOtherShape(cmap: seq<(string, Category)>, other: seq<Repo>)
    requires Labelled(cmap) && |other| > 0
    ensures var out := Put(cmap, OtherLabel, OtherCategory(other));
      && DistinctKeys(out)
      && (forall i :: 0 <= i < |out| ==> |out[i].1.repos| > 0)
      && (forall i :: 0 <= i < |out| && IsOther(out[i].1) ==> out[i].0 == OtherLabel)
      && (forall i :: 0 <= i < |cmap| && cmap[i].0 != OtherLabel ==> out[i] == cmap[i])
  {
    PutDistinct(cmap, OtherLabel, OtherCategory(other));
    if OtherLabel in Keys(cmap) {
      PutPresent(cmap, OtherLabel, OtherCategory(other), IndexOf(cmap, OtherLabel).value);
    }
  }

  /**
   * After the fallback the keys are distinct, every card is non-empty, the
   * only card titled "Other Projects" is the one under that key, and the
   * rule cards are still in place, only grown.
   */
  lemma FallbackShape(cmap: seq<(string, Category)>, uncategorized: seq<Repo>, now: int)
    requires Labelled(cmap)
    ensures var out := Fallback(cmap, uncategorized, now);
      && DistinctKeys(out)
      && (forall i :: 0 <= i < |out| ==> |out[i].1.repos| > 0)
      && (forall i :: 0 <= i < |out| && IsOther(out[i].1) ==> out[i].0 == OtherLabel)
      && (NoOtherKey(cmap) ==> Grows(cmap, out))
  {
    if |uncategorized| > 0 {
      var s := PlaceGroups(GroupBy(uncategorized, LangKey), cmap, now);
      PlaceGroupsShape(GroupBy(uncategorized, LangKey), cmap, now);
      if |s.other| > 0 {
        var other := SortRepos(s.other, now);
        SortByMultiset(s.other, ScoreBefore(now));
        PutOtherShape(s.cmap, other);
      }
    }
  }

  /** Every language group is named by the language of its members. */
  lemma GroupKeysNotOther(uncategorized: seq<Repo>)
    requires forall r | r in uncategorized :: LangKey(r) != OtherLabel
    ensures var groups := GroupBy(uncategorized, LangKey);
      forall i :: 0 <= i < |groups| ==> groups[i].0 != OtherLabel
  {
    var groups := GroupBy(uncategorized, LangKey);
    GroupByIsGrouping(uncategorized, LangKey);
    forall i | 0 <= i < |groups| ensures groups[i].0 != OtherLabel {
      FilterMembers(uncategorized, HasKey(LangKey, groups[i].0));
      var x := groups[i].1[0];
      assert x in uncategorized && LangKey(x) == groups[i].0;
    }
  }

  /**
   * The fallback shows each left-over repository at most once; exactly once
   * unless a repository's language is literally "Other Projects", whose card
   * the final write of "Other Projects" would overwrite.
   */
  lemma FallbackMembers(cmap: seq<(string, Category)>, uncategorized: seq<Repo>, now: int)
    requires Labelled(cmap)
    ensures multiset(MapMembers(Fallback(cmap, uncategorized, now))) <= multiset(MapMembers(cmap)) + multiset(uncategorized)
    ensures NoOtherKey(cmap) && (forall r | r in uncategorized :: LangKey(r) != OtherLabel) ==>
      multiset(MapMembers(Fallback(cmap, uncategorized, now))) == multiset(MapMembers(cmap)) + multiset(uncategorized)
  {
    if |uncategorized| > 0 {
      var groups := GroupBy(uncategorized, LangKey);
      var s := PlaceGroups(groups, cmap, now);
      GroupByPartition(uncategorized, LangKey);
      PlaceGroupsMembers(groups, cmap, now);
      if |s.other| > 0 {
        var other := SortRepos(s.other, now);
        SortByMultiset(s.other, ScoreBefore(now));
        MapMembersPut(s.cmap, OtherLabel, OtherCategory(other));
        if NoOtherKey(cmap) && (forall r | r in uncategorized :: LangKey(r) != OtherLabel) {
          GroupKeysNotOther(uncategorized);
          PlaceGroupsShape(groups, cmap, now);
          assert OtherLabel !in Keys(s.cmap);
        }
      }
    }
  }
}
