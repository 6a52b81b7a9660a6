/**
 * The profile statistics: language counts with percentages and colours, the
 * most used topics, and the repositories created per month. Each counter
 * fills an insertion-ordered Map in a loop and then shapes its entries with
 * map, filter, sort and slice.
 */
module GitHub {
  import opened Wrappers
  import opened Seqs
  import opened Text
  import opened Types
  import opened Categorizer

  // ---------------------------------------------------------------------
  // language colours
  // ---------------------------------------------------------------------

  const LanguageColors: seq<(string, string)> := [
    ("TypeScript", "#3178c6"), ("JavaScript", "#f1e05a"), ("Python", "#3572A5"), ("Rust", "#dea584"),
    ("Go", "#00ADD8"), ("Java", "#b07219"), ("C++", "#f34b7d"), ("C", "#555555"), ("C#", "#178600"),
    ("Ruby", "#701516"), ("PHP", "#4F5D95"), ("Swift", "#F05138"), ("Kotlin", "#A97BFF"),
    ("Dart", "#00B4AB"), ("Shell", "#89e051"), ("HTML", "#e34c26"), ("CSS", "#563d7c"),
    ("Vue", "#41b883"), ("Svelte", "#ff3e00"), ("Lua", "#000080"), ("Elixir", "#6e4a7e"),
    ("Haskell", "#5e5086"), ("Scala", "#c22d40"), ("Zig", "#ec915c"), ("Nix", "#7e7eff")
  ]

  const DefaultColor: string := "#8b8b8b"

  /** `getLanguageColor`: the table's colour for a listed language, grey for any other. */
  function LanguageColor(lang: string): (c: string)
    ensures lang in Keys(LanguageColors) ==> (lang, c) in LanguageColors
    ensures lang !in Keys(LanguageColors) ==> c == DefaultColor
  {
    Get(LanguageColors, lang).GetOr(DefaultColor)
  }

  // ---------------------------------------------------------------------
  // languages
  // ---------------------------------------------------------------------

  /** `repo.language && !repo.fork`: a non-empty language on a repository that is not a fork. */
  predicate LanguageCounted(r: Repo) {
    r.language.Some? && r.language.value != "" && !r.fork
  }

  function LanguageOf(r: Repo): string {
    r.language.GetOr("")
  }

  /** The language of each counted repository, in list order. */
  function CountedLanguages(repos: seq<Repo>): seq<string> {
    MapSeq(Filter(repos, LanguageCounted), LanguageOf)
  }

  /** A language is counted exactly when some counted repository has it. */
  lemma CountedLanguagesMembers(repos: seq<Repo>)
    ensures forall l :: l in CountedLanguages(repos) <==> exists r :: r in repos && LanguageCounted(r) && r.language == Some(l)
  {
    var counted := Filter(repos, LanguageCounted);
    var langs := CountedLanguages(repos);
    FilterMembers(repos, LanguageCounted);
    forall l | l in langs ensures exists r :: r in repos && LanguageCounted(r) && r.language == Some(l) {
      var i :| 0 <= i < |counted| && langs[i] == l;
      assert counted[i] in counted;
    }
    forall l | exists r :: r in repos && LanguageCounted(r) && r.language == Some(l) ensures l in langs {
      var r :| r in repos && LanguageCounted(r) && r.language == Some(l);
      var i :| 0 <= i < |counted| && counted[i] == r;
      assert langs[i] == l;
    }
  }

  /** One more repository: its language is counted once more when it qualifies. */
  lemma CountedStep(repos: seq<Repo>, i: nat)
    requires i < |repos|
    ensures Tally(CountedLanguages(repos[..i + 1]))
         == if LanguageCounted(repos[i]) then Bump(Tally(CountedLanguages(repos[..i])), LanguageOf(repos[i]))
            else Tally(CountedLanguages(repos[..i]))
  {
    var r := repos[i];
    assert repos[..i + 1] == repos[..i] + [r];
    FilterSnoc(repos[..i], r, LanguageCounted);
    if LanguageCounted(r) {
      MapSeqConcat(Filter(repos[..i], LanguageCounted), [r], LanguageOf);
      TallyStep(CountedLanguages(repos[..i]), LanguageOf(r));
    } else {
      assert Filter(repos[..i + 1], LanguageCounted) == Filter(repos[..i], LanguageCounted);
    }
  }

  /** The counts add up to the number of counted repositories, which is positive once there is a count. */
  lemma CountsTotal(langs: seq<string>)
    ensures Sum(Values(Tally(langs))) == |langs|
    ensures |Tally(langs)| > 0 ==> |langs| > 0
  {
    TallySum(langs);
    if |Tally(langs)| > 0 {
      assert Tally(langs)[0].0 in Keys(Tally(langs));
    }
  }

  datatype LanguageStat = LanguageStat(name: string, count: nat, percentage: nat, color: string)

  /** `Math.round((count / total) * 100)` in exact arithmetic: the nearest whole percent, halves rounded up. */
  function Percent(count: nat, total: nat): (p: nat)
    requires total > 0
    ensures 2 * total * p <= 200 * count + total < 2 * total * (p + 1)
  {
    (200 * count + total) / (2 * total)
  }

  /** Cancelling a positive factor keeps a strict inequality. */
  lemma CancelFactor(t: nat, a: int, b: int)
    requires t > 0 && t * a < t * b
    ensures a < b
  {
  }

  /** A share of the whole is at most 100 percent, all of it exactly 100 and none of it 0. */
  lemma PercentBounds(count: nat, total: nat)
    requires 0 < total && count <= total
    ensures Percent(count, total) <= 100
    ensures count == total ==> Percent(count, total) == 100
    ensures count == 0 ==> Percent(count, total) == 0
  {
    var p := Percent(count, total);
    assert 2 * total * p == total * (2 * p) && 200 * count + total <= total * 201;
    CancelFactor(total, 2 * p, 202);
    if count == total {
      assert 2 * total * (p + 1) == total * (2 * p + 2);
      CancelFactor(total, 201, 2 * p + 2);
    }
    if count == 0 {
      CancelFactor(total, 2 * p, 2);
    }
  }

  function LanguageStats(counts: seq<(string, nat)>, total: nat): seq<LanguageStat>
    requires |counts| > 0 ==> total > 0
  {
    seq(|counts|, i requires 0 <= i < |counts| =>
      LanguageStat(counts[i].0, counts[i].1, Percent(counts[i].1, total), LanguageColor(counts[i].0)))
  }

  /** The entries of the counting Map, before the sort. */
  function LanguageEntries(repos: seq<Repo>): seq<LanguageStat> {
    var counts := Tally(CountedLanguages(repos));
    CountsTotal(CountedLanguages(repos));
    LanguageStats(counts, Sum(Values(counts)))
  }

  /** The comparator `b.count - a.count` puts `a` first. */
  predicate StatBefore(a: LanguageStat, b: LanguageStat) {
    a.count > b.count
  }

  function StatName(s: LanguageStat): string {
    s.name
  }

  /** `computeLanguages`, as the composition of its steps. */
  function Languages(repos: seq<Repo>): seq<LanguageStat> {
    SortBy(LanguageEntries(repos), StatBefore)
  }

  /** `computeLanguages`: count languages in a Map, then shape the entries. */
  method ComputeLanguages(repos: seq<Repo>) returns (stats: seq<LanguageStat>)
    ensures stats == Languages(repos)
  {
    var counts: seq<(string, nat)> := [];
    for i := 0 to |repos|
      invariant counts == Tally(CountedLanguages(repos[..i]))
    {
      var repo := repos[i];
      CountedStep(repos, i);
      if repo.language.Some? && repo.language.value != "" && !repo.fork {
        counts := Bump(counts, repo.language.value);
      }
    }
    assert repos[..|repos|] == repos;
    var total := Sum(Values(counts));
    CountsTotal(CountedLanguages(repos));
    stats := SortBy(LanguageStats(counts, total), StatBefore);
  }

  /**
   * What one language entry says: the languages are distinct and exactly the
   * counted ones, each count the number of counted repositories in that
   * language, the percentage its rounded share (at most 100) and the colour
   * the table lookup.
   */
  ghost predicate LanguageFacts(repos: seq<Repo>, stats: seq<LanguageStat>) {
    var langs := CountedLanguages(repos);
    && DistinctBy(stats, StatName)
    && (forall l :: l in langs <==> exists i :: 0 <= i < |stats| && stats[i].name == l)
    && (forall i :: 0 <= i < |stats| ==>
          && stats[i].count == |Filter(langs, HasKey(Id, stats[i].name))| > 0
          && stats[i].percentage == Percent(stats[i].count, |langs|) <= 100
          && stats[i].color == LanguageColor(stats[i].name))
  }

  lemma LanguageEntriesFacts(repos: seq<Repo>)
    ensures LanguageFacts(repos, LanguageEntries(repos))
  {
    var langs := CountedLanguages(repos);
    var counts := Tally(langs);
    CountsTotal(langs);
    var e := LanguageEntries(repos);
    assert |e| == |counts|;
    forall i | 0 <= i < |e| ensures e[i].percentage == Percent(e[i].count, |langs|) <= 100 {
      PercentBounds(e[i].count, |langs|);
    }
    forall l | l in langs ensures exists i :: 0 <= i < |e| && e[i].name == l {
      assert l in Keys(counts);
      var k :| 0 <= k < |counts| && Keys(counts)[k] == l;
      assert e[k].name == l;
    }
    forall l | exists i :: 0 <= i < |e| && e[i].name == l ensures l in langs {
      var i :| 0 <= i < |e| && e[i].name == l;
      assert Keys(counts)[i] == l;
    }
  }

  /** A reordering keeps every fact about the entries. */
  lemma LanguageFactsPermutation(repos: seq<Repo>, a: seq<LanguageStat>, b: seq<LanguageStat>)
    requires LanguageFacts(repos, a) && multiset(a) == multiset(b)
    ensures LanguageFacts(repos, b)
  {
    DistinctByPermutation(a, b, StatName);
    forall i | 0 <= i < |b| ensures b[i] in a {
      assert b[i] in multiset(a);
    }
    forall i | 0 <= i < |a| ensures exists j :: 0 <= j < |b| && b[j].name == a[i].name {
      assert a[i] in multiset(b);
    }
  }

  /**
   * `computeLanguages` lists each counted language once with its count,
   * rounded percentage and colour, and nothing else; the counts are
   * non-increasing, and languages with equal counts keep the order in which
   * the loop first met them.
   */
  lemma LanguagesSpec(repos: seq<Repo>, v: LanguageStat)
    ensures LanguageFacts(repos, Languages(repos))
    ensures var out := Languages(repos); forall i, j :: 0 <= i < j < |out| ==> out[i].count >= out[j].count
    ensures Filter(Languages(repos), TiedWith(StatBefore, v)) == Filter(LanguageEntries(repos), TiedWith(StatBefore, v))
  {
    var e := LanguageEntries(repos);
    LanguageEntriesFacts(repos);
    SortByMultiset(e, StatBefore);
    LanguageFactsPermutation(repos, e, Languages(repos));
    SortBySorted(e, StatBefore);
    SortByStable(e, StatBefore, v);
  }

  /** The whole set of counted repositories makes up the total the percentages are shares of. */
  lemma LanguagesTotal(repos: seq<Repo>)
    ensures Sum(Values(Tally(CountedLanguages(repos)))) == |CountedLanguages(repos)|
    ensures |CountedLanguages(repos)| == |Filter(repos, LanguageCounted)|
  {
    CountsTotal(CountedLanguages(repos));
  }

  // ---------------------------------------------------------------------
  // topics
  // ---------------------------------------------------------------------

  datatype TopicCount = TopicCount(name: string, count: nat)

  function TopicsOf(r: Repo): seq<string> {
    r.topics
  }

  /** Every topic of every repository, repository by repository. */
  function AllTopics(repos: seq<Repo>): seq<string> {
    FlatMap(repos, TopicsOf)
  }

  function ToTopicCount(e: (string, nat)): TopicCount {
    TopicCount(e.0, e.1)
  }

  predicate Frequent(t: TopicCount) {
    t.count >= 2
  }

  predicate TopicBefore(a: TopicCount, b: TopicCount) {
    a.count > b.count
  }

  function TopicName(t: TopicCount): string {
    t.name
  }

  const MaxTopics: nat := 12

  /** The entries of the counting Map. */
  function TopicEntries(repos: seq<Repo>): seq<TopicCount> {
    MapSeq(Tally(AllTopics(repos)), ToTopicCount)
  }

  /** The frequent topics, most used first, before the slice. */
  function RankedTopics(repos: seq<Repo>): seq<TopicCount> {
    SortBy(Filter(TopicEntries(repos), Frequent), TopicBefore)
  }

  /** `computeTopTopics`, as the composition of its steps. */
  function TopTopics(repos: seq<Repo>): seq<TopicCount> {
    Take(RankedTopics(repos), MaxTopics)
  }

  lemma AllTopicsStep(repos: seq<Repo>, i: nat)
    requires i < |repos|
    ensures AllTopics(repos[..i + 1]) == AllTopics(repos[..i]) + repos[i].topics
  {
    assert repos[..i + 1] == repos[..i] + [repos[i]];
    FlatMapConcat(repos[..i], [repos[i]], TopicsOf);
    assert FlatMap([repos[i]], TopicsOf) == repos[i].topics + FlatMap([], TopicsOf);
  }

  /** Counting the next key of `s` after `keys` and a prefix of `s`. */
  lemma CountNext(keys: seq<string>, s: seq<string>, j: nat)
    requires j < |s|
    ensures Tally(keys + s[..j + 1]) == Bump(Tally(keys + s[..j]), s[j])
  {
    assert keys + s[..j + 1] == (keys + s[..j]) + [s[j]];
    TallyStep(keys + s[..j], s[j]);
  }

  /** `computeTopTopics`: count every topic of every repository in a Map, then shape the entries. */
  method ComputeTopTopics(repos: seq<Repo>) returns (top: seq<TopicCount>)
    ensures top == TopTopics(repos)
  {
    var counts: seq<(string, nat)> := [];
    for i := 0 to |repos|
      invariant counts == Tally(AllTopics(repos[..i]))
    {
      var repo := repos[i];
      assert AllTopics(repos[..i]) + repo.topics[..0] == AllTopics(repos[..i]);
      for j := 0 to |repo.topics|
        invariant counts == Tally(AllTopics(repos[..i]) + repo.topics[..j])
      {
        CountNext(AllTopics(repos[..i]), repo.topics, j);
        counts := Bump(counts, repo.topics[j]);
      }
      assert repo.topics[..|repo.topics|] == repo.topics;
      AllTopicsStep(repos, i);
    }
    assert repos[..|repos|] == repos;
    top := Take(SortBy(Filter(MapSeq(counts, ToTopicCount), Frequent), TopicBefore), MaxTopics);
  }

  /** The number of times a topic occurs over all repositories. */
  function Occurrences(repos: seq<Repo>, topic: string): nat {
    |Filter(AllTopics(repos), HasKey(Id, topic))|
  }

  /** Each topic once, with its true count of at least 2; every topic used twice or more is there. */
  ghost predicate TopicFacts(repos: seq<Repo>, topics: seq<TopicCount>) {
    && DistinctBy(topics, TopicName)
    && (forall i :: 0 <= i < |topics| ==> topics[i].count == Occurrences(repos, topics[i].name) >= 2)
    && (forall t :: Occurrences(repos, t) >= 2 ==> exists i :: 0 <= i < |topics| && topics[i].name == t)
  }

  /** Filtering keeps keys distinct. */
  lemma {:induction false} FilterKeepsDistinct<T, K>(s: seq<T>, p: T -> bool, key: T -> K)
    requires DistinctBy(s, key)
    ensures DistinctBy(Filter(s, p), key)
  {
    if |s| > 0 {
      assert DistinctBy(s[1..], key) by {
        forall i, j | 0 <= i < j < |s[1..]| ensures key(s[1..][i]) != key(s[1..][j]) {
          assert s[1..][i] == s[i + 1] && s[1..][j] == s[j + 1];
        }
      }
      FilterKeepsDistinct(s[1..], p, key);
      FilterMembers(s[1..], p);
      var rest := Filter(s[1..], p);
      if p(s[0]) {
        forall i, j | 0 <= i < j < |Filter(s, p)| ensures key(Filter(s, p)[i]) != key(Filter(s, p)[j]) {
          if i == 0 {
            assert Filter(s, p)[j] == rest[j - 1];
            assert rest[j - 1] in s[1..];
          } else {
            assert Filter(s, p)[i] == rest[i - 1] && Filter(s, p)[j] == rest[j - 1];
          }
        }
      }
    }
  }

  /** Each counted topic once, with the number of times it occurs. */
  lemma TopicEntriesCounts(repos: seq<Repo>)
    ensures var e := TopicEntries(repos);
      && DistinctBy(e, TopicName)
      && forall i :: 0 <= i < |e| ==> e[i].count == Occurrences(repos, e[i].name)
  {
  }

  /** Every topic used at least twice has a frequent entry. */
  lemma FrequentCovers(repos: seq<Repo>, t: string)
    requires Occurrences(repos, t) >= 2
    ensures exists i :: 0 <= i < |Filter(TopicEntries(repos), Frequent)| && Filter(TopicEntries(repos), Frequent)[i].name == t
  {
    var counts := Tally(AllTopics(repos));
    FilterMembers(AllTopics(repos), HasKey(Id, t));
    assert Filter(AllTopics(repos), HasKey(Id, t))[0] in AllTopics(repos);
    assert t in Keys(counts);
    var k :| 0 <= k < |counts| && Keys(counts)[k] == t;
    FrequentKeeps(TopicEntries(repos), k);
  }

  lemma FrequentKeeps(e: seq<TopicCount>, k: nat)
    requires k < |e| && Frequent(e[k])
    ensures exists i :: 0 <= i < |Filter(e, Frequent)| && Filter(e, Frequent)[i].name == e[k].name
  {
    FilterMembers(e, Frequent);
    assert e[k] in Filter(e, Frequent);
  }

  /** Filtering keeps the facts about each entry and the distinct names. */
  lemma FilterTopics(repos: seq<Repo>, e: seq<TopicCount>)
    requires DistinctBy(e, TopicName)
    requires forall i :: 0 <= i < |e| ==> e[i].count == Occurrences(repos, e[i].name)
    ensures var f := Filter(e, Frequent);
      && DistinctBy(f, TopicName)
      && forall i :: 0 <= i < |f| ==> f[i].count == Occurrences(repos, f[i].name) >= 2
  {
    var f := Filter(e, Frequent);
    FilterMembers(e, Frequent);
    FilterKeepsDistinct(e, Frequent, TopicName);
    forall i | 0 <= i < |f| ensures f[i].count == Occurrences(repos, f[i].name) {
      assert f[i] in e;
    }
  }

  lemma FrequentFacts(repos: seq<Repo>)
    ensures TopicFacts(repos, Filter(TopicEntries(repos), Frequent))
  {
    TopicEntriesCounts(repos);
    FilterTopics(repos, TopicEntries(repos));
    forall t | Occurrences(repos, t) >= 2
      ensures exists i :: 0 <= i < |Filter(TopicEntries(repos), Frequent)| && Filter(TopicEntries(repos), Frequent)[i].name == t
    {
      FrequentCovers(repos, t);
    }
  }

  lemma TopicFactsPermutation(repos: seq<Repo>, a: seq<TopicCount>, b: seq<TopicCount>)
    requires TopicFacts(repos, a) && multiset(a) == multiset(b)
    ensures TopicFacts(repos, b)
  {
    DistinctByPermutation(a, b, TopicName);
    forall i | 0 <= i < |b| ensures b[i] in a {
      assert b[i] in multiset(a);
    }
    forall i | 0 <= i < |a| ensures exists j :: 0 <= j < |b| && b[j].name == a[i].name {
      assert a[i] in multiset(b);
    }
  }

  /** The ranked frequent topics: each once with its true count, at least 2, most used first, none missing. */
  lemma RankedTopicsSpec(repos: seq<Repo>)
    ensures TopicFacts(repos, RankedTopics(repos))
    ensures var ranked := RankedTopics(repos); forall i, j :: 0 <= i < j < |ranked| ==> ranked[i].count >= ranked[j].count
  {
    var frequent := Filter(TopicEntries(repos), Frequent);
    FrequentFacts(repos);
    SortByMultiset(frequent, TopicBefore);
    TopicFactsPermutation(repos, frequent, RankedTopics(repos));
    SortBySorted(frequent, TopicBefore);
  }

  /** The first twelve of a ranked list are what the slice promises. */
  lemma TakeTopics(repos: seq<Repo>, ranked: seq<TopicCount>)
    requires TopicFacts(repos, ranked)
    requires forall i, j :: 0 <= i < j < |ranked| ==> ranked[i].count >= ranked[j].count
    ensures var top := Take(ranked, MaxTopics);
      && |top| <= MaxTopics
      && DistinctBy(top, TopicName)
      && (forall i :: 0 <= i < |top| ==> top[i].count == Occurrences(repos, top[i].name) >= 2)
      && (forall i, j :: 0 <= i < j < |top| ==> top[i].count >= top[j].count)
      && (forall t :: Occurrences(repos, t) >= 2 && (forall i :: 0 <= i < |top| ==> top[i].name != t) ==>
            |top| == MaxTopics && forall i :: 0 <= i < |top| ==> top[i].count >= Occurrences(repos, t))
  {
    var top := Take(ranked, MaxTopics);
    assert forall i :: 0 <= i < |top| ==> top[i] == ranked[i];
    forall t | Occurrences(repos, t) >= 2 && (forall i :: 0 <= i < |top| ==> top[i].name != t)
      ensures |top| == MaxTopics && forall i :: 0 <= i < |top| ==> top[i].count >= Occurrences(repos, t)
    {
      var k :| 0 <= k < |ranked| && ranked[k].name == t;
      assert k >= |top|;
    }
  }

  /**
   * `computeTopTopics` gives at most 12 topics, each once with its true
   * count of at least 2, most used first; a topic used twice or more that is
   * left out is outranked by all 12 that were kept.
   */
  lemma TopTopicsSpec(repos: seq<Repo>)
    ensures var top := TopTopics(repos);
      && |top| <= MaxTopics
      && DistinctBy(top, TopicName)
      && (forall i :: 0 <= i < |top| ==> top[i].count == Occurrences(repos, top[i].name) >= 2)
      && (forall i, j :: 0 <= i < j < |top| ==> top[i].count >= top[j].count)
      && (forall t :: Occurrences(repos, t) >= 2 && (forall i :: 0 <= i < |top| ==> top[i].name != t) ==>
            |top| == MaxTopics && forall i :: 0 <= i < |top| ==> top[i].count >= Occurrences(repos, t))
  {
    RankedTopicsSpec(repos);
    TakeTopics(repos, RankedTopics(repos));
  }


  // ---------------------------------------------------------------------
  // timeline
  // ---------------------------------------------------------------------

  datatype MonthCount = MonthCount(month: string, count: nat)

  /** `` `${year}-${String(month + 1).padStart(2, "0")}` `` of the creation date, `createdMonth` counting from 0. */
  function MonthKey(r: Repo): string {
    IntToString(r.createdYear) + "-" + PadStart2(NatToString(r.createdMonth + 1))
  }

  function ToMonthCount(e: (string, nat)): MonthCount {
    MonthCount(e.0, e.1)
  }

  /** `a.month.localeCompare(b.month) < 0`, taken as code-unit order. */
  predicate MonthBefore(a: MonthCount, b: MonthCount) {
    LexLess(a.month, b.month)
  }

  function MonthOf(m: MonthCount): string {
    m.month
  }

  const MaxMonths: nat := 12

  /** All months with their counts, in ascending key order. */
  function Months(repos: seq<Repo>): seq<MonthCount> {
    SortBy(MapSeq(Tally(MapSeq(repos, MonthKey)), ToMonthCount), MonthBefore)
  }

  /** `computeTimeline`: the last twelve months of the ascending list. */
  function Timeline(repos: seq<Repo>): seq<MonthCount> {
    TakeLast(Months(repos), MaxMonths)
  }

  method ComputeTimeline(repos: seq<Repo>) returns (timeline: seq<MonthCount>)
    ensures timeline == Timeline(repos)
  {
    var months: seq<(string, nat)> := [];
    for i := 0 to |repos|
      invariant months == Tally(MapSeq(repos[..i], MonthKey))
    {
      var repo := repos[i];
      assert repos[..i + 1] == repos[..i] + [repo];
      MapSeqConcat(repos[..i], [repo], MonthKey);
      TallyStep(MapSeq(repos[..i], MonthKey), MonthKey(repo));
      months := Bump(months, MonthKey(repo));
    }
    assert repos[..|repos|] == repos;
    timeline := TakeLast(SortBy(MapSeq(months, ToMonthCount), MonthBefore), MaxMonths);
  }

  lemma MonthOrder()
    ensures StrictWeakOrder(MonthBefore)
  {
    forall a: MonthCount, b: MonthCount ensures MonthBefore(a, b) ==> !MonthBefore(b, a) {
      LexAsymmetric(a.month, b.month);
    }
    forall a: MonthCount, b: MonthCount, c: MonthCount | MonthBefore(a, c)
      ensures MonthBefore(a, b) || MonthBefore(b, c)
    {
      if !MonthBefore(a, b) && a.month != b.month {
        LexTotal(a.month, b.month);
        LexTransitive(b.month, a.month, c.month);
      }
    }
  }

  /** Each month once, with the number of repositories created in it, and every month that has one. */
  ghost predicate MonthFacts(repos: seq<Repo>, months: seq<MonthCount>) {
    var keys := MapSeq(repos, MonthKey);
    && DistinctBy(months, MonthOf)
    && (forall i :: 0 <= i < |months| ==> months[i].count == |Filter(keys, HasKey(Id, months[i].month))| > 0)
    && (forall k :: k in keys <==> exists i :: 0 <= i < |months| && months[i].month == k)
  }

  lemma MonthEntriesFacts(repos: seq<Repo>)
    ensures MonthFacts(repos, MapSeq(Tally(MapSeq(repos, MonthKey)), ToMonthCount))
  {
    var keys := MapSeq(repos, MonthKey);
    var counts := Tally(keys);
    var e := MapSeq(counts, ToMonthCount);
    forall k | k in keys ensures exists i :: 0 <= i < |e| && e[i].month == k {
      assert k in Keys(counts);
      var i :| 0 <= i < |counts| && Keys(counts)[i] == k;
      assert e[i].month == k;
    }
    forall i | 0 <= i < |e| ensures e[i].month in keys {
      assert Keys(counts)[i] == e[i].month;
    }
  }

  lemma MonthFactsPermutation(repos: seq<Repo>, a: seq<MonthCount>, b: seq<MonthCount>)
    requires MonthFacts(repos, a) && multiset(a) == multiset(b)
    ensures MonthFacts(repos, b)
  {
    DistinctByPermutation(a, b, MonthOf);
    forall i | 0 <= i < |b| ensures b[i] in a {
      assert b[i] in multiset(a);
    }
    forall i | 0 <= i < |a| ensures exists j :: 0 <= j < |b| && b[j].month == a[i].month {
      assert a[i] in multiset(b);
    }
  }

  /** All months, each once with the number of repositories created in it. */
  lemma MonthsSpec(repos: seq<Repo>)
    ensures MonthFacts(repos, Months(repos))
  {
    var e := MapSeq(Tally(MapSeq(repos, MonthKey)), ToMonthCount);
    MonthEntriesFacts(repos);
    SortByMultiset(e, MonthBefore);
    MonthFactsPermutation(repos, e, Months(repos));
  }

  /** Strictly ascending months. */
  ghost predicate Ascending(months: seq<MonthCount>) {
    forall i, j :: 0 <= i < j < |months| ==> LexLess(months[i].month, months[j].month)
  }

  /** The months come in strictly ascending order. */
  lemma MonthsAscending(repos: seq<Repo>)
    ensures Ascending(Months(repos))
  {
    var e := MapSeq(Tally(MapSeq(repos, MonthKey)), ToMonthCount);
    var months := Months(repos);
    MonthsSpec(repos);
    MonthOrder();
    SortBySorted(e, MonthBefore);
    forall i, j | 0 <= i < j < |months| ensures LexLess(months[i].month, months[j].month) {
      assert !MonthBefore(months[j], months[i]);
      LexTotal(months[i].month, months[j].month);
    }
  }

  /** The timeline is the last (at most) twelve months of the ascending list, so it ascends too. */
  lemma TimelineSuffix(repos: seq<Repo>)
    ensures var tl, months := Timeline(repos), Months(repos);
      && |tl| == (if |months| < MaxMonths then |months| else MaxMonths)
      && tl == months[|months| - |tl|..]
      && (forall i, j :: 0 <= i < j < |tl| ==> LexLess(tl[i].month, tl[j].month))
  {
    var months := Months(repos);
    var tl := Timeline(repos);
    MonthsAscending(repos);
    var d := |months| - |tl|;
    assert tl == months[d..];
    forall i, j | 0 <= i < j < |tl| ensures LexLess(tl[i].month, tl[j].month) {
      assert tl[i] == months[d + i] && tl[j] == months[d + j];
    }
  }

  /** In an ascending list of months, a month the last twelve leave out is earlier than each of them. */
  lemma TakeLastDropsOlder(months: seq<MonthCount>, m: nat)
    requires Ascending(months) && m < |months|
    requires forall i :: 0 <= i < |TakeLast(months, MaxMonths)| ==> TakeLast(months, MaxMonths)[i].month != months[m].month
    ensures |TakeLast(months, MaxMonths)| == MaxMonths
    ensures forall i :: 0 <= i < MaxMonths ==> LexLess(months[m].month, TakeLast(months, MaxMonths)[i].month)
  {
    var tl := TakeLast(months, MaxMonths);
    var d := |months| - |tl|;
    TakeLastKeeps(months, MaxMonths, m);
    assert m < d;
  }

  lemma MonthsCover(repos: seq<Repo>, k: string)
    requires k in MapSeq(repos, MonthKey)
    ensures exists m :: 0 <= m < |Months(repos)| && Months(repos)[m].month == k
  {
    MonthsSpec(repos);
  }

  lemma TimelineMisses(repos: seq<Repo>, k: string)
    requires forall i :: 0 <= i < |Timeline(repos)| ==> Timeline(repos)[i].month != k
    ensures forall i :: 0 <= i < |TakeLast(Months(repos), MaxMonths)| ==> TakeLast(Months(repos), MaxMonths)[i].month != k
  {
    assert Timeline(repos) == TakeLast(Months(repos), MaxMonths);
  }

  /** A month with repositories that the timeline leaves out is earlier than all twelve months it keeps. */
  lemma TimelineDropsOlder(repos: seq<Repo>, k: string)
    requires k in MapSeq(repos, MonthKey)
    requires forall i :: 0 <= i < |Timeline(repos)| ==> Timeline(repos)[i].month != k
    ensures |Timeline(repos)| == MaxMonths
    ensures forall i :: 0 <= i < MaxMonths ==> LexLess(k, Timeline(repos)[i].month)
  {
    TimelineMisses(repos, k);
    MonthsCover(repos, k);
    var m :| 0 <= m < |Months(repos)| && Months(repos)[m].month == k;
    MonthsAscending(repos);
    TakeLastDropsOlder(Months(repos), m);
  }

  /** A four-digit year and a month index below 12 give a seven-character `YYYY-MM` key that reads back as both. */
  lemma MonthKeyFormat(r: Repo)
    requires 1000 <= r.createdYear <= 9999 && r.createdMonth < 12
    ensures var key := MonthKey(r);
      && |key| == 7 && key[4] == '-'
      && (forall i :: 0 <= i < 7 && i != 4 ==> IsDigit(key[i]))
      && ParseDigits(key[..4]) == r.createdYear
      && ParseDigits(key[5..]) == r.createdMonth + 1
  {
    var y, m := r.createdYear, r.createdMonth + 1;
    var key := MonthKey(r);
    NatToStringFourDigits(y);
    ParseNatToString(y);
    ParseNatToString(m);
    assert key[..4] == NatToString(y);
    assert key[5..] == PadStart2(NatToString(m));
    PadStart2Value(NatToString(m));
  }

  lemma NatToStringFourDigits(n: nat)
    requires 1000 <= n <= 9999
    ensures |NatToString(n)| == 4
  {
    assert NatToString(n) == NatToString(n / 10) + [DigitChar(n % 10)];
    assert NatToString(n / 10) == NatToString(n / 100) + [DigitChar(n / 10 % 10)];
    assert NatToString(n / 100) == NatToString(n / 1000) + [DigitChar(n / 100 % 10)];
  }

  /** Zero-padding keeps the value and gives two digits. */
  lemma PadStart2Value(s: string)
    requires |s| > 0 && forall i :: 0 <= i < |s| ==> IsDigit(s[i])
    ensures forall i :: 0 <= i < |PadStart2(s)| ==> IsDigit(PadStart2(s)[i])
    ensures ParseDigits(PadStart2(s)) == ParseDigits(s)
  {
    if |s| == 1 {
      var p := PadStart2(s);
      assert p[..1] == "0";
      assert ParseDigits("0") == 10 * ParseDigits([]) + DigitValue('0');
    }
  }

  // ---------------------------------------------------------------------
  // the profile
  // ---------------------------------------------------------------------

  /** Neither a fork nor archived. */
  predicate IsPublic(r: Repo) {
    !r.fork && !r.archived
  }

  function StarsOf(r: Repo): int {
    r.stars
  }

  function ForksOf(r: Repo): int {
    r.forks
  }

  datatype Profile = Profile(
    repos: seq<Repo>,
    languages: seq<LanguageStat>,
    categories: seq<Category>,
    totalStars: int,
    totalForks: int,
    topTopics: seq<TopicCount>,
    timeline: seq<MonthCount>)

  /** The statistics `fetchProfile` derives, all over the repositories that are neither forks nor archived. */
  function BuildProfile(repos: seq<Repo>, now: int, descTest: DescTest): Profile {
    var pub := Filter(repos, IsPublic);
    Profile(pub, Languages(pub), Categorize(pub, now, descTest), Sum(MapSeq(pub, StarsOf)), Sum(MapSeq(pub, ForksOf)),
            TopTopics(pub), Timeline(pub))
  }

  /** Forks and archived repositories change nothing: the profile of the public repositories alone is the same. */
  lemma ProfileIgnoresHidden(repos: seq<Repo>, now: int, descTest: DescTest)
    ensures BuildProfile(Filter(repos, IsPublic), now, descTest) == BuildProfile(repos, now, descTest)
    ensures forall r | r in BuildProfile(repos, now, descTest).repos :: r in repos && IsPublic(r)
  {
    FilterMembers(repos, IsPublic);
    FilterAll(Filter(repos, IsPublic), IsPublic);
  }
}
