/**
 * The repository categorizer: a user's repositories are sorted into at most
 * eight labelled cards by fourteen prioritized rules, a fallback by
 * programming language, and a ranking that folds the tail into
 * "Other Projects".
 *
 * The clock is the parameter `now` (milliseconds), read once for the whole
 * run. The regular expressions the rules apply to a description are the
 * parameter `descTest`: `descTest(id, d)` says whether rule `id`'s pattern
 * matches the non-empty description `d`.
 */
module Categorizer {
  import opened Wrappers
  import opened Seqs
  import opened Text
  import opened Types

  // ---------------------------------------------------------------------
  // the rules
  // ---------------------------------------------------------------------

  datatype RuleId =
    | McpServers | GitHubActions | AiMl | WebFrameworks | ReactUi | CliTools | DevOpsInfra
    | I18n | MacOsDesktop | Mobile | GoPackages | RustCrates | PythonPackages | Libraries

  datatype Rule = Rule(id: RuleId, title: string, emoji: string, priority: int)

  type DescTest = (RuleId, string) -> bool

  const Folder: string := "\U{1F4C1}"
  const OtherLabel: string := "Other Projects"

  /** The rule table, entry by entry. */
  function RuleAt(i: nat): Rule
    requires i < 14
  {
    match i
    case 0 => Rule(McpServers, "MCP Servers", "\U{1F50C}", 10)
    case 1 => Rule(GitHubActions, "GitHub Actions", "\U{26A1}", 9)
    case 2 => Rule(AiMl, "AI & ML", "\U{1F916}", 8)
    case 3 => Rule(WebFrameworks, "Web Frameworks", "\U{1F310}", 7)
    case 4 => Rule(ReactUi, "React & UI", "\U{269B}\U{FE0F}", 6)
    case 5 => Rule(CliTools, "CLI Tools", "\U{1F4BB}", 5)
    case 6 => Rule(DevOpsInfra, "DevOps & Infra", "\U{1F527}", 5)
    case 7 => Rule(I18n, "i18n & Localization", "\U{1F30D}", 4)
    case 8 => Rule(MacOsDesktop, "macOS & Desktop", "\U{1F5A5}\U{FE0F}", 4)
    case 9 => Rule(Mobile, "Mobile", "\U{1F4F1}", 4)
    case 10 => Rule(GoPackages, "Go Packages", "\U{1F439}", 3)
    case 11 => Rule(RustCrates, "Rust Crates", "\U{1F980}", 3)
    case 12 => Rule(PythonPackages, "Python Packages", "\U{1F40D}", 3)
    case 13 => Rule(Libraries, "Libraries & Utilities", "\U{1F4E6}", 2)
  }

  /** `RULES`, in the order the table lists them. */
  const Rules: seq<Rule> := seq(14, i requires 0 <= i < 14 => RuleAt(i))

  predicate NameHas(r: Repo, sub: string) {
    Contains(Lower(r.name), sub)
  }

  predicate NameStarts(r: Repo, prefix: string) {
    StartsWith(Lower(r.name), prefix)
  }

  /** `r.topics.some((t) => list.includes(t))`: exact, case-sensitive topic names. */
  predicate HasTopic(r: Repo, list: seq<string>) {
    exists t | t in r.topics :: t in list
  }

  predicate LangIs(r: Repo, lang: string) {
    r.language == Some(lang)
  }

  /** A null or empty description matches no pattern. */
  predicate DescMatch(r: Repo, id: RuleId, descTest: DescTest) {
    r.description.Some? && r.description.value != "" && descTest(id, r.description.value)
  }

  predicate Matches(id: RuleId, r: Repo, descTest: DescTest) {
    match id
    case McpServers =>
      NameHas(r, "mcp-server") || NameHas(r, "mcp") || HasTopic(r, ["mcp", "model-context-protocol"])
    case GitHubActions =>
      || HasTopic(r, ["github-action", "action", "github-actions", "ci-cd", "ci", "automation"])
      || NameHas(r, "-action") || NameHas(r, "changelog") || DescMatch(r, id, descTest)
    case AiMl =>
      || NameStarts(r, "ai-") || NameHas(r, "llm") || NameHas(r, "gpt") || NameHas(r, "openai")
      || NameHas(r, "langchain")
      || HasTopic(r, ["ai", "ai-agent", "machine-learning", "openai", "llm", "deep-learning", "chatgpt",
                      "claude", "claude-code", "anthropic", "gpt-4", "cursor-plugin", "cursor-ide"])
      || NameHas(r, "cursor") || DescMatch(r, id, descTest)
    case WebFrameworks =>
      || HasTopic(r, ["nextjs", "nuxt", "svelte", "sveltekit", "remix", "astro", "express", "fastify",
                      "django", "flask", "rails", "laravel", "spring"])
      || DescMatch(r, id, descTest)
    case ReactUi =>
      || HasTopic(r, ["react", "vue", "svelte", "angular", "component", "ui", "css", "design-system", "tailwind"])
      || NameStarts(r, "use-") || NameStarts(r, "react-") || NameStarts(r, "vue-")
      || NameHas(r, "component") || NameHas(r, "ui-") || DescMatch(r, id, descTest)
    case CliTools =>
      HasTopic(r, ["cli", "terminal", "tui", "command-line", "scaffold"]) || NameStarts(r, "create-")
      || DescMatch(r, id, descTest)
    case DevOpsInfra =>
      || HasTopic(r, ["docker", "kubernetes", "k8s", "terraform", "devops", "ci-cd", "infrastructure", "cloud",
                      "aws", "gcp", "azure", "helm", "serverless"])
      || DescMatch(r, id, descTest)
    case I18n =>
      || HasTopic(r, ["hebrew", "i18n", "rtl", "arabic", "israel", "localization", "l10n", "internationalization"])
      || DescMatch(r, id, descTest)
    case MacOsDesktop =>
      || HasTopic(r, ["macos", "macos-app", "electron", "tauri", "desktop", "swift", "swiftui", "cocoa"])
      || LangIs(r, "Swift") || DescMatch(r, id, descTest)
    case Mobile =>
      || HasTopic(r, ["ios", "android", "react-native", "flutter", "mobile", "expo", "swift", "kotlin"])
      || LangIs(r, "Kotlin") || LangIs(r, "Dart") || DescMatch(r, id, descTest)
    case GoPackages =>
      LangIs(r, "Go") && HasTopic(r, ["golang", "go", "golang-package", "golang-library"])
    case RustCrates =>
      LangIs(r, "Rust")
    case PythonPackages =>
      LangIs(r, "Python") && !HasTopic(r, ["ai", "machine-learning", "deep-learning"])
    case Libraries =>
      || HasTopic(r, ["npm-package", "zero-dependency", "typescript", "library", "utility", "utils", "package"])
      || DescMatch(r, id, descTest)
  }

  /** The comparator `b.priority - a.priority` puts `a` first. */
  predicate PriorityBefore(a: Rule, b: Rule) {
    a.priority > b.priority
  }

  /** `[...RULES].sort(...)`: the rules by descending priority, ties in table order. */
  function SortedRules(): seq<Rule> {
    SortBy(Rules, PriorityBefore)
  }

  const LangEmojiTable: seq<(string, string)> := [
    ("TypeScript", "\U{1F537}"), ("JavaScript", "\U{1F7E1}"), ("Python", "\U{1F40D}"),
    ("Go", "\U{1F439}"), ("Rust", "\U{1F980}"), ("Java", "\U{2615}"),
    ("C++", "\U{2699}\U{FE0F}"), ("C", "\U{2699}\U{FE0F}"), ("Ruby", "\U{1F48E}"),
    ("PHP", "\U{1F418}"), ("Swift", "\U{1F34E}"), ("Kotlin", "\U{1F7E3}"),
    ("Dart", "\U{1F3AF}"), ("Shell", "\U{1F41A}"), ("HTML", "\U{1F310}"),
    ("CSS", "\U{1F3A8}"), ("Vue", "\U{1F49A}"), ("Elixir", "\U{1F4A7}")
  ]

  /** `LANG_EMOJI[lang] ?? folder`. */
  function LangEmoji(lang: string): string {
    Get(LangEmojiTable, lang).GetOr(Folder)
  }

  // ---------------------------------------------------------------------
  // scores
  // ---------------------------------------------------------------------

  const DayMs: int := 86400000

  /** `Math.max(0, 1 - daysSincePush / 365)`. */
  function Recency(r: Repo, now: int): real {
    var days := (now - r.pushedAt) as real / DayMs as real;
    var x := 1.0 - days / 365.0;
    if x > 0.0 then x else 0.0
  }

  function RepoScore(r: Repo, now: int): real {
    (3 * r.stars) as real + (2 * r.forks) as real + Recency(r, now)
  }

  function SumScore(repos: seq<Repo>, now: int): real {
    if |repos| == 0 then 0.0 else RepoScore(repos[0], now) + SumScore(repos[1..], now)
  }

  /** The highest score; only ever taken of a non-empty list, where 0 is below every score. */
  function MaxScore(repos: seq<Repo>, now: int): real {
    if |repos| == 0 then 0.0
    else
      var rest := MaxScore(repos[1..], now);
      if RepoScore(repos[0], now) > rest then RepoScore(repos[0], now) else rest
  }

  function CategoryScore(repos: seq<Repo>, now: int): real {
    2.0 * MaxScore(repos, now) + SumScore(repos, now)
  }

  /** The comparator `repoScore(b) - repoScore(a)` puts `a` first. */
  function ScoreBefore(now: int): (Repo, Repo) -> bool {
    (a: Repo, b: Repo) => RepoScore(a, now) > RepoScore(b, now)
  }

  /** `sortRepos`: a stable sort by descending score. */
  function SortRepos(repos: seq<Repo>, now: int): seq<Repo> {
    SortBy(repos, ScoreBefore(now))
  }

  // ---------------------------------------------------------------------
  // the pipeline, phase by phase
  // ---------------------------------------------------------------------

  /** A repository with a non-empty description or at least one topic is shown. */
  predicate Visible(r: Repo) {
    (r.description.Some? && r.description.value != "") || |r.topics| > 0
  }

  /** The `claimed` name set and the insertion-ordered `categoryMap`. */
  datatype Pass = Pass(claimed: set<string>, cmap: seq<(string, Category)>)

  function Names(repos: seq<Repo>): set<string> {
    set r | r in repos :: r.name
  }

  function Unassigned(claimed: set<string>): Repo -> bool {
    (r: Repo) => r.name !in claimed
  }

  function Eligible(claimed: set<string>, rule: Rule, descTest: DescTest): Repo -> bool {
    (r: Repo) => r.name !in claimed && Matches(rule.id, r, descTest)
  }

  /** One iteration of the rule loop. */
  function RuleStep(p: Pass, rule: Rule, visible: seq<Repo>, now: int, descTest: DescTest): Pass {
    var matched := Filter(visible, Eligible(p.claimed, rule, descTest));
    if |matched| > 0 then
      Pass(p.claimed + Names(matched),
           Put(p.cmap, rule.title, Category(rule.title, rule.emoji, SortRepos(matched, now))))
    else p
  }

  /** The rule loop over `rules`, from an empty set and an empty map. */
  function RulePass(rules: seq<Rule>, visible: seq<Repo>, now: int, descTest: DescTest): Pass {
    if |rules| == 0 then Pass({}, [])
    else RuleStep(RulePass(rules[..|rules| - 1], visible, now, descTest), rules[|rules| - 1], visible, now, descTest)
  }

  /** `r.language ?? "Other"`. */
  function LangKey(r: Repo): string {
    r.language.GetOr("Other")
  }

  /** The test `c.title.toLowerCase().includes(lang.toLowerCase())`. */
  function LabelContains(lang: string): Category -> bool {
    (c: Category) => Contains(Lower(c.title), Lower(lang))
  }

  function Extend(c: Category, more: seq<Repo>): Category {
    c.(repos := c.repos + more)
  }

  /** The category map and the `otherBucket` during the language loop. */
  datatype Spill = Spill(cmap: seq<(string, Category)>, other: seq<Repo>)

  /** One iteration of the loop over the language groups. */
  function PlaceGroup(s: Spill, lang: string, group: seq<Repo>, now: int): Spill {
    if lang == "Other" || |group| < 2 then Spill(s.cmap, s.other + group)
    else match FindFirst(Values(s.cmap), LabelContains(lang))
      case Some(j) =>
        Spill(s.cmap[j := (s.cmap[j].0, Extend(s.cmap[j].1, SortRepos(group, now)))], s.other)
      case None =>
        Spill(Put(s.cmap, lang, Category(lang + " Projects", LangEmoji(lang), SortRepos(group, now))), s.other)
  }

  /** The loop over the language groups, in the order the groups were created. */
  function PlaceGroups(groups: seq<(string, seq<Repo>)>, cmap: seq<(string, Category)>, now: int): Spill {
    if |groups| == 0 then Spill(cmap, [])
    else
      var g := groups[|groups| - 1];
      PlaceGroup(PlaceGroups(groups[..|groups| - 1], cmap, now), g.0, g.1, now)
  }

  function OtherCategory(repos: seq<Repo>): Category {
    Category(OtherLabel, Folder, repos)
  }

  /** The language fallback for the repositories no rule took. */
  function Fallback(cmap: seq<(string, Category)>, uncategorized: seq<Repo>, now: int): seq<(string, Category)> {
    if |uncategorized| == 0 then cmap
    else
      var s := PlaceGroups(GroupBy(uncategorized, LangKey), cmap, now);
      if |s.other| > 0 then Put(s.cmap, OtherLabel, OtherCategory(SortRepos(s.other, now))) else s.cmap
  }

  predicate IsOther(c: Category) {
    c.title == OtherLabel
  }

  predicate NonEmpty(c: Category) {
    |c.repos| > 0
  }

  /** The ranking comparator: "Other Projects" after everything, the rest by descending category score. */
  function RankBefore(now: int): (Category, Category) -> bool {
    (a: Category, b: Category) =>
      !IsOther(a) && (IsOther(b) || CategoryScore(a.repos, now) > CategoryScore(b.repos, now))
  }

  /** The non-empty categories of the map, ranked. */
  function Rank(cmap: seq<(string, Category)>, now: int): seq<Category> {
    SortBy(Filter(Values(cmap), NonEmpty), RankBefore(now))
  }

  const MaxCategories: nat := 8

  /** The cap: beyond eight categories, the top seven stay and the rest merge into "Other Projects". */
  function Cap(ranked: seq<Category>, now: int): seq<Category> {
    if |ranked| > MaxCategories then
      var keep := ranked[..MaxCategories - 1];
      var merged := FlatMap(ranked[MaxCategories - 1..], RepoList);
      match FindFirst(keep, IsOther)
      case Some(j) => keep[j := Extend(keep[j], SortRepos(merged, now))]
      case None => keep + [OtherCategory(SortRepos(merged, now))]
    else ranked
  }

  /** The ranked categories before the cap. */
  function Ranked(repos: seq<Repo>, now: int, descTest: DescTest): seq<Category> {
    var visible := Filter(repos, Visible);
    var p := RulePass(SortedRules(), visible, now, descTest);
    Rank(Fallback(p.cmap, Filter(visible, Unassigned(p.claimed)), now), now)
  }

  /** `categorizeRepos`, as the composition of its phases. */
  function Categorize(repos: seq<Repo>, now: int, descTest: DescTest): seq<Category> {
    Cap(Ranked(repos, now, descTest), now)
  }

  // ---------------------------------------------------------------------
  // the imperative categorizer
  // ---------------------------------------------------------------------

  /** `matched.forEach((r) => assigned.add(r.name))`. */
  method Claim(claimed: set<string>, matched: seq<Repo>) returns (result: set<string>)
    ensures result == claimed + Names(matched)
  {
    result := claimed;
    for j := 0 to |matched|
      invariant result == claimed + Names(matched[..j])
    {
      assert matched[..j + 1] == matched[..j] + [matched[j]];
      result := result + {matched[j].name};
    }
    assert matched[..|matched|] == matched;
  }

  /** The rule loop: each rule, in priority order, takes the matching repositories not yet taken. */
  method ApplyRules(sortedRules: seq<Rule>, visible: seq<Repo>, now: int, descTest: DescTest)
    returns (claimed: set<string>, cmap: seq<(string, Category)>)
    ensures Pass(claimed, cmap) == RulePass(sortedRules, visible, now, descTest)
  {
    claimed, cmap := {}, [];
    for i := 0 to |sortedRules|
      invariant Pass(claimed, cmap) == RulePass(sortedRules[..i], visible, now, descTest)
    {
      assert sortedRules[..i + 1][..i] == sortedRules[..i];
      var rule := sortedRules[i];
      var matched := Filter(visible, Eligible(claimed, rule, descTest));
      if |matched| > 0 {
        cmap := Put(cmap, rule.title, Category(rule.title, rule.emoji, SortRepos(matched, now)));
        claimed := Claim(claimed, matched);
      }
    }
    assert sortedRules[..|sortedRules|] == sortedRules;
  }

  /** The `byLang` loop: a Map from language to its repositories, in first-seen order. */
  method GroupByLanguage(uncategorized: seq<Repo>) returns (byLang: seq<(string, seq<Repo>)>)
    ensures byLang == GroupBy(uncategorized, LangKey)
  {
    byLang := [];
    for i := 0 to |uncategorized|
      invariant byLang == GroupBy(uncategorized[..i], LangKey)
    {
      var r := uncategorized[i];
      GroupByStep(uncategorized[..i], r, LangKey);
      assert uncategorized[..i + 1] == uncategorized[..i] + [r];
      byLang := AddTo(byLang, LangKey(r), r);
    }
    assert uncategorized[..|uncategorized|] == uncategorized;
  }

  /** The loop over the language groups, filling categories and the `otherBucket`. */
  method PlaceLanguages(byLang: seq<(string, seq<Repo>)>, start: seq<(string, Category)>, now: int)
    returns (cmap: seq<(string, Category)>, otherBucket: seq<Repo>)
    ensures Spill(cmap, otherBucket) == PlaceGroups(byLang, start, now)
  {
    cmap, otherBucket := start, [];
    for i := 0 to |byLang|
      invariant Spill(cmap, otherBucket) == PlaceGroups(byLang[..i], start, now)
    {
      assert byLang[..i + 1][..i] == byLang[..i];
      var (lang, langRepos) := byLang[i];
      if lang == "Other" || |langRepos| < 2 {
        otherBucket := otherBucket + langRepos;
      } else {
        var existing := FindFirst(Values(cmap), LabelContains(lang));
        if existing.Some? {
          var j := existing.value;
          cmap := cmap[j := (cmap[j].0, Extend(cmap[j].1, SortRepos(langRepos, now)))];
        } else {
          cmap := Put(cmap, lang, Category(lang + " Projects", LangEmoji(lang), SortRepos(langRepos, now)));
        }
      }
    }
    assert byLang[..|byLang|] == byLang;
  }

  /** `categorizeRepos`. */
  method CategorizeRepos(repos: seq<Repo>, now: int, descTest: DescTest) returns (result: seq<Category>)
    ensures result == Categorize(repos, now, descTest)
  {
    var visible := Filter(repos, Visible);
    var claimed, cmap := ApplyRules(SortBy(Rules, PriorityBefore), visible, now, descTest);

    var uncategorized := Filter(visible, Unassigned(claimed));
    ghost var ruleMap := cmap;
    if |uncategorized| > 0 {
      var byLang := GroupByLanguage(uncategorized);
      var otherBucket;
      cmap, otherBucket := PlaceLanguages(byLang, cmap, now);
      if |otherBucket| > 0 {
        cmap := Put(cmap, OtherLabel, OtherCategory(SortRepos(otherBucket, now)));
      }
    }
    assert cmap == Fallback(ruleMap, uncategorized, now);

    result := Rank(cmap, now);
    if |result| > MaxCategories {
      var keep := result[..MaxCategories - 1];
      var merge := result[MaxCategories - 1..];
      var mergedRepos := FlatMap(merge, RepoList);
      var existingOther := FindFirst(keep, IsOther);
      if existingOther.Some? {
        var j := existingOther.value;
        keep := keep[j := Extend(keep[j], SortRepos(mergedRepos, now))];
      } else {
        keep := keep + [OtherCategory(SortRepos(mergedRepos, now))];
      }
      result := keep;
    }
  }
}
