# gitshow core, modelled in Dafny

gitshow turns a GitHub username into a portfolio page. It groups the user's repositories into
categories, summarises languages, topics and creation months, and shows a status line and
health facts for a single repository. This project models the deterministic core of that
pipeline as Dafny functions and methods, and proves what each step promises:

- the categoriser (`categorizeRepos` with its rule table, scores, language fallback, ranking and cap);
- the profile statistics (language counts and percentages, top topics, the 12-month timeline, the
  public-repository filter);
- the helpers `timeAgo`, `getTopRepos` and the small branch of `formatNumber`;
- the username extraction and redirect decision of the request proxy;
- the repository page's language breakdown, community flags, bot filter, count clamps and the
  `Link` header page parse;
- the status pill, the category search and collapse, and the contributions card's two visibility tests.

Loops that fill a `Map` or push onto an array are `method`s with loop invariants, proved equal to
a specification function. The properties are proved as lemmas about those functions. A JavaScript
`Map` is a sequence of entries in insertion order (`Seqs.Put`, `Seqs.Tally`, `Seqs.GroupBy`), and
`Array.prototype.sort` is a stable insertion sort under a strict weak order (`Seqs.SortBy`).

Modules: `Wrappers` (Option), `Seqs`, `Text`, `Types`, `Categorizer` with the proof modules
`CategorizeProps`, `RulePassProps`, `FallbackProps`, `RankCapProps` and `CategorizeTheorems`, then
`GitHub`, `Utils`, `Proxy`, `GitHubRepo`, `StatusLine`, `CategorySection` and `ContributionsCard`.

## Model

| member | source | states |
|---|---|---|
| Categorizer.CategorizeRepos | src/lib/categorize.ts:179-271 | the imperative `categorizeRepos` (rule loop, language grouping, fallback, ranking, cap) returns exactly `Categorize` |
| Categorizer.ApplyRules | src/lib/categorize.ts:185-199 | the rule loop's claimed-name set and category map equal the fold `RulePass` over the rules in priority order |
| Categorizer.Claim | src/lib/categorize.ts:197 | adding the matched names to the set gives the old set plus exactly those names |
| Categorizer.GroupByLanguage | src/lib/categorize.ts:204-209 | the `byLang` loop builds the first-seen-order grouping by `language ?? "Other"` |
| Categorizer.PlaceLanguages | src/lib/categorize.ts:211-232 | the loop over language groups yields the category map and bucket of the fold `PlaceGroups` |
| CategorizeProps.RecencyBounds | src/lib/categorize.ts:164-165 | the recency term is never negative, is at most 1 for a push in the past, and is positive exactly within 365 days |
| CategorizeProps.RepoScoreBounds | src/lib/categorize.ts:161-167 | a score is at least 3·stars + 2·forks, and at most one more for a push in the past |
| CategorizeProps.MaxScoreIsMax | src/lib/categorize.ts:170 | the maximum of a non-empty list is one of its scores and bounds them all |
| CategorizeProps.SumScoreBounds | src/lib/categorize.ts:171 | the aggregate is non-negative and at least every single score |
| CategorizeProps.CategoryScoreBounds | src/lib/categorize.ts:169-173 | a category's score is at least three times its best repository's score |
| CategorizeProps.ScoreOrder | src/lib/categorize.ts:176 | descending score is a strict weak order, so the sort is well defined |
| CategorizeProps.SortReposSpec | src/lib/categorize.ts:175-177 | `sortRepos` is a permutation into non-increasing score that keeps equal scores in input order |
| CategorizeProps.RankOrder | src/lib/categorize.ts:246-250 | the ranking comparator is a strict weak order with "Other Projects" as its last class |
| CategorizeProps.RankBeforeMeaning | src/lib/categorize.ts:246-250 | "Other Projects" never ranks before anything, ranks after every other card, and other cards rank by strictly higher category score |
| CategorizeProps.RulesByPriority | src/lib/categorize.ts:14-159 | the fourteen rules are listed in non-increasing priority |
| CategorizeProps.SortedRulesUnchanged | src/lib/categorize.ts:185 | sorting the rules by priority leaves the table order unchanged |
| CategorizeProps.RuleTitlesDistinct | src/lib/categorize.ts:14-159 | there are 14 rules, their labels are distinct, and none is "Other Projects" |
| RulePassProps.RulePassShape | src/lib/categorize.ts:187-199 | after the rule loop each map entry is a non-empty, score-sorted card keyed by its rule's label |
| RulePassProps.RulePassMembers | src/lib/categorize.ts:187-201 | the rule cards plus the unassigned repositories hold each visible repository at most once, and exactly once for unique names |
| RulePassProps.RulePassFirstMatch | src/lib/categorize.ts:187-199 | with unique names, a visible repository is taken exactly when some rule matches it, and it is on the card of the first matching rule |
| RulePassProps.ClaimSplit | src/lib/categorize.ts:188-190 | the free repositories split into those a rule takes and those it passes over |
| FallbackProps.PlaceGroupSpills | src/lib/categorize.ts:214-217 | the "Other" group and any single-repository group go to the bucket and change no card |
| FallbackProps.PlaceGroupJoins | src/lib/categorize.ts:219-223 | a larger group is appended, score-sorted, to the first card whose lower-cased label contains the lower-cased language |
| FallbackProps.PlaceGroupOpens | src/lib/categorize.ts:224-231 | a larger group no label mentions becomes a new "<lang> Projects" card with the language's emoji, appended at the end |
| FallbackProps.LanguageTitle | src/lib/categorize.ts:227 | a new language card's title mentions its language and equals "Other Projects" only for the language "Other" |
| FallbackProps.LanguageCJoinsMcp | src/lib/categorize.ts:219-221 | the language "C" joins an existing "MCP Servers" card, because the test is a case-insensitive substring test |
| FallbackProps.FallbackShape | src/lib/categorize.ts:203-241 | after the fallback, keys are distinct, every card is non-empty, only the entry keyed "Other Projects" is titled so, and the rule cards keep their place and only grow |
| FallbackProps.FallbackMembers | src/lib/categorize.ts:203-241 | the fallback places each unassigned repository at most once, and exactly once under the stated hypotheses |
| RankCapProps.RankMembers | src/lib/categorize.ts:244-250 | ranking keeps every repository and drops only empty cards |
| RankCapProps.RankOtherLast | src/lib/categorize.ts:246-250 | after ranking, "Other Projects" can only be the last card |
| RankCapProps.CapMembers | src/lib/categorize.ts:252-268 | the cap shows at most eight cards and exactly the repositories it was given |
| CategorizeTheorems.CategorizeShape | src/lib/categorize.ts:243-270 | at most 8 non-empty cards, "Other Projects" last, the rest in non-increasing score; beyond 8, the first 7 ranked cards stay and the 8th is "Other Projects" holding the rest, score-sorted |
| CategorizeTheorems.CategorizeMembers | src/lib/categorize.ts:179-270 | the output holds only visible repositories, each at most once, and is a partition of them under the stated hypotheses |
| CategorizeTheorems.CategorizeShowsVisible | src/lib/categorize.ts:180 | a repository without description and topics never appears on a card |
| CategorizeTheorems.CategorizeFirstMatch | src/lib/categorize.ts:185-267 | a repository matching a rule ends on its first matching rule's card or, after the cap, in "Other Projects" |
| CategorizeTheorems.RankedFirstMatch | src/lib/categorize.ts:185-250 | before the cap, that repository is on its first matching rule's card |
| CategorizeTheorems.CategorizeNothing | src/lib/categorize.ts:179-270 | no repositories give no categories |
| GitHub.LanguageColor | src/lib/github.ts:12-42 | a listed language gets its table colour; any other language gets "#8b8b8b" |
| GitHub.ComputeLanguages | src/lib/github.ts:89-108 | the counting loop and the map/sort chain return exactly `Languages` |
| GitHub.LanguagesSpec | src/lib/github.ts:89-108 | one entry per distinct counted language, with no other entries; each count is that language's number of repositories; each percentage is the rounded share of 100 and at most 100; each colour comes from the table; entries are in non-increasing count with ties in first-seen order |
| GitHub.CountedLanguagesMembers | src/lib/github.ts:92-96 | a language is counted exactly when some repository has it and it is not null |
| GitHub.LanguagesTotal | src/lib/github.ts:98 | the total is the sum of the counts, which is the number of repositories with a language |
| GitHub.Percent | src/lib/github.ts:103 | `Math.round(count / total * 100)` read exactly: the nearest whole number, halves rounded up |
| GitHub.PercentBounds | src/lib/github.ts:103 | the percentage lies between 0 and 100, is 100 for the whole and 0 for none |
| GitHub.ComputeTopTopics | src/lib/github.ts:110-124 | the nested counting loops and the filter/sort/slice chain return exactly `TopTopics` |
| GitHub.TopTopicsSpec | src/lib/github.ts:110-124 | at most 12 distinct topics, each with its true occurrence count of at least 2, in non-increasing count; a frequent topic is left out only when there are 12 others, each with at least its count |
| GitHub.RankedTopicsSpec | src/lib/github.ts:119-122 | before the slice, the frequent topics are exactly those occurring twice or more, in non-increasing count |
| GitHub.ComputeTimeline | src/lib/github.ts:126-139 | the month-counting loop and the sort/slice chain return exactly `Timeline` |
| GitHub.MonthsSpec | src/lib/github.ts:129-136 | one entry per distinct creation month with the number of repositories created in it |
| GitHub.MonthsAscending | src/lib/github.ts:137 | the months are in strictly ascending key order |
| GitHub.TimelineSuffix | src/lib/github.ts:137-138 | the timeline is the last min(n, 12) months, strictly ascending |
| GitHub.TimelineDropsOlder | src/lib/github.ts:126-139 | a month with repositories is missing only when there are 12 later months shown |
| GitHub.MonthKeyFormat | src/lib/github.ts:132 | for a four-digit year the key is "YYYY-MM" and parses back to the year and the 1-based month |
| GitHub.ProfileIgnoresHidden | src/lib/github.ts:149-159 | the profile depends only on non-fork, non-archived repositories, and lists only those |
| Utils.TimeAgo | src/lib/utils.ts:7-27 | the loop over the interval table returns exactly `TimeAgoText` |
| Utils.TimeAgoSpec | src/lib/utils.ts:10-26 | under a minute gives "just now"; otherwise the first unit that fits at least once is used, with its whole count |
| Utils.TimeAgoShape | src/lib/utils.ts:21-26 | the text is "just now" or ends in " ago", and "just now" exactly when under 60 seconds |
| Utils.TopOrder | src/lib/utils.ts:39-45 | stars descending, then push time descending, is a strict weak order |
| Utils.TopReposSpec | src/lib/utils.ts:34-47 | the result is a prefix of the sorted copy, of length min(limit, n) for a non-negative limit, drawn from the input, ordered by stars then recency, ties kept in input order |
| Utils.SliceTo | src/lib/utils.ts:46 | `slice(0, end)` keeps a prefix; a negative end counts from the back |
| Utils.FormatSmallSpec | src/lib/utils.ts:1-5 | below 1000, the text is the plain decimal number: at most 3 digits, parsing back to the number |
| Proxy.ExtractSound | src/proxy.ts:4-16 | an extracted name is a valid username, and is either the whole input or the user part of a github.com profile URL |
| Proxy.ExtractFromUrl | src/proxy.ts:4-9 | every http(s), optional-www github.com profile URL, with or without a trailing slash, yields its username |
| Proxy.ExtractBare | src/proxy.ts:11-13 | a bare valid username is returned as is |
| Proxy.ExtractIdempotent | src/proxy.ts:7-16 | extracting from an extracted name gives the same name |
| Proxy.ExtractRefuses | src/proxy.ts:11-15 | an empty input or one starting with '-' yields nothing |
| Proxy.StripQuestion | src/proxy.ts:29 | one leading '?' is removed, nothing else |
| Proxy.RouteSpec | src/proxy.ts:18-39 | a usable `url` parameter wins; otherwise a non-empty raw query without '=' is decoded and tried; a failed decode is an error; anything else passes through; a redirect goes to "/" + a valid username |
| GitHubRepo.ShowroomColor | src/lib/github-repo.ts:11-46 | a listed language gets its table colour; any other gets "#8b8b8b" |
| GitHubRepo.ColorTablesAgree | src/lib/github-repo.ts:11-46 | the repository-page colour table extends the profile table entry for entry |
| GitHubRepo.ParseLanguagesEmpty | src/lib/github-repo.ts:178-179 | the breakdown is empty exactly when the byte total is 0 |
| GitHubRepo.ParseLanguagesOrder | src/lib/github-repo.ts:180-187 | for a positive total, one entry per language, in non-increasing bytes, ties in key order |
| GitHubRepo.ParseLanguagesMembers | src/lib/github-repo.ts:180-186 | each entry carries an input language's name and bytes and its colour |
| GitHubRepo.ParseCommunity | src/lib/github-repo.ts:190-202 | the health percentage is copied and each flag is set exactly when its file is present |
| GitHubRepo.IsBotSimplified | src/lib/github-repo.ts:242-245 | a login is a bot exactly when, lower-cased, it ends in "bot" or "[bot]", or is "renovate" or "greenkeeper" |
| GitHubRepo.RecentActivitySpec | src/lib/github-repo.ts:247-261 | the first min(8, n) non-bot issues in order, each mapped field by field, open exactly when its state is "open" |
| GitHubRepo.OpenIssuesCount | src/lib/github-repo.ts:237-240 | the open-issue count is never negative, and is issues minus pull requests, or 0 |
| GitHubRepo.OpenIssuesSplit | src/lib/github-repo.ts:237-240 | issues shown plus pull requests are at least the API's count, equal to it when it is at least the pull-request count, and the issues shown are 0 otherwise |
| GitHubRepo.ContributorCount | src/lib/github-repo.ts:292 | the contributor count is the larger of the counted and the listed numbers |
| GitHubRepo.WeeklyCommits | src/lib/github-repo.ts:306 | the last min(n, 12) weeks of participation, or nothing when there is none |
| GitHubRepo.LastPageRoundTrip | src/lib/github-repo.ts:173-174 | a header whose leftmost `&page=(\d+)>;\s*rel="last"` match is the last-page link carrying page n parses back to n; earlier '&'s, as in `per_page=1&anon=true&page=2>; rel="next"`, are allowed when none of them starts a match |
| GitHubRepo.LastPageWithoutPage | src/lib/github-repo.ts:173-174 | a header in which no position starts a match gives 1 |
| GitHubRepo.OtherRelStartsNoMatch | src/lib/github-repo.ts:173 | a `&page=d>; rel="r"` link with any relation r other than `last`, such as the `next` link GitHub sends before the last one, starts no match |
| GitHubRepo.FindMatchSkips | src/lib/github-repo.ts:173 | the leftmost match search passes over every position that starts no match |
| StatusLine.IsQuietExact | src/components/repo/StatusLine.tsx:8-13 | quiet exactly when more than 60 days (5184000000 ms) have elapsed |
| StatusLine.QuietUnits | src/components/repo/StatusLine.tsx:17-18 | a quiet repository's age reads in years or months; one that is not quiet never reads in years |
| StatusLine.BuildStatusParts | src/components/repo/StatusLine.tsx:15-40 | the step-by-step pushes return exactly `StatusParts` |
| StatusLine.StatusPartsShape | src/components/repo/StatusLine.tsx:26-39 | 2 or 3 parts: first "Quiet" or "Active" as `isQuiet` says, last "Last activity " + the `timeAgo` text |
| StatusLine.ActivityPrefixed | src/components/repo/StatusLine.tsx:22-25 | the prefix is always applied, because `timeAgo` always yields "just now" or "… ago" |
| StatusLine.InProgressSpec | src/components/repo/StatusLine.tsx:19-32 | an in-progress part appears exactly when pull requests ≤ 10, issues ≤ 20 and pull requests > 0, reading "1 in progress" for one |
| StatusLine.DiscussionSpec | src/components/repo/StatusLine.tsx:19-37 | a discussion part appears exactly when the thresholds hold, there are no pull requests and some issues, singular for one |
| StatusLine.CountsExclusive | src/components/repo/StatusLine.tsx:28-37 | the in-progress and discussion parts never appear together |
| CategorySection.TotalProjectsCounts | src/components/category-section.tsx:77-80 | the total is the number of repositories across all categories |
| CategorySection.ShowSearchSpec | src/components/category-section.tsx:104 | the search box shows exactly when there are at least 10 repositories in all |
| CategorySection.SearchBlank | src/components/category-section.tsx:83 | an empty or whitespace-only search returns the categories unchanged |
| CategorySection.SearchKeepsMatches | src/components/category-section.tsx:84-96 | after a search no category is empty, and each repository shown contains the lower-cased, untrimmed query in its name, description, a topic or its language |
| CategorySection.SearchKeepsOrder | src/components/category-section.tsx:85-96 | categories keep their order, title and emoji; each keeps exactly its matching repositories, in order |
| CategorySection.SearchNeverAdds | src/components/category-section.tsx:85-96 | every repository shown is in the input category of the same title and emoji |
| CategorySection.SearchShrinksTotal | src/components/category-section.tsx:85-96 | the number of repositories shown never grows |
| CategorySection.SearchFindsAll | src/components/category-section.tsx:85-96 | every matching repository is shown, in a category of its own title and emoji |
| CategorySection.CollapseSpec | src/components/category-section.tsx:139-189 | expanded shows all; collapsed shows the first 3; above 3, "Show N more" has N equal to the number hidden |
| ContributionsCard.ShowContributionsSpec | src/components/contributions-card.tsx:9-18 | false without data; otherwise true exactly when at least 2 outside repositories are listed |
| ContributionsCard.ShowIgnoresOwnCount | src/components/contributions-card.tsx:11-18 | the answer does not depend on the number of own repositories |
| ContributionsCard.FirstSpec | src/components/contributions-card.tsx:20-25 | the card goes first exactly when it lists more repositories than the user owns, whatever else the data holds |
| ContributionsCard.FirstImpliesShown | src/components/contributions-card.tsx:9-25 | for a user with at least one own repository, going first implies being shown |

## Left out

- HTTP and I/O are not modelled. This covers `githubFetch`, `repoFetch`, `repoFetchSafe`, the fetches of `fetchContributorCount` and `fetchOpenPullsCount`, `fetchNpmStats`, the `Promise.all` orchestration of `fetchProfile` and `fetchRepoShowroom`, caching, and the error classes. Their results enter as parameters: `GitHubRepo.ContributorTotal` takes the response status, the `Link` header and the listed count.
- React rendering, styling, `useState`/`useEffect`, the accent colour cycle and the expand/collapse toggle handler are UI plumbing, and are not modelled.
- Floating-point display maths is left out: `formatNumber` at 1000 and above, the `parseLanguages` percentage (`LanguageBreakdown` has no percentage field), bar widths, and chart scales.
- Dates are parameters. `now`, the elapsed milliseconds and the creation year and month are integers. The status pill reads the clock once, where the source calls it separately in `timeAgo` and `isQuiet`. `memberSince` is not modelled.
- `Categorizer.Matches`: the description regexes of the rule table are a parameter `descTest`, so the rule outcome for descriptions is as that parameter decides.
- `Proxy.Route`: `decodeURIComponent` is a parameter that returns None where the source throws; a throw is the `Fails` decision.
- `Text.Lower` lower-cases ASCII A–Z only, where `toLowerCase` also folds other scripts.
- `GitHub.Percent`: computed in exact arithmetic. The floating-point quotient in the source can round differently when the share is within rounding error of a half.
- `GitHub.MonthBefore`: `localeCompare` is modelled as code-unit order, which agrees on "YYYY-MM" keys.
- `GitHubRepo.ParseLanguages`: the entry order is the input order, where `Object.entries` lists integer-like keys first. GitHub language names are not integer-like.
- `Categorizer.MaxScore`: starts from 0 instead of `-Infinity`. The two agree because it is only taken of non-empty lists with non-negative scores.
- `CategorizeTheorems.CategorizeMembers`: the exact partition holds under two hypotheses, unique names and no language literally named "Other Projects". A repository in that language would be overwritten by the bucket's `set` at src/lib/categorize.ts:235.
- `CategorizeProps.RecencyBounds`: the recency term is at most 1 only for pushes in the past, because the source clamps only at 0.
- `Utils.FormatSmallSpec`: only the below-1000 branch of `formatNumber`.
- `GitHubRepo.IsBot`: the "-bot" suffix and the name "dependabot" are redundant, as `GitHubRepo.IsBotSimplified` shows. The "bot" suffix also catches human logins such as "talbot"; the model keeps this behaviour.
- `latestRelease`, `homepage`, `license`, `cleanSnippet`, the npm statistics and the static pages are not part of this model.
- Renamed fields: a category's `label` is `title`, and the `assigned` set is `claimed`, because `label` and `assigned` are Dafny keywords.
