/**
 * What the repository showroom makes of the GitHub responses: the language
 * breakdown, the community-profile flags, the recent activity without bots,
 * the corrected counts, the contributor total read from a `Link` header and
 * the last weeks of commit counts.
 */
module GitHubRepo {
  import opened Wrappers
  import opened Seqs
  import opened Text
  import GitHub

  // ---------------------------------------------------------------------
  // language breakdown
  // ---------------------------------------------------------------------

  /** The showroom's colour table: the profile's 25 languages and nine more. */
  const ShowroomColors: seq<(string, string)> := [
    ("TypeScript", "#3178c6"), ("JavaScript", "#f1e05a"), ("Python", "#3572A5"), ("Rust", "#dea584"),
    ("Go", "#00ADD8"), ("Java", "#b07219"), ("C++", "#f34b7d"), ("C", "#555555"), ("C#", "#178600"),
    ("Ruby", "#701516"), ("PHP", "#4F5D95"), ("Swift", "#F05138"), ("Kotlin", "#A97BFF"),
    ("Dart", "#00B4AB"), ("Shell", "#89e051"), ("HTML", "#e34c26"), ("CSS", "#563d7c"),
    ("Vue", "#41b883"), ("Svelte", "#ff3e00"), ("Lua", "#000080"), ("Elixir", "#6e4a7e"),
    ("Haskell", "#5e5086"), ("Scala", "#c22d40"), ("Zig", "#ec915c"), ("Nix", "#7e7eff"),
    ("Dockerfile", "#384d54"), ("Makefile", "#427819"), ("SCSS", "#c6538c"), ("Less", "#1d365d"),
    ("Objective-C", "#438eff"), ("R", "#198CE7"), ("Julia", "#a270ba"), ("Perl", "#0298c3"),
    ("Clojure", "#db5855")
  ]

  /** `LANGUAGE_COLORS[name] ?? "#8b8b8b"`. */
  function ShowroomColor(name: string): (c: string)
    ensures name in Keys(ShowroomColors) ==> (name, c) in ShowroomColors
    ensures name !in Keys(ShowroomColors) ==> c == GitHub.DefaultColor
  {
    Get(ShowroomColors, name).GetOr(GitHub.DefaultColor)
  }

  /** The showroom's table extends the profile's: the first 25 entries are the same. */
  lemma ColorTablesAgree()
    ensures ShowroomColors[..|GitHub.LanguageColors|] == GitHub.LanguageColors
  {
  }

  /** One language of a repository: the bytes of code in it and its colour. */
  datatype LanguageBreakdown = LanguageBreakdown(name: string, bytes: nat, color: string)

  function ToBreakdown(e: (string, nat)): LanguageBreakdown {
    LanguageBreakdown(e.0, e.1, ShowroomColor(e.0))
  }

  /** The comparator `b.bytes - a.bytes` puts `a` first. */
  predicate BytesBefore(a: LanguageBreakdown, b: LanguageBreakdown) {
    a.bytes > b.bytes
  }

  /** `parseLanguages` over the entries of the languages object, in their order. */
  function ParseLanguages(raw: seq<(string, nat)>): seq<LanguageBreakdown> {
    if Sum(Values(raw)) == 0 then [] else SortBy(MapSeq(raw, ToBreakdown), BytesBefore)
  }

  lemma BytesOrder()
    ensures StrictWeakOrder(BytesBefore)
  {
  }

  /** Each entry of the sorted breakdown is some entry of the input with its colour. */
  lemma BreakdownMembers(raw: seq<(string, nat)>)
    ensures forall b | b in SortBy(MapSeq(raw, ToBreakdown), BytesBefore) :: (b.name, b.bytes) in raw && b.color == ShowroomColor(b.name)
  {
    var e := MapSeq(raw, ToBreakdown);
    SortByMultiset(e, BytesBefore);
    forall b | b in SortBy(e, BytesBefore) ensures (b.name, b.bytes) in raw && b.color == ShowroomColor(b.name) {
      assert b in multiset(e);
      var i :| 0 <= i < |e| && e[i] == b;
      assert raw[i] == (b.name, b.bytes);
    }
  }

  /** A positive total means some language is there. */
  lemma SumPositive(vs: seq<nat>)
    requires Sum(vs) != 0
    ensures |vs| > 0
  {
  }

  /** The sorted breakdown is a permutation of the entries, most bytes first, equal sizes in input order. */
  lemma BreakdownOrder(e: seq<LanguageBreakdown>, v: LanguageBreakdown)
    ensures var out := SortBy(e, BytesBefore);
      && multiset(out) == multiset(e)
      && (forall i, j :: 0 <= i < j < |out| ==> out[i].bytes >= out[j].bytes)
      && Filter(out, TiedWith(BytesBefore, v)) == Filter(e, TiedWith(BytesBefore, v))
  {
    SortByMultiset(e, BytesBefore);
    BytesOrder();
    SortBySorted(e, BytesBefore);
    SortByStable(e, BytesBefore, v);
  }

  /** No bytes at all, and only then, give no breakdown. */
  lemma ParseLanguagesEmpty(raw: seq<(string, nat)>)
    ensures ParseLanguages(raw) == [] <==> Sum(Values(raw)) == 0
  {
    if Sum(Values(raw)) > 0 {
      SumPositive(Values(raw));
    }
  }

  /** With some bytes, one entry per input entry, most bytes first, equal sizes in input order. */
  lemma ParseLanguagesOrder(raw: seq<(string, nat)>, v: LanguageBreakdown)
    requires Sum(Values(raw)) > 0
    ensures var out := ParseLanguages(raw);
      && multiset(out) == multiset(MapSeq(raw, ToBreakdown))
      && |out| == |raw|
      && (forall i, j :: 0 <= i < j < |out| ==> out[i].bytes >= out[j].bytes)
      && Filter(out, TiedWith(BytesBefore, v)) == Filter(MapSeq(raw, ToBreakdown), TiedWith(BytesBefore, v))
  {
    BreakdownOrder(MapSeq(raw, ToBreakdown), v);
  }

  /** Every entry is a language of the input with its byte count, coloured from the table or grey. */
  lemma ParseLanguagesMembers(raw: seq<(string, nat)>)
    ensures forall b | b in ParseLanguages(raw) :: (b.name, b.bytes) in raw && b.color == ShowroomColor(b.name)
  {
    BreakdownMembers(raw);
  }

  // ---------------------------------------------------------------------
  // community profile
  // ---------------------------------------------------------------------

  /** The community-profile files, each absent (null) or present with its address. */
  datatype CommunityFiles = CommunityFiles(
    readme: Option<string>,
    license: Option<string>,
    contributing: Option<string>,
    codeOfConduct: Option<string>,
    issueTemplate: Option<string>,
    pullRequestTemplate: Option<string>)

  datatype CommunityProfile = CommunityProfile(healthPercentage: int, files: CommunityFiles)

  datatype FileFlags = FileFlags(
    readme: bool, license: bool, contributing: bool, codeOfConduct: bool, issueTemplate: bool, pullRequestTemplate: bool)

  datatype CommunityHealth = CommunityHealth(healthPercentage: int, files: FileFlags)

  /** `parseCommunity`: `!!file` for each file, the health score as given. */
  function ParseCommunity(raw: CommunityProfile): (h: CommunityHealth)
    ensures h.healthPercentage == raw.healthPercentage
    ensures h.files.readme <==> raw.files.readme.Some?
    ensures h.files.license <==> raw.files.license.Some?
    ensures h.files.contributing <==> raw.files.contributing.Some?
    ensures h.files.codeOfConduct <==> raw.files.codeOfConduct.Some?
    ensures h.files.issueTemplate <==> raw.files.issueTemplate.Some?
    ensures h.files.pullRequestTemplate <==> raw.files.pullRequestTemplate.Some?
  {
    var f := raw.files;
    CommunityHealth(raw.healthPercentage, FileFlags(
      f.readme.Some?, f.license.Some?, f.contributing.Some?, f.codeOfConduct.Some?,
      f.issueTemplate.Some?, f.pullRequestTemplate.Some?))
  }

  // ---------------------------------------------------------------------
  // recent activity
  // ---------------------------------------------------------------------

  const BotSuffixes: seq<string> := ["[bot]", "-bot", "bot"]

  /** `isBot`: a lower-cased login ending in a bot suffix, or one of three bot accounts by exact name. */
  predicate IsBot(login: string) {
    || (exists s | s in BotSuffixes :: EndsWith(Lower(login), s))
    || login == "dependabot" || login == "renovate" || login == "greenkeeper"
  }

  /**
   * The same test without its redundant parts: "-bot" and "dependabot" already
   * end in "bot", so a login is a bot exactly when its lower-cased form ends
   * in "bot" or "[bot]", or it is "renovate" or "greenkeeper".
   */
  lemma IsBotSimplified(login: string)
    ensures IsBot(login) <==>
      || EndsWith(Lower(login), "bot") || EndsWith(Lower(login), "[bot]")
      || login == "renovate" || login == "greenkeeper"
  {
    if EndsWith(Lower(login), "-bot") {
      EndsWithSuffix(Lower(login), "-", "bot");
    }
    if login == "dependabot" {
      assert Lower(login)[|login| - 3..] == "bot";
    }
    if EndsWith(Lower(login), "bot") {
      assert "bot" in BotSuffixes;
    }
    if EndsWith(Lower(login), "[bot]") {
      assert "[bot]" in BotSuffixes;
    }
  }

  /** An issue or pull request as the issues listing returns it. */
  datatype Issue = Issue(
    id: int, number: int, title: string, body: Option<string>, htmlUrl: string, state: string,
    login: string, createdAt: string, updatedAt: string, pullRequest: Option<string>)

  datatype Activity = Activity(
    id: int, number: int, title: string, body: Option<string>, htmlUrl: string, isOpen: bool,
    login: string, createdAt: string, updatedAt: string, isPr: bool)

  predicate NotBot(i: Issue) {
    !IsBot(i.login)
  }

  /** `state === "open" ? "open" : "closed"`, and a pull request when the field is there and non-null. */
  function ToActivity(i: Issue): Activity {
    Activity(i.id, i.number, i.title, i.body, i.htmlUrl, i.state == "open", i.login, i.createdAt, i.updatedAt,
             i.pullRequest.Some?)
  }

  const MaxActivity: nat := 8

  /** `recentActivity`: filter out bots, map, keep the first eight. */
  function RecentActivity(issues: seq<Issue>): seq<Activity> {
    Take(MapSeq(Filter(issues, NotBot), ToActivity), MaxActivity)
  }

  /**
   * At most eight items, the first non-bot issues in their order, none by a
   * bot, each open exactly when its issue is, every field carried over.
   */
  lemma RecentActivitySpec(issues: seq<Issue>)
    ensures var out, humans := RecentActivity(issues), Filter(issues, NotBot);
      && |out| == (if |humans| < MaxActivity then |humans| else MaxActivity)
      && (forall i :: 0 <= i < |out| ==>
            && out[i] == ToActivity(humans[i])
            && !IsBot(out[i].login)
            && (out[i].isOpen <==> humans[i].state == "open")
            && humans[i] in issues)
  {
    var humans := Filter(issues, NotBot);
    FilterMembers(issues, NotBot);
    var out := RecentActivity(issues);
    forall i | 0 <= i < |out| ensures out[i] == ToActivity(humans[i]) && humans[i] in issues && NotBot(humans[i]) {
      assert out[i] == MapSeq(humans, ToActivity)[i];
      assert humans[i] in humans;
    }
  }

  // ---------------------------------------------------------------------
  // counts
  // ---------------------------------------------------------------------

  function Max(a: int, b: int): int {
    if a < b then b else a
  }

  /** `Math.max(0, open_issues_count - openPrsCount)`: the issue count GitHub reports includes open pull requests. */
  function OpenIssuesCount(openIssues: int, openPrs: int): (n: int)
    ensures n >= 0 && n >= openIssues - openPrs
    ensures n == openIssues - openPrs || n == 0
  {
    Max(0, openIssues - openPrs)
  }

  /** Issues and pull requests together account for at least the reported count, exactly when it covers the pull requests. */
  lemma OpenIssuesSplit(openIssues: int, openPrs: int)
    ensures OpenIssuesCount(openIssues, openPrs) + openPrs >= openIssues
    ensures openIssues >= openPrs ==> OpenIssuesCount(openIssues, openPrs) + openPrs == openIssues
    ensures openIssues <= openPrs ==> OpenIssuesCount(openIssues, openPrs) == 0
  {
  }

  /** `Math.max(contributorCount, contributors.length)`: never fewer than the contributors listed. */
  function ContributorCount(counted: nat, listed: nat): (n: nat)
    ensures n >= counted && n >= listed
    ensures n == counted || n == listed
  {
    Max(counted, listed)
  }

  /** `participation.all.slice(-12)`, or nothing when the statistics are missing. */
  function WeeklyCommits(participation: Option<seq<int>>): (w: seq<int>)
    ensures participation.None? ==> w == []
    ensures participation.Some? ==> IsSuffix(participation.value, w) && |w| == if |participation.value| < 12 then |participation.value| else 12
  {
    match participation
    case None => []
    case Some(all) => TakeLast(all, 12)
  }

  /** `w` is a suffix of `s`. */
  predicate IsSuffix<T(==)>(s: seq<T>, w: seq<T>) {
    |w| <= |s| && s[|s| - |w|..] == w
  }

  // ---------------------------------------------------------------------
  // the contributor total from the Link header
  // ---------------------------------------------------------------------

  /** The length of the run of characters satisfying `p` from position `i`. */
  function RunFrom(s: string, i: nat, p: char -> bool): (n: nat)
    requires i <= |s|
    ensures i + n <= |s|
    ensures forall k :: i <= k < i + n ==> p(s[k])
    ensures i + n < |s| ==> !p(s[i + n])
    decreases |s| - i
  {
    if i < |s| && p(s[i]) then 1 + RunFrom(s, i + 1, p) else 0
  }

  const LastRel: string := "rel=\"last\""

  /** The digits that `&page=(\d+)>;\s*rel="last"` captures when it matches at the start of `t`. */
  function MatchHead(t: string): (m: Option<string>)
    ensures m.Some? ==> |m.value| > 0 && forall k :: 0 <= k < |m.value| ==> IsDigit(m.value[k])
  {
    if !StartsWith(t, "&page=") then None
    else
      var k := 6 + RunFrom(t, 6, IsDigit);
      if k == 6 || !StartsWith(t[k..], ">;") then None
      else
        var w := k + 2 + RunFrom(t, k + 2, IsSpace);
        if StartsWith(t[w..], LastRel) then Some(t[6..k]) else None
  }

  /** The leftmost match from position `i` on. */
  function FindMatch(s: string, i: nat): (m: Option<string>)
    requires i <= |s|
    ensures m.Some? ==> |m.value| > 0 && forall k :: 0 <= k < |m.value| ==> IsDigit(m.value[k])
    decreases |s| - i
  {
    if i == |s| then None
    else match MatchHead(s[i..])
      case Some(d) => Some(d)
      case None => FindMatch(s, i + 1)
  }

  /** `match ? parseInt(match[1], 10) : 1`. */
  function LastPage(link: string): nat {
    match FindMatch(link, 0)
    case Some(d) => ParseDigits(d)
    case None => 1
  }

  /**
   * `fetchContributorCount` after the request: nothing on a failed response;
   * without a `Link` header the length of the listed array (0 for anything
   * else); with one, the last page number.
   */
  function ContributorTotal(ok: bool, link: Option<string>, listed: Option<nat>): nat {
    if !ok then 0
    else if link.None? || link.value == "" then listed.GetOr(0)
    else LastPage(link.value)
  }

  /** Positions that start no match are passed over by the leftmost search. */
  lemma {:induction false} FindMatchSkips(s: string, i: nat, m: nat)
    requires i <= m <= |s|
    requires forall j :: i <= j < m ==> MatchHead(s[j..]).None?
    ensures FindMatch(s, i) == FindMatch(s, m)
    decreases m - i
  {
    if i < m {
      FindMatchSkips(s, i + 1, m);
    }
  }

  /** The digit run of a rendered number ends where the number does. */
  lemma {:induction false} DigitRunOf(s: string, i: nat, d: string)
    requires i + |d| < |s| && s[i..i + |d|] == d && !IsDigit(s[i + |d|])
    requires forall k :: 0 <= k < |d| ==> IsDigit(d[k])
    ensures RunFrom(s, i, IsDigit) == |d|
    decreases |d|
  {
    if |d| > 0 {
      assert s[i] == d[0];
      assert s[i + 1..i + 1 + |d[1..]|] == d[1..];
      DigitRunOf(s, i + 1, d[1..]);
    }
  }

  /** `&page=d>; rel="last"` with `d` a run of digits is a match capturing `d`. */
  lemma MatchHeadOf(d: string)
    requires |d| > 0 && forall k :: 0 <= k < |d| ==> IsDigit(d[k])
    ensures MatchHead("&page=" + d + ">; " + LastRel) == Some(d)
  {
    var t := "&page=" + d + ">; " + LastRel;
    assert t[..6] == "&page=";
    assert t[6..6 + |d|] == d;
    assert t[6 + |d|] == '>';
    DigitRunOf(t, 6, d);
    var k := 6 + |d|;
    assert t[k..][..2] == ">;";
    assert t[k + 2] == ' ' && t[k + 3] == 'r';
    assert RunFrom(t, k + 3, IsSpace) == 0;
    assert RunFrom(t, k + 2, IsSpace) == 1;
    assert t[k + 3..] == LastRel;
    assert t[6..k] == d;
  }

  /** After `&page=d>; `, the match hangs only on whether the relation is `rel="last"`. */
  lemma MatchHeadAfterDigits(d: string, u: string)
    requires |d| > 0 && forall k :: 0 <= k < |d| ==> IsDigit(d[k])
    requires |u| > 0 && !IsSpace(u[0])
    ensures MatchHead("&page=" + d + ">; " + u) == if StartsWith(u, LastRel) then Some(d) else None
  {
    var t := "&page=" + d + ">; " + u;
    var k := 6 + |d|;
    assert t[..6] == "&page=";
    assert t[6..k] == d;
    assert t[k] == '>';
    DigitRunOf(t, 6, d);
    assert t[k..][..2] == ">;";
    assert t[k + 2] == ' ' && t[k + 3] == u[0];
    assert RunFrom(t, k + 3, IsSpace) == 0;
    assert RunFrom(t, k + 2, IsSpace) == 1;
    assert t[k + 3..] == u;
  }

  /** `rel="r"` with a quote-free `r` other than `last` is not `rel="last"`. */
  lemma OtherRelNotLast(rel: string, rest: string)
    requires rel != "last" && forall k :: 0 <= k < |rel| ==> rel[k] != '"'
    ensures !StartsWith("rel=\"" + rel + "\"" + rest, LastRel)
  {
    var q := rel + "\"" + rest;
    var u := "rel=\"" + q;
    assert "rel=\"" + rel + "\"" + rest == u;
    if |q| >= 5 {
      assert u[..10] == "rel=\"" + q[..5];
      if |rel| < 4 {
        assert q[..5][|rel|] == '"' != "last\""[|rel|];
      } else if |rel| == 4 {
        assert q[..5][..4] == rel;
      } else {
        assert q[..5][4] == rel[4];
      }
      assert q[..5] != "last\"";
      assert u[..10][5..] == q[..5];
      assert LastRel[5..] == "last\"";
    }
  }

  /**
   * A link with any other relation, such as `&page=2>; rel="next"`, starts
   * no match, so such links can precede the last-page one.
   */
  lemma OtherRelStartsNoMatch(d: string, rel: string, rest: string)
    requires |d| > 0 && forall k :: 0 <= k < |d| ==> IsDigit(d[k])
    requires rel != "last" && forall k :: 0 <= k < |rel| ==> rel[k] != '"'
    ensures MatchHead("&page=" + d + ">; rel=\"" + rel + "\"" + rest).None?
  {
    var u := "rel=\"" + rel + "\"" + rest;
    assert "&page=" + d + ">; rel=\"" + rel + "\"" + rest == "&page=" + d + ">; " + u;
    assert u[0] == 'r';
    MatchHeadAfterDigits(d, u);
    OtherRelNotLast(rel, rest);
  }

  /**
   * A header whose leftmost match is the last-page link gives that page: the
   * rendering of `n` in `&page=n>; rel="last"` reads back as `n`. Earlier
   * `&`s, as in `per_page=1&anon=true&page=2>; rel="next"`, are allowed as
   * long as none of them starts a match.
   */
  lemma LastPageRoundTrip(prefix: string, n: nat)
    requires forall j :: 0 <= j < |prefix| ==>
      MatchHead((prefix + "&page=" + NatToString(n) + ">; " + LastRel)[j..]).None?
    ensures LastPage(prefix + "&page=" + NatToString(n) + ">; " + LastRel) == n
  {
    var d := NatToString(n);
    var t := "&page=" + d + ">; " + LastRel;
    var s := prefix + t;
    assert s == prefix + "&page=" + NatToString(n) + ">; " + LastRel;
    FindMatchSkips(s, 0, |prefix|);
    assert s[|prefix|..] == t;
    MatchHeadOf(d);
    ParseNatToString(n);
  }

  /** A header in which no position starts a match names no last page, so the total is 1. */
  lemma LastPageWithoutPage(link: string)
    requires forall j :: 0 <= j < |link| ==> MatchHead(link[j..]).None?
    ensures LastPage(link) == 1
  {
    FindMatchSkips(link, 0, |link|);
  }
}
