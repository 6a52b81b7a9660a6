/**
 * Display helpers: the relative age of a timestamp, the most starred
 * repositories, and the rendering of small counts.
 */
module Utils {
  import opened Seqs
  import opened Text
  import opened Types

  // ---------------------------------------------------------------------
  // relative age
  // ---------------------------------------------------------------------

  /** The units tried in turn, largest first, with their length in seconds. */
  const Intervals: seq<(string, nat)> := [
    ("y", 31536000), ("mo", 2592000), ("w", 604800), ("d", 86400), ("h", 3600), ("m", 60)
  ]

  /** The text for `seconds` from the units `units` on, all of positive length. */
  function AgoFrom(seconds: int, units: seq<(string, nat)>): string
    requires forall u | u in units :: u.1 > 0
  {
    if |units| == 0 then "just now"
    else if seconds / units[0].1 >= 1 then NatToString(seconds / units[0].1) + units[0].0 + " ago"
    else AgoFrom(seconds, units[1..])
  }

  /** `timeAgo` of a date `elapsedMs` milliseconds in the past; `/` on a positive divisor is `Math.floor`. */
  function TimeAgoText(elapsedMs: int): string {
    AgoFrom(elapsedMs / 1000, Intervals)
  }

  /** `timeAgo`: the first unit that fits at least once, or "just now". */
  method TimeAgo(elapsedMs: int) returns (text: string)
    ensures text == TimeAgoText(elapsedMs)
  {
    var seconds := elapsedMs / 1000;
    for i := 0 to |Intervals|
      invariant AgoFrom(seconds, Intervals[i..]) == TimeAgoText(elapsedMs)
    {
      var name, s := Intervals[i].0, Intervals[i].1;
      assert Intervals[i..][1..] == Intervals[i + 1..];
      var count := seconds / s;
      if count >= 1 {
        return NatToString(count) + name + " ago";
      }
    }
    return "just now";
  }

  /** Unit `k` is the one `timeAgo` picks for `seconds`: it fits, and no larger unit does. */
  ghost predicate Picks(seconds: int, k: nat) {
    k < |Intervals| && Intervals[k].1 <= seconds && forall j :: 0 <= j < k ==> seconds < Intervals[j].1
  }

  /** A positive length fits at least once exactly when it is at most `seconds`. */
  lemma FitsOnce(seconds: int, size: nat)
    requires size > 0
    ensures seconds / size >= 1 <==> size <= seconds
  {
    if size <= seconds {
      assert seconds == size * (seconds / size) + seconds % size;
    }
  }

  lemma {:induction false} AgoFromPicks(seconds: int, i: nat, k: nat)
    requires i <= k < |Intervals|
    requires Intervals[k].1 <= seconds && forall j :: i <= j < k ==> seconds < Intervals[j].1
    ensures AgoFrom(seconds, Intervals[i..]) == NatToString(seconds / Intervals[k].1) + Intervals[k].0 + " ago"
    decreases k - i
  {
    FitsOnce(seconds, Intervals[i].1);
    if i < k {
      assert Intervals[i..][1..] == Intervals[i + 1..];
      AgoFromPicks(seconds, i + 1, k);
    }
  }

  lemma {:induction false} AgoFromNone(seconds: int, i: nat)
    requires i <= |Intervals|
    requires forall j :: i <= j < |Intervals| ==> seconds < Intervals[j].1
    ensures AgoFrom(seconds, Intervals[i..]) == "just now"
    decreases |Intervals| - i
  {
    if i < |Intervals| {
      FitsOnce(seconds, Intervals[i].1);
      assert Intervals[i..][1..] == Intervals[i + 1..];
      AgoFromNone(seconds, i + 1);
    }
  }

  /**
   * Under a minute, negative ages included, is "just now"; otherwise the text
   * is the whole number of the picked unit, at least 1, its label and " ago".
   */
  lemma TimeAgoSpec(elapsedMs: int)
    ensures var s := elapsedMs / 1000;
      && (s < 60 ==> TimeAgoText(elapsedMs) == "just now")
      && (s >= 60 ==> exists k: nat :: Picks(s, k))
      && (forall k: nat | Picks(s, k) ::
            && s / Intervals[k].1 >= 1
            && TimeAgoText(elapsedMs) == NatToString(s / Intervals[k].1) + Intervals[k].0 + " ago")
  {
    var s := elapsedMs / 1000;
    if s < 60 {
      AgoFromNone(s, 0);
    } else {
      var k := 0;
      while Intervals[k].1 > s
        invariant k < |Intervals| && forall j :: 0 <= j < k ==> s < Intervals[j].1
      {
        k := k + 1;
      }
      assert Picks(s, k);
    }
    forall k: nat | Picks(s, k)
      ensures s / Intervals[k].1 >= 1
      ensures TimeAgoText(elapsedMs) == NatToString(s / Intervals[k].1) + Intervals[k].0 + " ago"
    {
      FitsOnce(s, Intervals[k].1);
      AgoFromPicks(s, 0, k);
    }
  }

  /** Text ending in " ago" is never "just now". */
  lemma AgoText(t: string)
    ensures EndsWith(t + " ago", " ago") && t + " ago" != "just now"
  {
    assert (t + " ago")[|t| + 3] == 'o';
  }

  /** The relative age always reads "just now" or ends in " ago", and it is "just now" exactly below a minute. */
  lemma TimeAgoShape(elapsedMs: int)
    ensures TimeAgoText(elapsedMs) == "just now" || EndsWith(TimeAgoText(elapsedMs), " ago")
    ensures TimeAgoText(elapsedMs) == "just now" <==> elapsedMs / 1000 < 60
  {
    TimeAgoSpec(elapsedMs);
    var s := elapsedMs / 1000;
    if s >= 60 {
      var k: nat :| Picks(s, k);
      AgoText(NatToString(s / Intervals[k].1) + Intervals[k].0);
    }
  }

  // ---------------------------------------------------------------------
  // the most starred repositories
  // ---------------------------------------------------------------------

  /** The comparator of `getTopRepos` puts `a` first: more stars, or as many stars and a later push. */
  predicate TopBefore(a: Repo, b: Repo) {
    a.stars > b.stars || (a.stars == b.stars && a.pushedAt > b.pushedAt)
  }

  /** `s.slice(0, end)`: a negative end counts from the back. */
  function SliceTo<T>(s: seq<T>, end: int): (r: seq<T>)
    ensures |r| == if end < 0 then (if |s| + end < 0 then 0 else |s| + end) else (if end < |s| then end else |s|)
    ensures r <= s
  {
    if end < 0 then (if |s| + end < 0 then [] else s[..|s| + end])
    else if end < |s| then s[..end] else s
  }

  /** `getTopRepos`: a sorted copy, cut to `limit`. */
  function TopRepos(repos: seq<Repo>, limit: int): seq<Repo> {
    SliceTo(SortBy(repos, TopBefore), limit)
  }

  lemma TopOrder()
    ensures StrictWeakOrder(TopBefore)
  {
  }

  /**
   * `getTopRepos` keeps `min(limit, n)` repositories, a prefix of a sorted
   * permutation of the input: stars descending, then the latest push first,
   * fully tied repositories in input order.
   */
  lemma TopReposSpec(repos: seq<Repo>, limit: int, v: Repo)
    ensures var top := TopRepos(repos, limit);
      && (limit >= 0 ==> |top| == if limit < |repos| then limit else |repos|)
      && top <= SortBy(repos, TopBefore)
      && multiset(SortBy(repos, TopBefore)) == multiset(repos)
      && multiset(top) <= multiset(repos)
      && (forall i, j :: 0 <= i < j < |top| ==>
            top[i].stars > top[j].stars || (top[i].stars == top[j].stars && top[i].pushedAt >= top[j].pushedAt))
      && Filter(SortBy(repos, TopBefore), TiedWith(TopBefore, v)) == Filter(repos, TiedWith(TopBefore, v))
  {
    var sorted := SortBy(repos, TopBefore);
    var top := TopRepos(repos, limit);
    SortByMultiset(repos, TopBefore);
    TopOrder();
    SortBySorted(repos, TopBefore);
    SortByStable(repos, TopBefore, v);
    assert sorted == top + sorted[|top|..];
    assert multiset(sorted) == multiset(top) + multiset(sorted[|top|..]);
    forall i, j | 0 <= i < j < |top|
      ensures top[i].stars > top[j].stars || (top[i].stars == top[j].stars && top[i].pushedAt >= top[j].pushedAt)
    {
      assert top[i] == sorted[i] && top[j] == sorted[j];
    }
  }

  // ---------------------------------------------------------------------
  // small numbers
  // ---------------------------------------------------------------------

  /** `formatNumber` below 1000, where it is `num.toString()`. */
  function FormatSmall(n: int): (s: string)
    requires n < 1000
  {
    IntToString(n)
  }

  lemma SmallDigits(n: nat)
    requires n < 1000
    ensures |NatToString(n)| <= 3
  {
    if n >= 10 {
      assert NatToString(n) == NatToString(n / 10) + [DigitChar(n % 10)];
      if n / 10 >= 10 {
        assert NatToString(n / 10) == NatToString(n / 100) + [DigitChar(n / 10 % 10)];
      }
    }
  }

  /** Below 1000 a count is written in at most three digits that read back as the count; a negative one starts with '-'. */
  lemma FormatSmallSpec(n: int)
    requires n < 1000
    ensures n >= 0 ==> 1 <= |FormatSmall(n)| <= 3 && ParseDigits(FormatSmall(n)) == n
    ensures n < 0 ==> FormatSmall(n)[0] == '-' && ParseDigits(FormatSmall(n)[1..]) == -n
  {
    if n >= 0 {
      SmallDigits(n);
      ParseNatToString(n);
    } else {
      assert FormatSmall(n)[1..] == NatToString(-n);
      ParseNatToString(-n);
    }
  }
}
