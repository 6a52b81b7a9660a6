/**
 * The status pill of a repository page: "Quiet" or "Active", an optional
 * count of work in progress or of open discussions, and the time since
 * the last push. The time since the last push is a parameter in whole
 * milliseconds; the page reads the clock once for it.
 */
module StatusLine {
  import opened Text
  import Utils

  const InProgressPrMax: nat := 10
  const InProgressIssuesMax: nat := 20
  const QuietDays: nat := 60
  const DayMs: nat := 24 * 60 * 60 * 1000

  /** `isQuiet`: the elapsed time, divided exactly by the length of a day, exceeds `QuietDays`. */
  predicate IsQuiet(elapsedMs: int) {
    (elapsedMs as real) / (DayMs as real) > QuietDays as real
  }

  /** The real-valued test is the same as comparing whole milliseconds with 60 days. */
  lemma IsQuietExact(elapsedMs: int)
    ensures IsQuiet(elapsedMs) <==> elapsedMs > 5184000000
  {
    var x := elapsedMs as real;
    assert x / 86400000.0 * 86400000.0 == x;
  }

  /** A quiet repository's age reads in months or years; one that is not quiet never in years. */
  lemma QuietUnits(elapsedMs: int)
    ensures var s := elapsedMs / 1000;
      IsQuiet(elapsedMs) ==>
        || Utils.TimeAgoText(elapsedMs) == NatToString(s / 31536000) + "y ago"
        || Utils.TimeAgoText(elapsedMs) == NatToString(s / 2592000) + "mo ago"
    ensures var s := elapsedMs / 1000;
      !IsQuiet(elapsedMs) ==> forall k: nat | Utils.Picks(s, k) :: k > 0
  {
    IsQuietExact(elapsedMs);
    Utils.TimeAgoSpec(elapsedMs);
    var s := elapsedMs / 1000;
    if IsQuiet(elapsedMs) {
      assert s >= 5184000;
      var k: nat :| Utils.Picks(s, k);
      assert Utils.Intervals[1].1 == 2592000;
      assert k <= 1;
      assert "y" + " ago" == "y ago";
      assert "mo" + " ago" == "mo ago";
    }
  }

  /** The work is small enough to show a count of it. */
  predicate ShowInProgress(openPrs: nat, openIssues: nat) {
    openPrs <= InProgressPrMax && openIssues <= InProgressIssuesMax
  }

  function StatusLabel(quiet: bool): string {
    if quiet then "Quiet" else "Active"
  }

  function InProgressText(openPrs: nat): string {
    if openPrs == 1 then "1 in progress" else NatToString(openPrs) + " in progress"
  }

  function DiscussionText(openIssues: nat): string {
    if openIssues == 1 then "1 discussion" else NatToString(openIssues) + " discussions"
  }

  /** The text after the counts: a recognised `timeAgo` text gets a prefix, anything else is kept. */
  function ActivityText(ago: string): string {
    if ago == "just now" || EndsWith(ago, " ago") then "Last activity " + ago else ago
  }

  /** The count shown between the label and the activity text, if any. */
  function CountParts(openPrs: nat, openIssues: nat): seq<string> {
    var show := ShowInProgress(openPrs, openIssues);
    (if show && openPrs > 0 then [InProgressText(openPrs)] else [])
    + (if show && openIssues > 0 && openPrs == 0 then [DiscussionText(openIssues)] else [])
  }

  /** The parts `buildStatusParts` returns, as one expression. */
  function StatusParts(elapsedMs: int, openPrs: nat, openIssues: nat): seq<string> {
    [StatusLabel(IsQuiet(elapsedMs))] + CountParts(openPrs, openIssues) + [ActivityText(Utils.TimeAgoText(elapsedMs))]
  }

  /** `buildStatusParts`: start from the label and push each part that applies. */
  method BuildStatusParts(elapsedMs: int, openPrs: nat, openIssues: nat) returns (parts: seq<string>)
    ensures parts == StatusParts(elapsedMs, openPrs, openIssues)
  {
    var ago := Utils.TimeAgo(elapsedMs);
    var quiet := IsQuiet(elapsedMs);
    var show := openPrs <= InProgressPrMax && openIssues <= InProgressIssuesMax;
    var activity := ActivityText(ago);
    parts := [StatusLabel(quiet)];
    if show && openPrs > 0 {
      parts := parts + [InProgressText(openPrs)];
    }
    if show && openIssues > 0 && openPrs == 0 {
      parts := parts + [DiscussionText(openIssues)];
    }
    parts := parts + [activity];
  }

  // ---------------------------------------------------------------------
  // what the parts say
  // ---------------------------------------------------------------------

  /** A part that counts pull requests in progress. */
  predicate IsInProgressPart(part: string) {
    EndsWith(part, " in progress")
  }

  /** A part that counts open discussions. */
  predicate IsDiscussionPart(part: string) {
    EndsWith(part, " discussion") || EndsWith(part, " discussions")
  }

  /** Two strings with a common suffix agree on its characters, counted from the end. */
  lemma EndChar(s: string, p: string, k: nat)
    requires EndsWith(s, p) && k < |p|
    ensures s[|s| - 1 - k] == p[|p| - 1 - k]
  {
    assert s[|s| - |p|..][|p| - 1 - k] == s[|s| - 1 - k];
  }

  /** The last character of an in-progress part, of a discussion part, and the one before it. */
  lemma PartEnds(part: string)
    ensures IsInProgressPart(part) ==> part[|part| - 1] == 's' && part[|part| - 2] == 's'
    ensures EndsWith(part, " discussion") ==> part[|part| - 1] == 'n'
    ensures EndsWith(part, " discussions") ==> part[|part| - 1] == 's' && part[|part| - 2] == 'n'
  {
    if IsInProgressPart(part) {
      EndChar(part, " in progress", 0);
      EndChar(part, " in progress", 1);
    }
    if EndsWith(part, " discussion") {
      EndChar(part, " discussion", 0);
    }
    if EndsWith(part, " discussions") {
      EndChar(part, " discussions", 0);
      EndChar(part, " discussions", 1);
    }
  }

  /** An in-progress part is never a discussion part. */
  lemma PartsDiffer(part: string)
    ensures !(IsInProgressPart(part) && IsDiscussionPart(part))
  {
    PartEnds(part);
  }

  /** The label and the activity text are neither kind of count. */
  lemma OtherPartsUncounted(quiet: bool, elapsedMs: int)
    ensures !IsInProgressPart(StatusLabel(quiet)) && !IsDiscussionPart(StatusLabel(quiet))
    ensures var t := ActivityText(Utils.TimeAgoText(elapsedMs));
      !IsInProgressPart(t) && !IsDiscussionPart(t)
  {
    var ago := Utils.TimeAgoText(elapsedMs);
    Utils.TimeAgoShape(elapsedMs);
    var t := ActivityText(ago);
    assert t == "Last activity " + ago;
    assert EndsWith(t, ago);
    if ago == "just now" {
      EndChar(t, ago, 0);
      assert t[|t| - 1] == 'w';
    } else {
      EndsWithSuffix(t, ago, "");
      assert EndsWith(t, " ago") by {
        assert t[|t| - |ago|..] == ago;
        assert t[|t| - 4..] == ago[|ago| - 4..];
      }
      EndChar(t, " ago", 0);
      assert t[|t| - 1] == 'o';
    }
    PartEnds(t);
    PartEnds(StatusLabel(quiet));
  }

  /** The fall-back branch of the activity text is never taken: the text always carries the prefix. */
  lemma ActivityPrefixed(elapsedMs: int)
    ensures ActivityText(Utils.TimeAgoText(elapsedMs)) == "Last activity " + Utils.TimeAgoText(elapsedMs)
    ensures StartsWith(ActivityText(Utils.TimeAgoText(elapsedMs)), "Last activity ")
  {
    Utils.TimeAgoShape(elapsedMs);
    ContainsPrefix("Last activity ", Utils.TimeAgoText(elapsedMs));
  }

  /** The label comes first, the prefixed activity text last, with at most one count between. */
  lemma StatusPartsShape(elapsedMs: int, openPrs: nat, openIssues: nat)
    ensures var p := StatusParts(elapsedMs, openPrs, openIssues);
      && 2 <= |p| <= 3
      && p[0] == (if IsQuiet(elapsedMs) then "Quiet" else "Active")
      && p[|p| - 1] == "Last activity " + Utils.TimeAgoText(elapsedMs)
  {
    ActivityPrefixed(elapsedMs);
  }

  /** The count texts are the kinds of part they stand for. */
  lemma CountTextKinds(openPrs: nat, openIssues: nat)
    ensures IsInProgressPart(InProgressText(openPrs))
    ensures IsDiscussionPart(DiscussionText(openIssues))
  {
    if openPrs == 1 {
      assert "1 in progress" == "1" + " in progress";
    }
    assert EndsWith(NatToString(openPrs) + " in progress", " in progress");
    if openIssues == 1 {
      assert "1 discussion" == "1" + " discussion";
      assert EndsWith("1" + " discussion", " discussion");
    }
    assert EndsWith(NatToString(openIssues) + " discussions", " discussions");
  }

  /** A kind of part that neither end has occurs in the whole exactly when it occurs in the middle. */
  lemma KindsInMiddle(p: seq<string>, first: string, mid: seq<string>, last: string, kind: string -> bool)
    requires p == [first] + mid + [last] && !kind(first) && !kind(last)
    ensures (exists i :: 0 <= i < |p| && kind(p[i])) <==> (exists j :: 0 <= j < |mid| && kind(mid[j]))
  {
    if exists i :: 0 <= i < |p| && kind(p[i]) {
      var i :| 0 <= i < |p| && kind(p[i]);
      assert mid[i - 1] == p[i];
    }
    if exists j :: 0 <= j < |mid| && kind(mid[j]) {
      var j :| 0 <= j < |mid| && kind(mid[j]);
      assert p[j + 1] == mid[j];
    }
  }

  /** The middle holds the in-progress text, the discussion text or nothing, as the counts decide. */
  lemma CountPartsCases(openPrs: nat, openIssues: nat)
    ensures ShowInProgress(openPrs, openIssues) && openPrs > 0 ==> CountParts(openPrs, openIssues) == [InProgressText(openPrs)]
    ensures ShowInProgress(openPrs, openIssues) && openPrs == 0 && openIssues > 0 ==>
      CountParts(openPrs, openIssues) == [DiscussionText(openIssues)]
    ensures !(ShowInProgress(openPrs, openIssues) && (openPrs > 0 || openIssues > 0)) ==> CountParts(openPrs, openIssues) == []
  {
  }

  /** The middle as the whole sees it: its one element, if any, is the second part. */
  lemma MiddleIsSecond(elapsedMs: int, openPrs: nat, openIssues: nat)
    ensures var p := StatusParts(elapsedMs, openPrs, openIssues);
      |CountParts(openPrs, openIssues)| == 1 ==> p[1] == CountParts(openPrs, openIssues)[0]
  {
  }

  /**
   * An in-progress part appears exactly when the work is small and some pull
   * request is open. The singular text for one pull request, "1 in
   * progress", is the one the plural template would give as well.
   */
  lemma InProgressSpec(elapsedMs: int, openPrs: nat, openIssues: nat)
    ensures var p := StatusParts(elapsedMs, openPrs, openIssues);
      (exists i :: 0 <= i < |p| && IsInProgressPart(p[i]))
        <==> openPrs <= 10 && openIssues <= 20 && openPrs > 0
    ensures var p := StatusParts(elapsedMs, openPrs, openIssues);
      openPrs <= 10 && openIssues <= 20 && openPrs > 0 ==>
        p[1] == (if openPrs == 1 then "1 in progress" else NatToString(openPrs) + " in progress")
  {
    var p := StatusParts(elapsedMs, openPrs, openIssues);
    var mid := CountParts(openPrs, openIssues);
    OtherPartsUncounted(IsQuiet(elapsedMs), elapsedMs);
    KindsInMiddle(p, StatusLabel(IsQuiet(elapsedMs)), mid, ActivityText(Utils.TimeAgoText(elapsedMs)), IsInProgressPart);
    CountTextKinds(openPrs, openIssues);
    PartsDiffer(DiscussionText(openIssues));
    CountPartsCases(openPrs, openIssues);
    MiddleIsSecond(elapsedMs, openPrs, openIssues);
    if openPrs <= 10 && openIssues <= 20 && openPrs > 0 {
      assert IsInProgressPart(mid[0]);
    }
  }

  /** A discussion part appears exactly when the work is small, no pull request is open and some issue is. */
  lemma DiscussionSpec(elapsedMs: int, openPrs: nat, openIssues: nat)
    ensures var p := StatusParts(elapsedMs, openPrs, openIssues);
      (exists i :: 0 <= i < |p| && IsDiscussionPart(p[i]))
        <==> openPrs <= 10 && openIssues <= 20 && openPrs == 0 && openIssues > 0
    ensures var p := StatusParts(elapsedMs, openPrs, openIssues);
      openPrs <= 10 && openIssues <= 20 && openPrs == 0 && openIssues > 0 ==>
        p[1] == (if openIssues == 1 then "1 discussion" else NatToString(openIssues) + " discussions")
  {
    var p := StatusParts(elapsedMs, openPrs, openIssues);
    var mid := CountParts(openPrs, openIssues);
    OtherPartsUncounted(IsQuiet(elapsedMs), elapsedMs);
    KindsInMiddle(p, StatusLabel(IsQuiet(elapsedMs)), mid, ActivityText(Utils.TimeAgoText(elapsedMs)), IsDiscussionPart);
    CountTextKinds(openPrs, openIssues);
    PartsDiffer(InProgressText(openPrs));
    CountPartsCases(openPrs, openIssues);
    MiddleIsSecond(elapsedMs, openPrs, openIssues);
    if openPrs <= 10 && openIssues <= 20 && openPrs == 0 && openIssues > 0 {
      assert IsDiscussionPart(mid[0]);
    }
  }

  /** The two kinds of count are never shown together. */
  lemma CountsExclusive(elapsedMs: int, openPrs: nat, openIssues: nat)
    ensures var p := StatusParts(elapsedMs, openPrs, openIssues);
      !((exists i :: 0 <= i < |p| && IsInProgressPart(p[i])) && (exists j :: 0 <= j < |p| && IsDiscussionPart(p[j])))
  {
    InProgressSpec(elapsedMs, openPrs, openIssues);
    DiscussionSpec(elapsedMs, openPrs, openIssues);
  }
}
