/**
 * The reaction-to-preference reducer (lib/rlhf/reaction-analyzer.js): thumbs-up/down counts
 * on posted comments become liked, disliked and neutral entries, and a short summary text.
 */
module ReactionAnalyzer {
  import opened Wrappers
  import Seqs
  import StableSort
  import opened Text

  /** A comment with its reaction tally, keyed by reaction kind (`"+1"`, `"-1"`, `"heart"`, ...). */
  datatype Comment = Comment(body: string, url: string, reactions: map<string, nat>)
  datatype Issue = Issue(title: string, comments: seq<Comment>)
  datatype Entry = Entry(content: string, url: string, score: int, upvotes: nat, downvotes: nat, issueTitle: string)
  datatype Preferences = Preferences(liked: seq<Entry>, disliked: seq<Entry>, neutral: seq<Entry>)

  /** `comment.reactions[kind] || 0`. */
  function Count(reactions: map<string, nat>, kind: string): nat {
    if kind in reactions then reactions[kind] else 0
  }

  const UpKind := "+1"
  const DownKind := "-1"
  /** The entry built for one comment of one issue. */
  function EntryFor(issue: Issue, c: Comment): Entry {
    var up := Count(c.reactions, UpKind);
    var down := Count(c.reactions, DownKind);
    Entry(c.body, c.url, up - down, up, down, issue.title)
  }

  /** Entries of the first `n` comments of `issue`, in order. */
  function IssueEntries(issue: Issue, n: nat): seq<Entry>
    requires n <= |issue.comments|
    decreases n
  {
    if n == 0 then [] else IssueEntries(issue, n - 1) + [EntryFor(issue, issue.comments[n - 1])]
  }

  /** One entry per comment, issue by issue and comment by comment. */
  function Entries(issues: seq<Issue>): seq<Entry>
    decreases |issues|
  {
    if issues == [] then []
    else
      var last := issues[|issues| - 1];
      Entries(issues[..|issues| - 1]) + IssueEntries(last, |last.comments|)
  }

  predicate IsLiked(e: Entry) { e.score > 0 }
  predicate IsDisliked(e: Entry) { e.score < 0 }
  predicate IsNeutral(e: Entry) { e.score == 0 && (e.upvotes > 0 || e.downvotes > 0) }
  predicate HasVotes(e: Entry) { e.upvotes > 0 || e.downvotes > 0 }
  /** An entry's score is its net vote. */
  predicate WellFormed(e: Entry) { e.score == e.upvotes - e.downvotes }

  /** Sort key of `(a, b) => b.score - a.score`. */
  function Score(e: Entry): int { e.score }
  /** Sort key of `(a, b) => a.score - b.score`. */
  function NegScore(e: Entry): int { -e.score }

  /** What `analyzeReactions` returns. */
  function Analyze(issues: seq<Issue>): (p: Preferences)
    ensures StableSort.SortedDesc(p.liked, Score) && StableSort.SortedDesc(p.disliked, NegScore)
    ensures forall i :: 0 <= i < |p.neutral| ==> IsNeutral(p.neutral[i])
  {
    var all := Entries(issues);
    Preferences(
      StableSort.SortDesc(Seqs.Filter(all, IsLiked), Score),
      StableSort.SortDesc(Seqs.Filter(all, IsDisliked), NegScore),
      Seqs.Filter(all, IsNeutral))
  }

  /** `analyzeReactions`: route every comment's entry into one of three lists, then sort two of them. */
  method AnalyzeReactions(issues: seq<Issue>) returns (p: Preferences)
    ensures p == Analyze(issues)
  {
    var liked: seq<Entry> := [];
    var disliked: seq<Entry> := [];
    var neutral: seq<Entry> := [];
    ghost var seen: seq<Entry> := [];
    for i := 0 to |issues|
      invariant seen == Entries(issues[..i])
      invariant liked == Seqs.Filter(seen, IsLiked)
      invariant disliked == Seqs.Filter(seen, IsDisliked)
      invariant neutral == Seqs.Filter(seen, IsNeutral)
    {
      var issue := issues[i];
      liked, disliked, neutral := RouteComments(issue, liked, disliked, neutral);
      Seqs.FilterConcat(seen, IssueEntries(issue, |issue.comments|), IsLiked);
      Seqs.FilterConcat(seen, IssueEntries(issue, |issue.comments|), IsDisliked);
      Seqs.FilterConcat(seen, IssueEntries(issue, |issue.comments|), IsNeutral);
      seen := seen + IssueEntries(issue, |issue.comments|);
      assert issues[..i + 1][..i] == issues[..i];
    }
    assert issues[..|issues|] == issues;
    liked := StableSort.SortDesc(liked, Score);
    disliked := StableSort.SortDesc(disliked, NegScore);
    p := Preferences(liked, disliked, neutral);
  }

  /** The inner loop of `analyzeReactions`: one issue's comments appended, routed by net vote. */
  method RouteComments(issue: Issue, liked0: seq<Entry>, disliked0: seq<Entry>, neutral0: seq<Entry>)
    returns (liked: seq<Entry>, disliked: seq<Entry>, neutral: seq<Entry>)
    ensures liked == liked0 + Seqs.Filter(IssueEntries(issue, |issue.comments|), IsLiked)
    ensures disliked == disliked0 + Seqs.Filter(IssueEntries(issue, |issue.comments|), IsDisliked)
    ensures neutral == neutral0 + Seqs.Filter(IssueEntries(issue, |issue.comments|), IsNeutral)
  {
    liked, disliked, neutral := liked0, disliked0, neutral0;
    for j := 0 to |issue.comments|
      invariant liked == liked0 + Seqs.Filter(IssueEntries(issue, j), IsLiked)
      invariant disliked == disliked0 + Seqs.Filter(IssueEntries(issue, j), IsDisliked)
      invariant neutral == neutral0 + Seqs.Filter(IssueEntries(issue, j), IsNeutral)
    {
      var comment := issue.comments[j];
      var entry := EntryFor(issue, comment);
      var upvotes, downvotes, sentiment := entry.upvotes, entry.downvotes, entry.score;
      ghost var before := IssueEntries(issue, j);
      RouteStep(liked0, liked, before, entry, IsLiked);
      RouteStep(disliked0, disliked, before, entry, IsDisliked);
      RouteStep(neutral0, neutral, before, entry, IsNeutral);
      if sentiment > 0 {
        liked := liked + [entry];
      } else if sentiment < 0 {
        disliked := disliked + [entry];
      } else if upvotes > 0 || downvotes > 0 {
        neutral := neutral + [entry];
      }
    }
  }

  /** One routing step keeps an accumulator equal to its start plus the filtered entries so far. */
  lemma RouteStep(acc0: seq<Entry>, acc: seq<Entry>, before: seq<Entry>, e: Entry, p: Entry -> bool)
    requires acc == acc0 + Seqs.Filter(before, p)
    ensures (if p(e) then acc + [e] else acc) == acc0 + Seqs.Filter(before + [e], p)
  {
    Seqs.FilterAppend(before, e, p);
    Seqs.AppendAssoc(acc0, Seqs.Filter(before, p), [e]);
  }

  /** Every entry comes from one comment: its body, URL, net vote and its issue's title. */
  lemma {:induction false} EntriesOrigin(issues: seq<Issue>)
    ensures forall e :: e in Entries(issues) ==>
      WellFormed(e) && exists i, j :: 0 <= i < |issues| && 0 <= j < |issues[i].comments| && e == EntryFor(issues[i], issues[i].comments[j])
    decreases |issues|
  {
    if issues != [] {
      var n := |issues| - 1;
      EntriesOrigin(issues[..n]);
      forall e | e in Entries(issues)
        ensures WellFormed(e) && exists i, j :: 0 <= i < |issues| && 0 <= j < |issues[i].comments| && e == EntryFor(issues[i], issues[i].comments[j])
      {
        if e in Entries(issues[..n]) {
          var i, j :| 0 <= i < |issues[..n]| && 0 <= j < |issues[..n][i].comments| && e == EntryFor(issues[..n][i], issues[..n][i].comments[j]);
          assert issues[..n][i] == issues[i];
        } else {
          IssueEntriesOrigin(issues[n], |issues[n].comments|, e);
        }
      }
    }
  }

  lemma {:induction false} IssueEntriesOrigin(issue: Issue, k: nat, e: Entry)
    requires k <= |issue.comments|
    requires e in IssueEntries(issue, k)
    ensures WellFormed(e) && exists j :: 0 <= j < k && e == EntryFor(issue, issue.comments[j])
    decreases k
  {
    if e != EntryFor(issue, issue.comments[k - 1]) {
      IssueEntriesOrigin(issue, k - 1, e);
    }
  }

  /** Liked, disliked, neutral and dropped split any sequence of well-formed entries. */
  lemma {:induction false} PartitionCount(s: seq<Entry>)
    requires forall e :: e in s ==> WellFormed(e)
    ensures |Seqs.Filter(s, IsLiked)| + |Seqs.Filter(s, IsDisliked)| + |Seqs.Filter(s, IsNeutral)|
         == |Seqs.Filter(s, HasVotes)|
    decreases |s|
  {
    if s != [] {
      var s' := s[..|s| - 1];
      assert forall e :: e in s' ==> e in s;
      PartitionCount(s');
      assert WellFormed(s[|s| - 1]);
    }
  }

  /**
   * Partition completeness: the three lists together hold exactly one entry per comment that
   * has at least one `+1` or `-1` reaction; comments with only other reactions are dropped.
   */
  lemma AnalyzePartition(issues: seq<Issue>)
    ensures var p := Analyze(issues);
      |p.liked| + |p.disliked| + |p.neutral| == |Seqs.Filter(Entries(issues), HasVotes)|
  {
    var all := Entries(issues);
    EntriesOrigin(issues);
    PartitionCount(all);
    var p := Analyze(issues);
    assert |p.liked| == |multiset(p.liked)| == |Seqs.Filter(all, IsLiked)|;
    assert |p.disliked| == |multiset(p.disliked)| == |Seqs.Filter(all, IsDisliked)|;
  }

  /**
   * Each list holds exactly the entries of its class, as many times as they occur:
   * positive scores in `liked`, negative in `disliked`, zero with some vote in `neutral`.
   */
  lemma AnalyzeRouting(issues: seq<Issue>)
    ensures var p, all := Analyze(issues), Entries(issues);
      && (forall e :: multiset(p.liked)[e] == if e.score > 0 then multiset(all)[e] else 0)
      && (forall e :: multiset(p.disliked)[e] == if e.score < 0 then multiset(all)[e] else 0)
      && (forall e :: multiset(p.neutral)[e] == if IsNeutral(e) then multiset(all)[e] else 0)
  {
    var all := Entries(issues);
    Seqs.FilterMultiset(all, IsLiked);
    Seqs.FilterMultiset(all, IsDisliked);
    Seqs.FilterMultiset(all, IsNeutral);
  }

  /**
   * `liked` is ordered by descending score and `disliked` by ascending score, each a
   * permutation of its unsorted list.
   */
  lemma AnalyzeSorted(issues: seq<Issue>)
    ensures var p, all := Analyze(issues), Entries(issues);
      && (forall i, j :: 0 <= i < j < |p.liked| ==> p.liked[i].score >= p.liked[j].score)
      && (forall i, j :: 0 <= i < j < |p.disliked| ==> p.disliked[i].score <= p.disliked[j].score)
      && multiset(p.liked) == multiset(Seqs.Filter(all, IsLiked))
      && multiset(p.disliked) == multiset(Seqs.Filter(all, IsDisliked))
  {
    var p := Analyze(issues);
    assert StableSort.SortedDesc(p.disliked, NegScore);
    forall i, j | 0 <= i < j < |p.disliked|
      ensures p.disliked[i].score <= p.disliked[j].score
    {
      assert NegScore(p.disliked[i]) >= NegScore(p.disliked[j]);
    }
  }

  /**
   * Ties keep their input order: among entries of equal score, `liked` and `disliked` list
   * them as the comments came; `neutral` keeps the issue-then-comment order outright.
   */
  lemma AnalyzeStable(issues: seq<Issue>, k: int)
    ensures var p, all := Analyze(issues), Entries(issues);
      && StableSort.WithKey(p.liked, Score, k) == StableSort.WithKey(Seqs.Filter(all, IsLiked), Score, k)
      && StableSort.WithKey(p.disliked, NegScore, k) == StableSort.WithKey(Seqs.Filter(all, IsDisliked), NegScore, k)
      && Seqs.IsSubsequence(Analyze(issues).neutral, all)
  {
    var all := Entries(issues);
    StableSort.SortDescStable(Seqs.Filter(all, IsLiked), Score, k);
    StableSort.SortDescStable(Seqs.Filter(all, IsDisliked), NegScore, k);
    Seqs.FilterIsSubsequence(all, IsNeutral);
  }

  /** The summary's fixed first line. */
  const SummaryTitle := "# RLHF Preference Summary\n\n"
  /** `.slice(0, 5)`: the summary lists at most five entries per section. */
  const SummaryLimit := 5

  /** One summary item: signed score, issue title, then the comment URL. */
  function SummaryItem(e: Entry, sign: string): string {
    "- [" + sign + IntToString(e.score) + "] " + e.issueTitle + "\n" + "  " + e.url + "\n\n"
  }

  function SummaryItems(items: seq<Entry>, sign: string): string
    decreases |items|
  {
    if items == [] then []
    else SummaryItems(items[..|items| - 1], sign) + SummaryItem(items[|items| - 1], sign)
  }

  /** Section headings; the list's full length follows each. */
  const LikedHeading := "## Highly Valued Signals (+"
  const DislikedHeading := "## Low Value Signals (-"

  /** A summary section: omitted when the list is empty, else a header showing the list's full length. */
  function SummarySection(heading: string, sign: string, items: seq<Entry>): string {
    if |items| == 0 then []
    else heading + NatToString(|items|) + ")\n\n" + SummaryItems(Seqs.Take(items, SummaryLimit), sign)
  }

  /** The text `generatePreferenceSummary` returns. */
  function PreferenceSummary(p: Preferences): string {
    SummaryTitle
    + SummarySection(LikedHeading, "+", p.liked)
    + SummarySection(DislikedHeading, "", p.disliked)
  }

  /** `generatePreferenceSummary`: appends the title and then each section with `+=`. */
  method GeneratePreferenceSummary(p: Preferences) returns (summary: string)
    ensures summary == PreferenceSummary(p)
  {
    summary := SummaryTitle;
    summary := AppendSummarySection(summary, LikedHeading, "+", p.liked);
    summary := AppendSummarySection(summary, DislikedHeading, "", p.disliked);
  }

  /** One `if (list.length > 0) { ... }` block of `generatePreferenceSummary`. */
  method AppendSummarySection(start: string, heading: string, sign: string, items: seq<Entry>) returns (text: string)
    ensures text == start + SummarySection(heading, sign, items)
  {
    text := start;
    if |items| > 0 {
      text := text + heading + NatToString(|items|) + ")\n\n";
      text := AppendSummaryItems(text, Seqs.Take(items, SummaryLimit), sign);
    }
  }

  /** The `forEach` of one summary section. */
  method AppendSummaryItems(start: string, items: seq<Entry>, sign: string) returns (text: string)
    ensures text == start + SummaryItems(items, sign)
  {
    text := start;
    for i := 0 to |items|
      invariant text == start + SummaryItems(items[..i], sign)
    {
      assert items[..i + 1][..i] == items[..i];
      var block := SummaryItem(items[i], sign);
      Seqs.AppendAssoc(start, SummaryItems(items[..i], sign), block);
      text := text + block;
    }
    assert items[..|items|] == items;
  }

  /** The item text of a section is the concatenation of one block per listed entry, in order. */
  lemma {:induction false} SummaryItemsBlocks(items: seq<Entry>, sign: string)
    ensures SummaryItems(items, sign) == Concat(seq(|items|, k requires 0 <= k < |items| => SummaryItem(items[k], sign)))
    decreases |items|
  {
    if items != [] {
      var n := |items| - 1;
      SummaryItemsBlocks(items[..n], sign);
      var blocks := seq(|items|, k requires 0 <= k < |items| => SummaryItem(items[k], sign));
      assert blocks[..n] == seq(n, k requires 0 <= k < n => SummaryItem(items[..n][k], sign));
    }
  }

  /**
   * The summary lists at most five entries per section (entries past the fifth only change the
   * header's count), and with nothing liked or disliked it is the title line alone.
   */
  lemma SummaryShowsFirstFive(p: Preferences, q: Preferences)
    requires |p.liked| == |q.liked| && Seqs.Take(p.liked, SummaryLimit) == Seqs.Take(q.liked, SummaryLimit)
    requires |p.disliked| == |q.disliked| && Seqs.Take(p.disliked, SummaryLimit) == Seqs.Take(q.disliked, SummaryLimit)
    ensures PreferenceSummary(p) == PreferenceSummary(q)
    ensures p.liked == [] && p.disliked == [] ==> PreferenceSummary(p) == SummaryTitle
  {
  }
}
