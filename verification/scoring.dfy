/**
 * Scoring and ranking of people-watcher candidates (lib/people-watcher/scoring.js): a linear
 * activity score, an in-place stable sort by descending score, and the Markdown report of the
 * first twenty candidates.
 */
module Scoring {
  import Seqs
  import opened Text
  import StableSort
  import opened ContributorDiscovery

  /** A contributor together with the `score` a caller has set on it. */
  datatype Candidate = Candidate(contributor: Contributor, score: int)

  /** `scoreCandidate`: two points per contribution plus ten per repository. */
  function ScoreCandidate(c: Contributor): (score: int)
    ensures score % 2 == 0
    ensures c.contributions >= 0 ==> score >= 10 * |c.repos|
  {
    c.contributions * 2 + |c.repos| * 10
  }

  /** One more sighting adds twice its contributions plus ten for the repository. */
  lemma ScoreAdded(e: Contributor, x: Sighting)
    ensures ScoreCandidate(Added(e, x)) == ScoreCandidate(e) + 2 * x.who.contributions + 10
  {
  }

  /** The score is monotone: one more contribution adds 2, one more repository adds 10. */
  lemma ScoreMonotone(c: Contributor, repo: string)
    ensures ScoreCandidate(c.(contributions := c.contributions + 1)) == ScoreCandidate(c) + 2
    ensures ScoreCandidate(c.(repos := c.repos + [repo])) == ScoreCandidate(c) + 10
  {
  }

  function SightingScore(x: Sighting): int {
    2 * x.who.contributions + 10
  }

  /** The score of an aggregated contributor: each listing naming it adds ten plus twice its contributions there. */
  lemma {:induction false} ScoreOfEntry(s: seq<Sighting>, login: string)
    requires Of(s, login) != []
    ensures ScoreCandidate(EntryFor(s, login)) == Seqs.Sum(Of(s, login), SightingScore)
  {
    ScoreOfSightings(Of(s, login));
  }

  lemma {:induction false} ScoreOfSightings(mine: seq<Sighting>)
    ensures 2 * Seqs.Sum(mine, SightingContributions) + 10 * |RepoList(mine)| == Seqs.Sum(mine, SightingScore)
    decreases |mine|
  {
    if mine != [] {
      ScoreOfSightings(mine[..|mine| - 1]);
    }
  }

  // ---------------------------------------------------------------------------------------------
  // Ranking

  function ScoreOf(c: Candidate): int {
    c.score
  }

  /** `rankCandidates`: `candidates.sort((a, b) => b.score - a.score)`, which sorts in place and returns the array. */
  method RankCandidates(candidates: array<Candidate>) returns (ranked: array<Candidate>)
    modifies candidates
    ensures ranked == candidates
    ensures candidates[..] == StableSort.SortDesc(old(candidates[..]), ScoreOf)
  {
    var sorted := StableSort.SortDesc(candidates[..], ScoreOf);
    RankingLength(candidates[..]);
    CopyInto(candidates, sorted);
    ranked := candidates;
  }

  lemma RankingLength(s: seq<Candidate>)
    ensures |StableSort.SortDesc(s, ScoreOf)| == |s|
  {
    assert |multiset(StableSort.SortDesc(s, ScoreOf))| == |multiset(s)|;
  }

  /** Overwrites the array with `values`, element by element. */
  method CopyInto(a: array<Candidate>, values: seq<Candidate>)
    requires |values| == a.Length
    modifies a
    ensures a[..] == values
  {
    for i := 0 to a.Length
      invariant a[..i] == values[..i]
    {
      a[i] := values[i];
    }
  }

  /**
   * The ranking is a permutation, sorted by non-increasing score, keeping the input order of
   * candidates with equal scores; and it is the only sequence with those properties.
   */
  lemma RankingMeaning(s: seq<Candidate>)
    ensures var r := StableSort.SortDesc(s, ScoreOf);
      && multiset(r) == multiset(s)
      && (forall i, j :: 0 <= i < j < |r| ==> r[i].score >= r[j].score)
      && forall k :: StableSort.WithKey(r, ScoreOf, k) == StableSort.WithKey(s, ScoreOf, k)
  {
    var r := StableSort.SortDesc(s, ScoreOf);
    forall i, j | 0 <= i < j < |r|
      ensures r[i].score >= r[j].score
    {
      assert ScoreOf(r[i]) >= ScoreOf(r[j]);
    }
    forall k
      ensures StableSort.WithKey(r, ScoreOf, k) == StableSort.WithKey(s, ScoreOf, k)
    {
      StableSort.SortDescStable(s, ScoreOf, k);
    }
  }

  /** Any order that is sorted by non-increasing score and stable is the ranking. */
  lemma RankingUnique(s: seq<Candidate>, r: seq<Candidate>)
    requires forall i, j :: 0 <= i < j < |r| ==> r[i].score >= r[j].score
    requires forall k :: StableSort.WithKey(r, ScoreOf, k) == StableSort.WithKey(s, ScoreOf, k)
    ensures r == StableSort.SortDesc(s, ScoreOf)
  {
    assert StableSort.SortedDesc(r, ScoreOf) by {
      forall i, j | 0 <= i < j < |r|
        ensures ScoreOf(r[i]) >= ScoreOf(r[j])
      {
      }
    }
    StableSort.SortDescUnique(s, r, ScoreOf);
  }

  // ---------------------------------------------------------------------------------------------
  // The Markdown report

  /** The number of candidates the report lists. */
  const SectionLimit := 20

  const Title := "# People Watcher Candidates\n\n"
  const ListHeading := "## Top Contributors\n\n"

  /** The line stating when the report was made; `timestamp` is the ISO-8601 time. */
  function UpdatedLine(timestamp: string): string {
    "*Last updated: " + timestamp + "*\n\n"
  }

  /** The report's heading, its timestamp line and the list heading. */
  function Header(timestamp: string): string {
    Title + UpdatedLine(timestamp) + ListHeading
  }

  function HeadingLine(c: Candidate): string {
    "### " + c.contributor.username + " (Score: " + IntToString(c.score) + ")\n\n"
  }

  function ContributionsLine(c: Candidate): string {
    "- **Contributions:** " + IntToString(c.contributor.contributions) + "\n"
  }

  function RepositoriesLine(c: Candidate): string {
    "- **Repositories:** " + Join(c.contributor.repos, ", ") + "\n"
  }

  function ProfileLine(c: Candidate): string {
    "- **GitHub:** " + c.contributor.htmlUrl + "\n\n"
  }

  /** The section of one candidate: heading with score, contributions, repositories, profile link. */
  function CandidateSection(c: Candidate): string {
    HeadingLine(c) + ContributionsLine(c) + RepositoriesLine(c) + ProfileLine(c)
  }

  /** The sections of `cs`, in order. */
  function Sections(cs: seq<Candidate>): string
    decreases |cs|
  {
    if cs == [] then [] else Sections(cs[..|cs| - 1]) + CandidateSection(cs[|cs| - 1])
  }

  /** What `formatCandidateMarkdown` returns when the clock reads `timestamp`. */
  function CandidateMarkdown(candidates: seq<Candidate>, timestamp: string): (markdown: string)
    ensures StartsWith(markdown, Header(timestamp))
    ensures candidates == [] ==> markdown == Header(timestamp)
  {
    Header(timestamp) + Sections(Seqs.Take(candidates, SectionLimit))
  }

  /** `formatCandidateMarkdown`: the header, then one section per candidate among the first twenty. */
  method FormatCandidateMarkdown(candidates: seq<Candidate>, timestamp: string) returns (markdown: string)
    ensures markdown == CandidateMarkdown(candidates, timestamp)
  {
    markdown := Title;
    markdown := markdown + UpdatedLine(timestamp);
    markdown := markdown + ListHeading;
    markdown := AppendSections(markdown, Seqs.Take(candidates, SectionLimit));
  }

  /** The `for (const candidate of candidates.slice(0, 20))` loop. */
  method AppendSections(start: string, shown: seq<Candidate>) returns (markdown: string)
    ensures markdown == start + Sections(shown)
  {
    markdown := start;
    for i := 0 to |shown|
      invariant markdown == start + Sections(shown[..i])
    {
      SectionsStep(start, shown, i);
      markdown := AppendSection(markdown, shown[i]);
    }
    assert shown[..|shown|] == shown;
  }

  lemma SectionsStep(start: string, shown: seq<Candidate>, i: nat)
    requires i < |shown|
    ensures start + Sections(shown[..i + 1]) == start + Sections(shown[..i]) + CandidateSection(shown[i])
  {
    assert shown[..i + 1][..i] == shown[..i];
    Seqs.AppendAssoc(start, Sections(shown[..i]), CandidateSection(shown[i]));
  }

  /** The four `+=` of one loop iteration. */
  method AppendSection(start: string, candidate: Candidate) returns (markdown: string)
    ensures markdown == start + CandidateSection(candidate)
  {
    markdown := start;
    markdown := markdown + HeadingLine(candidate);
    markdown := markdown + ContributionsLine(candidate);
    markdown := markdown + RepositoriesLine(candidate);
    Seqs.AppendAssoc(start, HeadingLine(candidate) + ContributionsLine(candidate), RepositoriesLine(candidate));
    Seqs.AppendAssoc(start, HeadingLine(candidate), ContributionsLine(candidate));
    markdown := markdown + ProfileLine(candidate);
    Seqs.AppendAssoc(start, HeadingLine(candidate) + ContributionsLine(candidate) + RepositoriesLine(candidate), ProfileLine(candidate));
  }

  /** The sections are the candidates' sections one after another, in list order. */
  lemma {:induction false} SectionsInOrder(cs: seq<Candidate>)
    ensures Sections(cs) == Concat(seq(|cs|, k requires 0 <= k < |cs| => CandidateSection(cs[k])))
    decreases |cs|
  {
    if cs != [] {
      var n := |cs| - 1;
      SectionsInOrder(cs[..n]);
      var parts := seq(|cs|, k requires 0 <= k < |cs| => CandidateSection(cs[k]));
      assert parts[..n] == seq(n, k requires 0 <= k < n => CandidateSection(cs[..n][k]));
    }
  }

  /** The report lists the first `min(20, |candidates|)` candidates, one section each, in list order. */
  lemma MarkdownSections(candidates: seq<Candidate>, timestamp: string)
    ensures var n := if |candidates| < SectionLimit then |candidates| else SectionLimit;
      CandidateMarkdown(candidates, timestamp)
        == Header(timestamp) + Concat(seq(n, k requires 0 <= k < n => CandidateSection(candidates[k])))
  {
    var shown := Seqs.Take(candidates, SectionLimit);
    SectionsInOrder(shown);
    assert seq(|shown|, k requires 0 <= k < |shown| => CandidateSection(shown[k]))
        == seq(|shown|, k requires 0 <= k < |shown| => CandidateSection(candidates[k]));
  }

  /** Below the cap, one more candidate appends its section. */
  lemma MarkdownAppend(candidates: seq<Candidate>, c: Candidate, timestamp: string)
    requires |candidates| < SectionLimit
    ensures CandidateMarkdown(candidates + [c], timestamp) == CandidateMarkdown(candidates, timestamp) + CandidateSection(c)
  {
    assert Seqs.Take(candidates, SectionLimit) == candidates;
    assert Seqs.Take(candidates + [c], SectionLimit) == candidates + [c];
    assert Sections(candidates + [c]) == Sections(candidates) + CandidateSection(c) by {
      assert (candidates + [c])[..|candidates|] == candidates;
    }
    Seqs.AppendAssoc(Header(timestamp), Sections(candidates), CandidateSection(c));
  }

  /** At the cap, further candidates change nothing. */
  lemma MarkdownCapped(candidates: seq<Candidate>, more: seq<Candidate>, timestamp: string)
    requires |candidates| >= SectionLimit
    ensures CandidateMarkdown(candidates + more, timestamp) == CandidateMarkdown(candidates, timestamp)
  {
    assert Seqs.Take(candidates + more, SectionLimit) == Seqs.Take(candidates, SectionLimit);
  }
}
