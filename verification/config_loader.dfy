/**
 * The sources-file parser (lib/shared/config-loader.js): a markdown file whose `##` headers
 * open sections and whose `- item` lines list GitHub repositories, Twitter accounts, Reddit
 * subreddits and people-watcher target repositories.
 */
module ConfigLoader {
  import opened Wrappers
  import opened Text
  import Seqs

  datatype Section = GitHubRepos | TwitterAccounts | RedditSubreddits | PeopleWatcherRepos

  /** The object `parseMarkdownSources` returns: one list per section, in file order. */
  datatype Sources = Sources(githubRepos: seq<string>, subreddits: seq<string>, twitterAccounts: seq<string>, peopleWatcherRepos: seq<string>)

  const NoSources := Sources([], [], [], [])

  const GitHubHeader := "## GitHub Repositories"
  const TwitterHeader := "## Twitter Accounts"
  const RedditHeader := "## Reddit Subreddits"
  const PeopleWatcherHeader := "## People Watcher Target Repos"

  /** What one line of the file is, once trimmed. */
  datatype LineKind =
    | Blank
    | Header(section: Option<Section>)   // a `##` line: a known section, or none
    | Comment                            // any other `#` line
    | Item(value: string)                // a `-` line, with the text after the dash trimmed
    | Other

  /** The branches of the loop body, in the order the code tests them. */
  function Classify(line: string): (k: LineKind)
    ensures k.Blank? <==> AllSpace(line)
    ensures k.Item? ==> k.value == Trim(Trim(line)[1..]) && Trim(line)[0] == '-'
  {
    var trimmed := Trim(line);
    if trimmed == [] then Blank
    else if StartsWith(trimmed, "#") then HashKind(trimmed)
    else if StartsWith(trimmed, "-") then Item(Trim(trimmed[1..]))
    else Other
  }

  /** Every header test the code makes first is passed only by a line starting with `#`. */
  lemma HeadersOpenWithHash(t: string)
    ensures (StartsWith(t, GitHubHeader) || StartsWith(t, TwitterHeader) || StartsWith(t, RedditHeader)
             || StartsWith(t, PeopleWatcherHeader) || StartsWith(t, "##"))
            ==> StartsWith(t, "#")
  {
    if StartsWith(t, GitHubHeader) { StartsWithLonger(t, GitHubHeader, "#"); }
    if StartsWith(t, TwitterHeader) { StartsWithLonger(t, TwitterHeader, "#"); }
    if StartsWith(t, RedditHeader) { StartsWithLonger(t, RedditHeader, "#"); }
    if StartsWith(t, PeopleWatcherHeader) { StartsWithLonger(t, PeopleWatcherHeader, "#"); }
    if StartsWith(t, "##") { StartsWithLonger(t, "##", "#"); }
  }

  /**
   * The `#` branches in the order the code tests them: the four known headers, any other `##`
   * line, then a comment. Every header starts with `#`, so testing `#` first changes nothing.
   */
  function HashKind(trimmed: string): (k: LineKind)
    ensures k.Header? || k.Comment?
  {
    if StartsWith(trimmed, GitHubHeader) then Header(Some(GitHubRepos))
    else if StartsWith(trimmed, TwitterHeader) then Header(Some(TwitterAccounts))
    else if StartsWith(trimmed, RedditHeader) then Header(Some(RedditSubreddits))
    else if StartsWith(trimmed, PeopleWatcherHeader) then Header(Some(PeopleWatcherRepos))
    else if StartsWith(trimmed, "##") then Header(None)
    else Comment
  }

  /** `s.replace(/^p/, "")`: one leading `prefix` removed, if there is one. */
  function StripPrefix(s: string, prefix: string): (r: string)
    ensures StartsWith(s, prefix) ==> prefix + r == s
    ensures !StartsWith(s, prefix) ==> r == s
  {
    if StartsWith(s, prefix) then s[|prefix|..] else s
  }

  /** The value stored for an item of a section: `@` and `r/` prefixes dropped, other sections verbatim. */
  function Normalize(section: Section, item: string): string {
    match section
    case TwitterAccounts => StripPrefix(item, "@")
    case RedditSubreddits => StripPrefix(item, "r/")
    case _ => item
  }

  // ---------------------------------------------------------------------------------------------
  // What the file means: each item belongs to the section of the last header above it

  /** The kind of every line, in order. */
  function Kinds(lines: seq<string>): (kinds: seq<LineKind>)
    ensures |kinds| == |lines|
    ensures forall j :: 0 <= j < |lines| ==> kinds[j] == Classify(lines[j])
  {
    Seqs.Map(lines, Classify)
  }

  lemma KindsExtend(lines: seq<string>, i: nat)
    requires i < |lines|
    ensures Kinds(lines[..i + 1]) == Kinds(lines[..i]) + [Classify(lines[i])]
  {
    Seqs.MapExtend(lines, Classify, i);
  }

  /** The section in effect after `kinds`: set by the last `##` line, none before any. */
  function SectionAfter(kinds: seq<LineKind>): Option<Section>
    decreases |kinds|
  {
    if kinds == [] then None
    else
      match kinds[|kinds| - 1]
      case Header(s) => s
      case _ => SectionAfter(kinds[..|kinds| - 1])
  }

  /** The items of `section`: every `-` line whose section in effect is `section`, normalized, in file order. */
  function ItemsOf(kinds: seq<LineKind>, section: Section): (items: seq<string>)
    ensures |items| <= |kinds|
    decreases |kinds|
  {
    if kinds == [] then []
    else
      var init := kinds[..|kinds| - 1];
      ItemsOf(init, section)
      + match kinds[|kinds| - 1]
        case Item(v) => if SectionAfter(init) == Some(section) then [Normalize(section, v)] else []
        case _ => []
  }

  function ParseKinds(kinds: seq<LineKind>): Sources {
    Sources(ItemsOf(kinds, GitHubRepos), ItemsOf(kinds, RedditSubreddits),
            ItemsOf(kinds, TwitterAccounts), ItemsOf(kinds, PeopleWatcherRepos))
  }

  /** What `parseMarkdownSources(content)` returns. */
  function Parse(content: string): (sources: Sources)
    ensures var n := |Split(content, '\n')|;
      |sources.githubRepos| <= n && |sources.subreddits| <= n && |sources.twitterAccounts| <= n && |sources.peopleWatcherRepos| <= n
  {
    ParseKinds(Kinds(Split(content, '\n')))
  }

  /** The list of `sources` that holds the items of `section`. */
  function ListOf(sources: Sources, section: Section): seq<string> {
    match section
    case GitHubRepos => sources.githubRepos
    case TwitterAccounts => sources.twitterAccounts
    case RedditSubreddits => sources.subreddits
    case PeopleWatcherRepos => sources.peopleWatcherRepos
  }

  /** `sources[section].push(item)`: one list grows by one item and the other three are unchanged. */
  function Push(sources: Sources, section: Section, item: string): (r: Sources)
    ensures ListOf(r, section) == ListOf(sources, section) + [item]
    ensures forall other :: other != section ==> ListOf(r, other) == ListOf(sources, other)
  {
    match section
    case GitHubRepos => sources.(githubRepos := sources.githubRepos + [item])
    case TwitterAccounts => sources.(twitterAccounts := sources.twitterAccounts + [item])
    case RedditSubreddits => sources.(subreddits := sources.subreddits + [item])
    case PeopleWatcherRepos => sources.(peopleWatcherRepos := sources.peopleWatcherRepos + [item])
  }

  /** One more line: how the section in effect and the four lists change. */
  lemma ParseStep(init: seq<LineKind>, k: LineKind)
    ensures SectionAfter(init + [k]) == if k.Header? then k.section else SectionAfter(init)
    ensures ParseKinds(init + [k]) ==
      if k.Item? && SectionAfter(init).Some?
      then Push(ParseKinds(init), SectionAfter(init).value, Normalize(SectionAfter(init).value, k.value))
      else ParseKinds(init)
  {
    var all := init + [k];
    assert all[..|all| - 1] == init;
    if k.Item? && SectionAfter(init).Some? {
      var s := SectionAfter(init).value;
      var r := Push(ParseKinds(init), s, Normalize(s, k.value));
      forall other: Section
        ensures ItemsOf(all, other) == ListOf(r, other)
      {
        if other != s {
          assert ItemsOf(all, other) == ItemsOf(init, other) + [];
        }
      }
      assert ParseKinds(all) == r by {
        assert ItemsOf(all, GitHubRepos) == ListOf(r, GitHubRepos);
        assert ItemsOf(all, TwitterAccounts) == ListOf(r, TwitterAccounts);
        assert ItemsOf(all, RedditSubreddits) == ListOf(r, RedditSubreddits);
        assert ItemsOf(all, PeopleWatcherRepos) == ListOf(r, PeopleWatcherRepos);
      }
    } else {
      forall s: Section
        ensures ItemsOf(all, s) == ItemsOf(init, s)
      {
        assert ItemsOf(all, s) == ItemsOf(init, s) + [];
      }
    }
  }

  /** `parseMarkdownSources`: one pass over the lines, tracking the current section. */
  method ParseMarkdownSources(content: string) returns (sources: Sources)
    ensures sources == Parse(content)
  {
    sources := NoSources;
    var lines := Split(content, '\n');
    var currentSection: Option<Section> := None;
    ghost var kinds: seq<LineKind> := [];
    for i := 0 to |lines|
      invariant kinds == Kinds(lines[..i])
      invariant currentSection == SectionAfter(kinds)
      invariant sources == ParseKinds(kinds)
    {
      KindsExtend(lines, i);
      currentSection, sources := ParseNextLine(lines[i], currentSection, sources, kinds);
      kinds := kinds + [Classify(lines[i])];
    }
    assert lines[..|lines|] == lines;
  }

  /** One loop iteration, seen from the file's meaning: the state after `kinds` becomes the state after one more line. */
  method ParseNextLine(line: string, currentSection: Option<Section>, sources: Sources, ghost kinds: seq<LineKind>)
    returns (section': Option<Section>, sources': Sources)
    requires currentSection == SectionAfter(kinds) && sources == ParseKinds(kinds)
    ensures section' == SectionAfter(kinds + [Classify(line)]) && sources' == ParseKinds(kinds + [Classify(line)])
  {
    ParseStep(kinds, Classify(line));
    section', sources' := ParseLine(line, currentSection, sources);
  }

  /**
   * The body of the `for` loop for one line (each `continue` is a `return`): a header sets the
   * current section, an item line under a section is pushed onto that section's list.
   */
  method ParseLine(line: string, currentSection: Option<Section>, sources: Sources)
    returns (section': Option<Section>, sources': Sources)
    ensures section' == if Classify(line).Header? then Classify(line).section else currentSection
    ensures sources' ==
      if Classify(line).Item? && currentSection.Some?
      then Push(sources, currentSection.value, Normalize(currentSection.value, Classify(line).value))
      else sources
  {
    section', sources' := currentSection, sources;
    var trimmed := Trim(line);
    if trimmed == [] {
      return;
    }
    HeadersOpenWithHash(trimmed);
    if StartsWith(trimmed, GitHubHeader) {
      section' := Some(GitHubRepos);
      return;
    } else if StartsWith(trimmed, TwitterHeader) {
      section' := Some(TwitterAccounts);
      return;
    } else if StartsWith(trimmed, RedditHeader) {
      section' := Some(RedditSubreddits);
      return;
    } else if StartsWith(trimmed, PeopleWatcherHeader) {
      section' := Some(PeopleWatcherRepos);
      return;
    } else if StartsWith(trimmed, "##") {
      section' := None;
      return;
    }
    if StartsWith(trimmed, "#") {
      return;
    }
    if StartsWith(trimmed, "-") && currentSection.Some? {
      var item := Trim(trimmed[1..]);
      match currentSection.value
      case GitHubRepos =>
        sources' := sources.(githubRepos := sources.githubRepos + [item]);
      case TwitterAccounts =>
        var account := StripPrefix(item, "@");
        sources' := sources.(twitterAccounts := sources.twitterAccounts + [account]);
      case RedditSubreddits =>
        var subreddit := StripPrefix(item, "r/");
        sources' := sources.(subreddits := sources.subreddits + [subreddit]);
      case PeopleWatcherRepos =>
        sources' := sources.(peopleWatcherRepos := sources.peopleWatcherRepos + [item]);
    }
  }

  /** `loadSources`: the parsed file, or four empty lists when the file cannot be read. */
  function LoadSources(content: Option<string>): (r: Sources)
    ensures content.None? ==> r.githubRepos == [] && r.subreddits == [] && r.twitterAccounts == [] && r.peopleWatcherRepos == []
    ensures content.Some? ==> r == Parse(content.value)
  {
    match content
    case None => NoSources
    case Some(text) => Parse(text)
  }

  // ---------------------------------------------------------------------------------------------
  // Properties

  /** Lines that are blank, comments or neither items nor headers. */
  predicate Inert(k: LineKind) {
    k.Blank? || k.Comment? || k.Other?
  }

  /** Inserting an inert line anywhere changes neither the section in effect nor any list. */
  lemma {:induction false} InertLineChangesNothing(a: seq<LineKind>, k: LineKind, b: seq<LineKind>, s: Section)
    requires Inert(k)
    ensures SectionAfter(a + [k] + b) == SectionAfter(a + b)
    ensures ItemsOf(a + [k] + b, s) == ItemsOf(a + b, s)
    decreases |b|
  {
    if b == [] {
      assert (a + [k] + b)[..|a + [k] + b| - 1] == a;
      assert a + b == a;
    } else {
      var b' := b[..|b| - 1];
      InertLineChangesNothing(a, k, b', s);
      assert (a + [k] + b)[..|a + [k] + b| - 1] == a + [k] + b';
      assert (a + b)[..|a + b| - 1] == a + b';
      assert (a + [k] + b)[|a + [k] + b| - 1] == b[|b| - 1];
      assert (a + b)[|a + b| - 1] == b[|b| - 1];
    }
  }

  /**
   * While no section is in effect, nothing is recorded until a known header: in particular,
   * lines before the first known header, and lines after an unknown `##` header, contribute nothing.
   */
  lemma {:induction false} NoSectionNoItems(a: seq<LineKind>, b: seq<LineKind>, s: Section)
    requires SectionAfter(a).None?
    requires forall j :: 0 <= j < |b| ==> !(b[j].Header? && b[j].section.Some?)
    ensures SectionAfter(a + b).None?
    ensures ItemsOf(a + b, s) == ItemsOf(a, s)
    decreases |b|
  {
    if b == [] {
      assert a + b == a;
    } else {
      var b' := b[..|b| - 1];
      NoSectionNoItems(a, b', s);
      assert (a + b)[..|a + b| - 1] == a + b';
      assert (a + b)[|a + b| - 1] == b[|b| - 1];
    }
  }

  /** Line `j` is a `-` line under section `s` whose normalized value is `x`. */
  predicate ItemLine(kinds: seq<LineKind>, s: Section, x: string, j: int) {
    0 <= j < |kinds| && kinds[j].Item? && SectionAfter(kinds[..j]) == Some(s) && x == Normalize(s, kinds[j].value)
  }

  /** Every recorded item comes from a `-` line under its section, and every such line is recorded. */
  lemma {:induction false} ItemsOfMembers(kinds: seq<LineKind>, s: Section, x: string)
    ensures x in ItemsOf(kinds, s) <==> exists j :: ItemLine(kinds, s, x, j)
    decreases |kinds|
  {
    if kinds != [] {
      var n := |kinds| - 1;
      var init := kinds[..n];
      ItemsOfMembers(init, s, x);
      var last := if kinds[n].Item? && SectionAfter(init) == Some(s) then [Normalize(s, kinds[n].value)] else [];
      assert ItemsOf(kinds, s) == ItemsOf(init, s) + last;
      forall j | 0 <= j < n
        ensures ItemLine(kinds, s, x, j) == ItemLine(init, s, x, j)
      {
        assert init[..j] == kinds[..j];
      }
      assert x in last <==> ItemLine(kinds, s, x, n);
      if x in ItemsOf(init, s) {
        var j :| ItemLine(init, s, x, j);
        assert ItemLine(kinds, s, x, j);
      }
      if j :| ItemLine(kinds, s, x, j) {
        if j < n {
          assert ItemLine(init, s, x, j);
        }
      }
    }
  }

  /** Items of a prefix of the file come first, in the same order: each list keeps file order. */
  lemma {:induction false} ItemsOfPrefix(kinds: seq<LineKind>, k: nat, s: Section)
    requires k <= |kinds|
    ensures |ItemsOf(kinds[..k], s)| <= |ItemsOf(kinds, s)|
    ensures ItemsOf(kinds, s)[..|ItemsOf(kinds[..k], s)|] == ItemsOf(kinds[..k], s)
    decreases |kinds|
  {
    if k < |kinds| {
      var n := |kinds| - 1;
      assert kinds[..n][..k] == kinds[..k];
      ItemsOfPrefix(kinds[..n], k, s);
    } else {
      assert kinds[..k] == kinds;
    }
  }

  /** A Twitter item keeps everything after one leading `@`; a subreddit everything after one leading `r/`. */
  lemma NormalizeStrips(item: string)
    ensures "@" + Normalize(TwitterAccounts, item) == item || (Normalize(TwitterAccounts, item) == item && !StartsWith(item, "@"))
    ensures "r/" + Normalize(RedditSubreddits, item) == item || (Normalize(RedditSubreddits, item) == item && !StartsWith(item, "r/"))
    ensures Normalize(GitHubRepos, item) == item && Normalize(PeopleWatcherRepos, item) == item
  {
  }
}
