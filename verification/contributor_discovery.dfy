/**
 * The contributor aggregation of the people watcher (lib/people-watcher/contributor-discovery.js):
 * the per-repository contributor lists, already fetched, are folded into one entry per login,
 * kept in the order logins were first seen, summing contributions and collecting repositories.
 */
module ContributorDiscovery {
  import opened Wrappers
  import Seqs
  import opened Text

  /** One element of a repository's contributor listing. */
  datatype RawContributor = RawContributor(login: string, contributions: int, avatarUrl: string, htmlUrl: string)

  /** A configured repository and its listing; `None` when fetching it failed. */
  datatype Fetch = Fetch(repo: string, data: Option<seq<RawContributor>>)

  /** An aggregated contributor, as stored in the map. */
  datatype Contributor = Contributor(username: string, contributions: int, repos: seq<string>, avatarUrl: string, htmlUrl: string)

  /** A login seen in the listing of one repository. */
  datatype Sighting = Sighting(repo: string, who: RawContributor)

  // ---------------------------------------------------------------------------------------------
  // Which repositories are processed

  /** `const [owner, repoName] = repo.split("/")` yields a non-empty owner and a non-empty second part. */
  predicate ValidRepo(repo: string) {
    var parts := Split(repo, '/');
    parts[0] != [] && |parts| >= 2 && parts[1] != []
  }

  /** A repository whose listing reaches the inner loop. */
  predicate Processed(f: Fetch) {
    ValidRepo(f.repo) && f.data.Some?
  }

  /** A repository string is valid exactly when it has a `/` with something on both sides of the first one. */
  lemma ValidRepoMeaning(repo: string)
    ensures ValidRepo(repo) <==>
      exists i :: 0 < i < |repo| - 1 && repo[i] == '/' && repo[i + 1] != '/' && '/' !in repo[..i]
  {
    var parts := Split(repo, '/');
    JoinSplit(repo, '/');
    if ValidRepo(repo) {
      var i := |parts[0]|;
      JoinFirst(parts, "/");
      assert repo[..i] == parts[0];
      assert repo[i] == '/';
      assert repo[i + 1] == parts[1][0] by { JoinSecond(parts, "/"); }
    } else {
      forall i | 0 < i < |repo| - 1 && repo[i] == '/' && '/' !in repo[..i]
        ensures repo[i + 1] == '/'
      {
        SplitAtFirst(repo, i);
      }
    }
  }

  /** Joining parts starts with the first part and the separator when there is a second. */
  lemma JoinFirst(parts: seq<string>, sep: string)
    requires |parts| >= 2
    ensures Join(parts, sep) == parts[0] + sep + Join(parts[1..], sep)
  {
  }

  lemma JoinSecond(parts: seq<string>, sep: string)
    requires |parts| >= 2 && parts[1] != []
    ensures |Join(parts, sep)| > |parts[0]| + |sep| && Join(parts, sep)[|parts[0]| + |sep|] == parts[1][0]
  {
    JoinFirst(parts, sep);
    if |parts| > 2 {
      JoinFirst(parts[1..], sep);
    }
  }

  /** The first part of `Split` is everything before the first separator, and the second starts after it. */
  lemma SplitAtFirst(s: string, i: nat)
    requires i < |s| - 1 && s[i] == '/' && '/' !in s[..i]
    ensures Split(s, '/')[0] == s[..i] && |Split(s, '/')| >= 2
    ensures Split(s, '/')[1] == [] <==> s[i + 1] == '/'
  {
    var parts := Split(s, '/');
    JoinSplit(s, '/');
    if |parts| > 1 {
      JoinFirst(parts, "/");
      assert s[|parts[0]|] == '/';
      if parts[1] != [] {
        JoinSecond(parts, "/");
      } else if |parts| > 2 {
        JoinFirst(parts[1..], "/");
      }
    }
  }

  // ---------------------------------------------------------------------------------------------
  // The reference definition: sightings, logins, entries

  /** The sightings of one listing, in listing order. */
  function Listed(repo: string, data: seq<RawContributor>): (r: seq<Sighting>)
    ensures |r| == |data|
    ensures forall k :: 0 <= k < |data| ==> r[k] == Sighting(repo, data[k])
  {
    seq(|data|, k requires 0 <= k < |data| => Sighting(repo, data[k]))
  }

  /** The sightings the loop goes through: the processed listings in repository order. */
  function Sightings(fetches: seq<Fetch>): seq<Sighting>
    decreases |fetches|
  {
    if fetches == [] then []
    else
      var f := fetches[|fetches| - 1];
      Sightings(fetches[..|fetches| - 1]) + if Processed(f) then Listed(f.repo, f.data.value) else []
  }

  function IsLogin(login: string): Sighting -> bool {
    (x: Sighting) => x.who.login == login
  }

  /** The sightings of `login`, in order. */
  function Of(s: seq<Sighting>, login: string): seq<Sighting> {
    Seqs.Filter(s, IsLogin(login))
  }

  function SightingContributions(x: Sighting): int {
    x.who.contributions
  }

  function RepoList(s: seq<Sighting>): (r: seq<string>)
    ensures |r| == |s|
    ensures forall k :: 0 <= k < |s| ==> r[k] == s[k].repo
  {
    seq(|s|, k requires 0 <= k < |s| => s[k].repo)
  }

  lemma RepoListAppend(s: seq<Sighting>, x: Sighting)
    ensures RepoList(s + [x]) == RepoList(s) + [x.repo]
  {
  }

  lemma OfSnoc(s: seq<Sighting>, x: Sighting, login: string)
    ensures Of(s + [x], login) == Of(s, login) + if x.who.login == login then [x] else []
  {
    Seqs.FilterAppend(s, x, IsLogin(login));
  }

  lemma OfAppend(s: seq<Sighting>, x: Sighting)
    ensures forall login :: Of(s + [x], login) == Of(s, login) + if x.who.login == login then [x] else []
  {
    forall login
      ensures Of(s + [x], login) == Of(s, login) + if x.who.login == login then [x] else []
    {
      OfSnoc(s, x, login);
    }
  }

  /** The distinct logins of `s`, in order of first sighting. */
  function Logins(s: seq<Sighting>): (r: seq<string>)
    ensures forall i, j :: 0 <= i < j < |r| ==> r[i] != r[j]
    ensures forall login :: login in r <==> Of(s, login) != []
    decreases |s|
  {
    if s == [] then []
    else
      var init := s[..|s| - 1];
      var x := s[|s| - 1];
      var r := Logins(init);
      OfAppend(init, x);
      assert init + [x] == s;
      if x.who.login in r then r else r + [x.who.login]
  }

  /** The entry for `login`: its first sighting's URLs, the sum of its contributions and its repositories in order. */
  function EntryFor(s: seq<Sighting>, login: string): Contributor
    requires Of(s, login) != []
  {
    var mine := Of(s, login);
    Contributor(login, Seqs.Sum(mine, SightingContributions), RepoList(mine), mine[0].who.avatarUrl, mine[0].who.htmlUrl)
  }

  /** The entries of all logins of `s`, in order of first sighting. */
  function Entries(s: seq<Sighting>): (r: seq<Contributor>)
    ensures |r| == |Logins(s)|
    ensures forall k :: 0 <= k < |r| ==> Of(s, Logins(s)[k]) != [] && r[k] == EntryFor(s, Logins(s)[k])
  {
    var logins := Logins(s);
    seq(|logins|, k requires 0 <= k < |logins| => EntryFor(s, logins[k]))
  }

  /** What `discoverContributors` returns for the given fetch outcomes. */
  function Discovered(fetches: seq<Fetch>): (contributors: seq<Contributor>)
    ensures forall k :: 0 <= k < |contributors| ==>
      Of(Sightings(fetches), contributors[k].username) != []
      && contributors[k] == EntryFor(Sightings(fetches), contributors[k].username)
  {
    Entries(Sightings(fetches))
  }

  // ---------------------------------------------------------------------------------------------
  // The loop

  /** The map and its insertion order hold exactly the entries of the sightings so far. */
  ghost predicate Tracks(seen: seq<Sighting>, order: seq<string>, contributors: map<string, Contributor>) {
    order == Logins(seen)
    && (forall login :: login in contributors <==> login in order)
    && forall login :: login in contributors ==> Of(seen, login) != [] && contributors[login] == EntryFor(seen, login)
  }

  /** `discoverContributors` on already-fetched listings: the loop over repositories and `Array.from(values())`. */
  method DiscoverContributors(fetches: seq<Fetch>) returns (result: seq<Contributor>)
    ensures result == Discovered(fetches)
  {
    var order: seq<string> := [];
    var contributors: map<string, Contributor> := map[];
    ghost var seen: seq<Sighting> := [];
    for i := 0 to |fetches|
      invariant seen == Sightings(fetches[..i])
      invariant Tracks(seen, order, contributors)
    {
      SightingsStep(fetches, i);
      order, contributors := ProcessRepo(order, contributors, fetches[i], seen);
      seen := seen + if Processed(fetches[i]) then Listed(fetches[i].repo, fetches[i].data.value) else [];
    }
    assert fetches[..|fetches|] == fetches;
    result := Values(order, contributors, seen);
  }

  /** One iteration of the loop over repositories: the validity check, then the listing merged when it was fetched. */
  method ProcessRepo(order0: seq<string>, contributors0: map<string, Contributor>, f: Fetch, ghost seen: seq<Sighting>)
    returns (order: seq<string>, contributors: map<string, Contributor>)
    requires Tracks(seen, order0, contributors0)
    ensures Tracks(seen + if Processed(f) then Listed(f.repo, f.data.value) else [], order, contributors)
  {
    order, contributors := order0, contributors0;
    var parts := Split(f.repo, '/');
    if parts[0] != [] && |parts| >= 2 && parts[1] != [] {
      match f.data
      case Some(data) =>
        order, contributors := MergeListing(order, contributors, f.repo, data, seen);
      case None =>
        assert seen + [] == seen;
    }
    else {
      assert seen + [] == seen;
    }
  }

  /** `Array.from(contributors.values())`: the entries in insertion order. */
  method Values(order: seq<string>, contributors: map<string, Contributor>, ghost seen: seq<Sighting>)
    returns (result: seq<Contributor>)
    requires Tracks(seen, order, contributors)
    ensures result == Entries(seen)
  {
    result := seq(|order|, k requires 0 <= k < |order| => contributors[order[k]]);
  }

  lemma SightingsStep(fetches: seq<Fetch>, i: nat)
    requires i < |fetches|
    ensures var f := fetches[i];
      Sightings(fetches[..i + 1]) == Sightings(fetches[..i]) + if Processed(f) then Listed(f.repo, f.data.value) else []
  {
    assert fetches[..i + 1][..i] == fetches[..i];
  }

  /** The inner `for (const contributor of data)` loop of one repository. */
  method MergeListing(order0: seq<string>, contributors0: map<string, Contributor>, repo: string,
                      data: seq<RawContributor>, ghost seen0: seq<Sighting>)
    returns (order: seq<string>, contributors: map<string, Contributor>)
    requires Tracks(seen0, order0, contributors0)
    ensures Tracks(seen0 + Listed(repo, data), order, contributors)
  {
    order, contributors := order0, contributors0;
    ghost var seen := seen0;
    assert seen0 + Listed(repo, data[..0]) == seen0;
    for j := 0 to |data|
      invariant seen == seen0 + Listed(repo, data[..j])
      invariant Tracks(seen, order, contributors)
    {
      ListedStep(seen0, repo, data, j);
      order, contributors := Record(order, contributors, repo, data[j], seen);
      seen := seen + [Sighting(repo, data[j])];
    }
    assert data[..|data|] == data;
  }

  lemma ListedStep(seen: seq<Sighting>, repo: string, data: seq<RawContributor>, j: nat)
    requires j < |data|
    ensures seen + Listed(repo, data[..j + 1]) == seen + Listed(repo, data[..j]) + [Sighting(repo, data[j])]
  {
    assert Listed(repo, data[..j + 1]) == Listed(repo, data[..j]) + [Sighting(repo, data[j])];
  }

  /** The body of the inner loop: create the entry on a first sighting, otherwise add to it. */
  method Record(order0: seq<string>, contributors0: map<string, Contributor>, repo: string,
                contributor: RawContributor, ghost seen: seq<Sighting>)
    returns (order: seq<string>, contributors: map<string, Contributor>)
    requires Tracks(seen, order0, contributors0)
    ensures Tracks(seen + [Sighting(repo, contributor)], order, contributors)
  {
    order, contributors := order0, contributors0;
    if contributor.login !in contributors {
      RecordFirst(seen, order, contributors, Sighting(repo, contributor));
      contributors := contributors[contributor.login := Contributor(contributor.login, contributor.contributions, [repo],
                                                                   contributor.avatarUrl, contributor.htmlUrl)];
      order := order + [contributor.login];
    } else {
      var existing := contributors[contributor.login];
      var updated := existing.(contributions := existing.contributions + contributor.contributions, repos := existing.repos + [repo]);
      RecordLater(seen, order, contributors, Sighting(repo, contributor), updated);
      contributors := contributors[contributor.login := updated];
    }
  }

  // ---------------------------------------------------------------------------------------------
  // One sighting

  /** An entry after a further sighting: its contributions added and its repository appended. */
  function Added(e: Contributor, x: Sighting): (r: Contributor)
    ensures r.username == e.username && r.avatarUrl == e.avatarUrl && r.htmlUrl == e.htmlUrl
    ensures r.contributions - e.contributions == x.who.contributions
    ensures |r.repos| == |e.repos| + 1 && r.repos[..|e.repos|] == e.repos && r.repos[|e.repos|] == x.repo
  {
    e.(contributions := e.contributions + x.who.contributions, repos := e.repos + [x.repo])
  }

  /** The first sighting of a login creates its entry from that listing alone. */
  lemma FirstSighting(s: seq<Sighting>, x: Sighting)
    requires Of(s, x.who.login) == []
    ensures Of(s + [x], x.who.login) != []
    ensures EntryFor(s + [x], x.who.login) == Contributor(x.who.login, x.who.contributions, [x.repo], x.who.avatarUrl, x.who.htmlUrl)
  {
    OfSnoc(s, x, x.who.login);
    assert Of(s + [x], x.who.login) == [x];
    assert Seqs.Sum([x], SightingContributions) == Seqs.Sum([], SightingContributions) + x.who.contributions;
  }

  /** A later sighting adds its contributions and appends its repository, keeping the first sighting's URLs. */
  lemma LaterSighting(s: seq<Sighting>, x: Sighting)
    requires Of(s, x.who.login) != []
    ensures Of(s + [x], x.who.login) != []
    ensures EntryFor(s + [x], x.who.login) == Added(EntryFor(s, x.who.login), x)
  {
    OfSnoc(s, x, x.who.login);
    var mine := Of(s, x.who.login);
    assert Of(s + [x], x.who.login) == mine + [x];
    Seqs.SumAppend(mine, x, SightingContributions);
    RepoListAppend(mine, x);
  }

  /** A sighting touches no other login's entry. */
  lemma OtherLogins(s: seq<Sighting>, x: Sighting, login: string)
    requires login != x.who.login
    ensures Of(s + [x], login) == Of(s, login)
    ensures Of(s, login) != [] ==> EntryFor(s + [x], login) == EntryFor(s, login)
  {
    OfSnoc(s, x, login);
  }

  lemma RecordFirst(seen: seq<Sighting>, order: seq<string>, contributors: map<string, Contributor>, x: Sighting)
    requires Tracks(seen, order, contributors) && x.who.login !in contributors
    ensures Tracks(seen + [x], order + [x.who.login],
                   contributors[x.who.login := Contributor(x.who.login, x.who.contributions, [x.repo], x.who.avatarUrl, x.who.htmlUrl)])
  {
    var login := x.who.login;
    var m := contributors[login := Contributor(login, x.who.contributions, [x.repo], x.who.avatarUrl, x.who.htmlUrl)];
    FirstSighting(seen, x);
    assert Logins(seen + [x]) == order + [login] by {
      assert (seen + [x])[..|seen|] == seen;
    }
    forall other | other in m
      ensures Of(seen + [x], other) != [] && m[other] == EntryFor(seen + [x], other)
    {
      if other != login {
        OtherLogins(seen, x, other);
      }
    }
  }

  lemma RecordLater(seen: seq<Sighting>, order: seq<string>, contributors: map<string, Contributor>, x: Sighting, updated: Contributor)
    requires Tracks(seen, order, contributors) && x.who.login in contributors
    requires updated == Added(contributors[x.who.login], x)
    ensures Tracks(seen + [x], order, contributors[x.who.login := updated])
  {
    var login := x.who.login;
    var m := contributors[login := updated];
    LaterSighting(seen, x);
    assert Logins(seen + [x]) == order by {
      assert (seen + [x])[..|seen|] == seen;
    }
    assert forall other :: other in m <==> other in order;
    forall other | other in m
      ensures Of(seen + [x], other) != [] && m[other] == EntryFor(seen + [x], other)
    {
      if other != login {
        OtherLogins(seen, x, other);
      }
    }
    assert Tracks(seen + [x], order, m);
  }

  // ---------------------------------------------------------------------------------------------
  // Properties of the result

  /** Skipped repositories (malformed, or whose fetch failed) change nothing. */
  lemma {:induction false} SkippedRepo(fetches: seq<Fetch>, f: Fetch)
    requires !ValidRepo(f.repo) || f.data.None?
    ensures Discovered(fetches + [f]) == Discovered(fetches)
  {
    assert (fetches + [f])[..|fetches|] == fetches;
    assert Sightings(fetches + [f]) == Sightings(fetches);
  }

  /**
   * One entry per distinct login: every login in a processed listing has exactly one entry, and
   * every entry is the aggregate of that login's sightings.
   */
  lemma DiscoveredEntries(fetches: seq<Fetch>)
    ensures forall i, j :: 0 <= i < j < |Discovered(fetches)| ==> Discovered(fetches)[i].username != Discovered(fetches)[j].username
    ensures forall login :: (exists k :: 0 <= k < |Discovered(fetches)| && Discovered(fetches)[k].username == login)
                            <==> Of(Sightings(fetches), login) != []
  {
    DiscoveredDistinct(fetches);
    DiscoveredNames(fetches);
  }

  lemma DiscoveredDistinct(fetches: seq<Fetch>)
    ensures forall i, j :: 0 <= i < j < |Discovered(fetches)| ==> Discovered(fetches)[i].username != Discovered(fetches)[j].username
  {
    var s := Sightings(fetches);
    var r := Discovered(fetches);
    forall i, j | 0 <= i < j < |r|
      ensures r[i].username != r[j].username
    {
      assert r[i].username == Logins(s)[i] && r[j].username == Logins(s)[j];
    }
  }

  lemma DiscoveredNames(fetches: seq<Fetch>)
    ensures forall login :: (exists k :: 0 <= k < |Discovered(fetches)| && Discovered(fetches)[k].username == login)
                            <==> Of(Sightings(fetches), login) != []
  {
    var s := Sightings(fetches);
    var r := Discovered(fetches);
    forall login
      ensures (exists k :: 0 <= k < |r| && r[k].username == login) <==> Of(s, login) != []
    {
      if Of(s, login) != [] {
        var k :| 0 <= k < |Logins(s)| && Logins(s)[k] == login;
        assert r[k].username == login;
      }
    }
  }

  /**
   * Logins are ordered by first sighting: the logins of any prefix of the sightings are a prefix
   * of the logins of the whole.
   */
  lemma {:induction false} LoginsPrefix(s: seq<Sighting>, n: nat)
    requires n <= |s|
    ensures |Logins(s[..n])| <= |Logins(s)| && Logins(s[..n]) == Logins(s)[..|Logins(s[..n])|]
    decreases |s|
  {
    if n < |s| {
      var init := s[..|s| - 1];
      assert init[..n] == s[..n];
      LoginsPrefix(init, n);
      assert Logins(s)[..|Logins(init)|] == Logins(init);
    } else {
      assert s[..n] == s;
    }
  }

  /** Summing a sequence after one element is replaced. */
  lemma {:induction false} SumUpdate(r: seq<Contributor>, p: nat, v: Contributor)
    requires p < |r|
    ensures Seqs.Sum(r[p := v], ContributionsOf) == Seqs.Sum(r, ContributionsOf) - r[p].contributions + v.contributions
    decreases |r|
  {
    var n := |r| - 1;
    if p < n {
      SumUpdate(r[..n], p, v);
      assert r[p := v][..n] == r[..n][p := v];
    } else {
      assert r[p := v][..n] == r[..n];
    }
  }

  function ContributionsOf(c: Contributor): int {
    c.contributions
  }

  /** A first sighting appends one entry, built from that sighting alone, and changes no other entry. */
  lemma EntriesFirst(s: seq<Sighting>, x: Sighting)
    requires x.who.login !in Logins(s)
    ensures Entries(s + [x]) == Entries(s) + [Contributor(x.who.login, x.who.contributions, [x.repo], x.who.avatarUrl, x.who.htmlUrl)]
  {
    var before := Entries(s);
    var after := Entries(s + [x]);
    assert (s + [x])[..|s|] == s;
    assert Logins(s + [x]) == Logins(s) + [x.who.login];
    forall k | 0 <= k < |before|
      ensures after[k] == before[k]
    {
      OtherLogins(s, x, Logins(s)[k]);
    }
    FirstSighting(s, x);
  }

  /** A later sighting updates that login's entry in place and changes no other entry. */
  lemma EntriesLater(s: seq<Sighting>, x: Sighting, p: nat)
    requires p < |Logins(s)| && Logins(s)[p] == x.who.login
    ensures Entries(s + [x]) == Entries(s)[p := Added(Entries(s)[p], x)]
  {
    var before := Entries(s);
    var after := Entries(s + [x]);
    var updated := before[p := Added(before[p], x)];
    assert (s + [x])[..|s|] == s;
    assert Logins(s + [x]) == Logins(s);
    forall k | 0 <= k < |before|
      ensures after[k] == updated[k]
    {
      if k != p {
        OtherLogins(s, x, Logins(s)[k]);
      } else {
        LaterSighting(s, x);
      }
    }
    assert after == updated;
  }

  /** One more sighting adds its contributions to the total over the entries. */
  lemma EntriesSumStep(s: seq<Sighting>, x: Sighting)
    ensures Seqs.Sum(Entries(s + [x]), ContributionsOf) == Seqs.Sum(Entries(s), ContributionsOf) + x.who.contributions
  {
    var before := Entries(s);
    if x.who.login in Logins(s) {
      var p :| 0 <= p < |Logins(s)| && Logins(s)[p] == x.who.login;
      EntriesLater(s, x, p);
      SumUpdate(before, p, Added(before[p], x));
    } else {
      EntriesFirst(s, x);
      Seqs.SumAppend(before, Contributor(x.who.login, x.who.contributions, [x.repo], x.who.avatarUrl, x.who.htmlUrl), ContributionsOf);
    }
  }

  /** The entries' contributions add up to the contributions of all sightings. */
  lemma {:induction false} EntriesSum(s: seq<Sighting>)
    ensures Seqs.Sum(Entries(s), ContributionsOf) == Seqs.Sum(s, SightingContributions)
    decreases |s|
  {
    if s != [] {
      var init := s[..|s| - 1];
      assert s == init + [s[|s| - 1]];
      EntriesSum(init);
      EntriesSumStep(init, s[|s| - 1]);
    }
  }

  /** The total of the output's contributions is the total over every processed listing. */
  lemma DiscoveredSum(fetches: seq<Fetch>)
    ensures Seqs.Sum(Discovered(fetches), ContributionsOf) == Seqs.Sum(Sightings(fetches), SightingContributions)
  {
    EntriesSum(Sightings(fetches));
  }

  // ---------------------------------------------------------------------------------------------
  // Repositories per entry

  /** The listing `data` names `login`. */
  predicate Names(data: seq<RawContributor>, login: string) {
    exists k :: 0 <= k < |data| && data[k].login == login
  }

  /** A processed listing that names `login`. */
  predicate Lists(f: Fetch, login: string) {
    Processed(f) && Names(f.data.value, login)
  }

  /** A listing names each login at most once (as a repository's contributor listing does). */
  predicate DistinctLogins(data: seq<RawContributor>) {
    forall i, j :: 0 <= i < j < |data| ==> data[i].login != data[j].login
  }

  /** A listing names a login when its front does or its last element does; with distinct logins, not both. */
  lemma NamesSnoc(data: seq<RawContributor>, login: string)
    requires data != []
    ensures Names(data, login) <==> Names(data[..|data| - 1], login) || data[|data| - 1].login == login
    ensures DistinctLogins(data) && Names(data[..|data| - 1], login) ==> data[|data| - 1].login != login
  {
    var init := data[..|data| - 1];
    if Names(init, login) {
      var k :| 0 <= k < |init| && init[k].login == login;
      assert data[k] == init[k];
    }
    if Names(data, login) && data[|data| - 1].login != login {
      var k :| 0 <= k < |data| && data[k].login == login;
      assert init[k] == data[k];
    }
  }

  /** In a listing with distinct logins, a login is sighted once if listed and never otherwise. */
  lemma {:induction false} ListedOnce(repo: string, data: seq<RawContributor>, login: string)
    requires DistinctLogins(data)
    ensures |Of(Listed(repo, data), login)| == if Names(data, login) then 1 else 0
    decreases |data|
  {
    if data != [] {
      var init := data[..|data| - 1];
      var x := data[|data| - 1];
      assert Listed(repo, data) == Listed(repo, init) + [Sighting(repo, x)];
      OfSnoc(Listed(repo, init), Sighting(repo, x), login);
      assert DistinctLogins(init) by {
        forall i, j | 0 <= i < j < |init|
          ensures init[i].login != init[j].login
        {
          assert init[i] == data[i] && init[j] == data[j];
        }
      }
      ListedOnce(repo, init, login);
      NamesSnoc(data, login);
    }
  }

  /**
   * When every listing names each login at most once, an entry's repositories are the listing
   * repositories naming it, one per listing, in order.
   */
  lemma {:induction false} ReposCount(fetches: seq<Fetch>, login: string)
    requires forall i :: 0 <= i < |fetches| && fetches[i].data.Some? ==> DistinctLogins(fetches[i].data.value)
    ensures |Of(Sightings(fetches), login)| == |Seqs.Filter(fetches, f => Lists(f, login))|
    decreases |fetches|
  {
    if fetches != [] {
      var init := fetches[..|fetches| - 1];
      var f := fetches[|fetches| - 1];
      assert fetches == init + [f];
      ReposCount(init, login);
      Seqs.FilterAppend(init, f, g => Lists(g, login));
      var added := if Processed(f) then Listed(f.repo, f.data.value) else [];
      Seqs.FilterConcat(Sightings(init), added, IsLogin(login));
      if Processed(f) {
        ListedOnce(f.repo, f.data.value, login);
      }
    }
  }
}
