# Signal pipeline core, modelled in Dafny

This project models the deterministic core of an automation repository. The repository collects "signals" (links from Hacker News, Reddit and GitHub) and asks a language model to pick the best of them. It learns preferences from reactions on published issue comments and watches contributors of target repositories. What is modelled:

- **URL deduplication window** (`deduplication.dfy`). A stored signal is *live* while its timestamp is strictly after `now - days * 86400000`. `isNewUrl` asks whether a URL has a live entry. `addSignal` appends a record to the caller's array. `cleanOldSignals` keeps only the live records.
- **Reaction analysis** (`reaction_analyzer.dfy`). Every comment's `+1`/`-1` tally becomes an entry. Entries are routed into `liked`, `disliked` and `neutral`, and the first two are stably sorted. The module also renders the preference summary text.
- **Prompt updater** (`prompt_updater.dfy`):
  - `extractTitle`, with its three tiers: the `## Signal N: title` pattern, then the first non-blank line, then a raw prefix;
  - `generatePreferenceText`;
  - the replace-or-append merge of the `## RLHF Learned Preferences` section inside `updateSystemPrompt`.
- **Markdown configuration parser** (`config_loader.dfy`). A line-by-line state machine tracks the current section and fills four lists. It strips a leading `@` from Twitter items and a leading `r/` from subreddit items.
- **Response parser** (`claude_analyzer.dfy`):
  - `formatSignalsForClaude` numbers the signals;
  - `parseClaudeResponse` scans the response with `/URL:\s*(https?:\/\/[^\s]+)/gi`, maps the first `topN` URLs back to the signals, and falls back to the first `topN` signals.
- **Contributor discovery** (`contributor_discovery.dfy`). The loop of `discoverContributors` folds per-repository contributor listings into an insertion-ordered map keyed by login.
- **Scoring** (`scoring.dfy`):
  - the linear score;
  - the in-place stable ranking by score;
  - the Markdown report of the first twenty candidates.

Shared helpers:
- `wrappers.dfy`: `Option`.
- `seqs.dfy`: filter, take, sum and subsequence lemmas.
- `text.dfy`: JavaScript `trim` whitespace, `split`/`join`, decimal printing of integers.
- `stable_sort.dfy`: the contract of `Array.prototype.sort` with a numeric comparator. The sort is stable since ES2019. A descending comparator `b.k - a.k` is the sort by key `k` descending, and an ascending one is the sort by `-k` descending.

How the model treats the source:
- **Imperative code stays imperative.** Code that builds a result step by step (`+=` on a string, `push` in nested loops, a `Map` updated in a loop, a regular expression's `exec` loop) is a Dafny `method` with a loop. Each such method is proved equal to a recursive specification function, and the source's promises are lemmas about that function.
- **Arrays changed in place stay mutable.** `addSignal`'s caller-owned array is a class with a sequence field. `rankCandidates` sorts a Dafny `array` in place.
- **Freshness boundary.** The code treats an entry whose timestamp equals the cutoff as expired: the test is `signalTime > cutoffTime`. The model follows the code, and `Deduplication.BoundaryIsNotLive` states the boundary behaviour.

## Model

| member | source | states |
|---|---|---|
| Deduplication.IsNewUrl | lib/signal-intel/deduplication.js:57-66 | A URL is new exactly when no stored signal with that URL has a timestamp strictly after the cutoff `now - days·86400000`. |
| Deduplication.CleanOldSignals | lib/signal-intel/deduplication.js:91-107 | The result holds only live signals. Each live signal keeps its multiplicity and every other has none. The result is a subsequence of the input, so stored order is kept, and it is no longer than the input. |
| Deduplication.SignalLog.AddSignal | lib/signal-intel/deduplication.js:76-83 | The store becomes the old store followed by exactly one record carrying the URL, title, source and current time. Earlier records are unchanged. |
| Deduplication.BoundaryIsNotLive | lib/signal-intel/deduplication.js:58-64 | An entry exactly at the cutoff does not block its URL, and compaction evicts it. |
| Deduplication.OtherUrlsIrrelevant | lib/signal-intel/deduplication.js:60-61 | Whether a URL is new depends only on the stored signals with that same URL. |
| Deduplication.UnparsedNeverLive | lib/signal-intel/deduplication.js:63-64 | A signal whose timestamp cannot be parsed changes neither a freshness decision nor the compacted store. |
| Deduplication.AddedUrlIsNotNew | lib/signal-intel/deduplication.js:76-83 | With a positive window, a URL just added at time `now` is not new at `now`. |
| Deduplication.RecordedBlocksUntilExpiry | lib/signal-intel/deduplication.js:57-66 | A signal recorded at `t` blocks its URL at a later clock reading exactly while `later - days·86400000 < t`. Otherwise the decision is the one without it. |
| Deduplication.DefaultWindowIsOneWeek | lib/signal-intel/deduplication.js:57-66 | With the default window `DEDUP_DAYS = 7`, a URL recorded at `t` is new again exactly when the clock reads 604800000 ms (one week) or more after `t`. |
| Deduplication.CleanIdempotent | lib/signal-intel/deduplication.js:91-97 | Compacting twice with the same clock gives the same store as compacting once. |
| Deduplication.KeptSignalsBlock | lib/signal-intel/deduplication.js:92-97 | Every signal kept by compaction is live, so it blocks its own URL with the same clock and window. |
| Deduplication.CleanPreservesFreshness | lib/signal-intel/deduplication.js:91-97 | Compaction never changes whether a URL is new under the same clock and window. |
| ReactionAnalyzer.Analyze | lib/rlhf/reaction-analyzer.js:13-56 | The liked list is ordered by non-increasing score and the disliked list by non-decreasing score. Every neutral entry has net score zero and at least one vote. |
| ReactionAnalyzer.AnalyzeReactions | lib/rlhf/reaction-analyzer.js:13-56 | The nested loops and the two sorts produce the preference lists defined by `Analyze`. The lemmas below give the meaning of those lists. |
| ReactionAnalyzer.RouteComments | lib/rlhf/reaction-analyzer.js:21-43 | One issue's comments extend each list by exactly that issue's entries of its class, in comment order. |
| ReactionAnalyzer.EntriesOrigin | lib/rlhf/reaction-analyzer.js:22-34 | Every entry's score is its upvotes minus its downvotes (a missing reaction key counts as 0). Every entry carries one comment's body and URL and its issue's title. |
| ReactionAnalyzer.PartitionCount | lib/rlhf/reaction-analyzer.js:36-42 | For well-formed entries, the liked, disliked and neutral classes together have as many members as there are entries with at least one vote. |
| ReactionAnalyzer.AnalyzePartition | lib/rlhf/reaction-analyzer.js:20-43 | The three lists together hold one entry per comment with at least one `+1` or `-1`. Comments with only other reactions are dropped. |
| ReactionAnalyzer.AnalyzeRouting | lib/rlhf/reaction-analyzer.js:36-42 | Positive scores go to `liked`, negative scores to `disliked`, and zero scores with a vote to `neutral`, each with its multiplicity. |
| ReactionAnalyzer.AnalyzeSorted | lib/rlhf/reaction-analyzer.js:47-48 | `liked` is non-increasing and `disliked` non-decreasing by score. Each is a permutation of its unsorted list. |
| ReactionAnalyzer.AnalyzeStable | lib/rlhf/reaction-analyzer.js:47-48 | Entries with equal scores keep their input order. `neutral` is a subsequence of the entries in issue-then-comment order. |
| ReactionAnalyzer.GeneratePreferenceSummary | lib/rlhf/reaction-analyzer.js:63-83 | The text built by `+=` is the title followed by the liked section and then the disliked section. |
| ReactionAnalyzer.AppendSummarySection | lib/rlhf/reaction-analyzer.js:66-72 | An empty list adds nothing. Otherwise the header with the list's full length is added, then the items. |
| ReactionAnalyzer.AppendSummaryItems | lib/rlhf/reaction-analyzer.js:68-71 | The `forEach` appends the item blocks of the listed entries. |
| ReactionAnalyzer.SummaryItemsBlocks | lib/rlhf/reaction-analyzer.js:68-71 | A section's items are one block per listed entry (signed score, issue title, URL), in list order. |
| ReactionAnalyzer.SummaryShowsFirstFive | lib/rlhf/reaction-analyzer.js:66-80 | Only each list's length and its first five entries affect the summary. With both lists empty, the summary is the title line alone. |
| PromptUpdater.FindFrom | lib/rlhf/prompt-updater.js:26-28 | The result is the first occurrence of the pattern at or after the start, or none when there is no occurrence there. |
| PromptUpdater.MarkerIsValid | lib/rlhf/prompt-updater.js:9 | The section marker is non-empty and holds no newline. |
| PromptUpdater.Merge | lib/rlhf/prompt-updater.js:26-33 | The merged prompt starts with the kept text: the text before the first marker, or the whole old prompt and a blank line. It ends with the marker, a blank line and the new section. |
| PromptUpdater.MergeFirstMarker | lib/rlhf/prompt-updater.js:26-33 | The merged prompt is the text before the first marker (or the whole old prompt plus a blank line), then the marker, a blank line and the section. Its first marker sits right after the kept text. |
| PromptUpdater.MergeReplaces | lib/rlhf/prompt-updater.js:26-33 | Merging a second section replaces the first: merging twice equals merging the second section alone. With the same section twice, the merge is idempotent. |
| PromptUpdater.MergeKeepsPreamble | lib/rlhf/prompt-updater.js:26-32 | The text before the first marker is kept as a prefix. Without a marker, the whole old prompt is kept as a prefix. |
| PromptUpdater.MergeSingleMarker | lib/rlhf/prompt-updater.js:26-33 | When the section holds no marker, the merged prompt holds exactly one, right after the kept text. |
| PromptUpdater.UpdatedPrompt | lib/rlhf/prompt-updater.js:17-43 | The prompt written back starts with the kept text and ends with the marker, a blank line and the preference text of the given preferences. |
| PromptUpdater.UpdateReplaces | lib/rlhf/prompt-updater.js:17-43 | Running the update twice leaves only the second run's preference text behind the marker. |
| PromptUpdater.SignalCaptureAtMeaning | lib/rlhf/prompt-updater.js:87 | `## Signal \d+: (.+)` matches at a position exactly when some split into digits and a rest of line exists. The capture runs to the end of the line, as greedy backtracking finds. |
| PromptUpdater.FirstSignalCaptureLeftmost | lib/rlhf/prompt-updater.js:87-90 | `match` returns the capture of the leftmost matching position, and nothing exactly when no position matches. |
| PromptUpdater.ExtractTitle | lib/rlhf/prompt-updater.js:85-99 | A signal heading gives its trimmed capture. Otherwise the title is at most 100 characters long. |
| PromptUpdater.ExtractTitleFallback | lib/rlhf/prompt-updater.js:92-98 | Without a signal heading, the title is the first non-blank line, trimmed and cut to 100 characters. The raw 100-character prefix is used exactly when the content is all whitespace. |
| PromptUpdater.ExtractTitleSignalExample | lib/rlhf/prompt-updater.js:86-90 | `## Signal 3: Foo Bar` followed by another line gives the title `Foo Bar`. |
| PromptUpdater.GeneratePreferenceText | lib/rlhf/prompt-updater.js:50-78 | The text built by `+=` is the introduction, the liked section, the disliked section and the instruction. |
| PromptUpdater.AppendSection | lib/rlhf/prompt-updater.js:53-62 | An empty list adds nothing. Otherwise the header, the numbered first ten items and a blank line are added. |
| PromptUpdater.AppendItemLines | lib/rlhf/prompt-updater.js:57-59 | The `forEach` appends one line per item, numbered from 1 in list order. |
| PromptUpdater.PreferenceTextFirstTen | lib/rlhf/prompt-updater.js:53-73 | Only whether each list is empty and its first ten entries affect the text. Neutral entries never appear. |
| PromptUpdater.PreferenceTextFrame | lib/rlhf/prompt-updater.js:51-75 | The text always starts with the fixed introduction and ends with the fixed instruction. |
| PromptUpdater.PreferenceText | lib/rlhf/prompt-updater.js:50-78 | The text is exactly the introduction followed by the instruction if and only if nothing is liked and nothing is disliked. |
| ConfigLoader.Classify | lib/shared/config-loader.js:48-78 | Exactly the whitespace-only lines are blank. An item's value is the trimmed remainder after the leading `-` of the trimmed line. |
| ConfigLoader.StripPrefix | lib/shared/config-loader.js:84-88 | One leading prefix is removed when present. Otherwise the string is unchanged. |
| ConfigLoader.NormalizeStrips | lib/shared/config-loader.js:80-92 | Twitter items lose one leading `@` and subreddits one leading `r/`. Repository items are stored verbatim. |
| ConfigLoader.Push | lib/shared/config-loader.js:80-92 | Pushing an item grows one section's list by that item and leaves the other three unchanged. |
| ConfigLoader.ParseMarkdownSources | lib/shared/config-loader.js:36-103 | The loop over lines returns the four lists of `Parse`: each list holds the normalized items of its section. |
| ConfigLoader.Parse | lib/shared/config-loader.js:36-103 | Each of the four lists holds at most as many items as the file has lines. |
| ConfigLoader.ParseNextLine | lib/shared/config-loader.js:47-93 | One loop iteration turns the section and lists after the lines so far into those after one more line. |
| ConfigLoader.ParseLine | lib/shared/config-loader.js:48-93 | A header line sets or resets the section. An item line under a section pushes its normalized value. Every other line changes nothing. |
| ConfigLoader.ParseStep | lib/shared/config-loader.js:47-94 | One more line changes the section in effect only if it is a header. It grows at most the list of the section in effect. |
| ConfigLoader.LoadSources | lib/shared/config-loader.js:16-29 | An unreadable file gives four empty lists. A readable one gives the parse of its content. |
| ConfigLoader.InertLineChangesNothing | lib/shared/config-loader.js:50-74 | Inserting a blank, comment or other non-item, non-header line anywhere changes neither the section in effect nor any list. |
| ConfigLoader.NoSectionNoItems | lib/shared/config-loader.js:66-77 | Lines before the first known header, and lines after an unknown `##` header, contribute no item. |
| ConfigLoader.ItemsOf | lib/shared/config-loader.js:77-93 | A section's list gains at most one item per line. |
| ConfigLoader.ItemsOfMembers | lib/shared/config-loader.js:77-93 | A value is in a section's list exactly when some `-` line under that section normalizes to it. |
| ConfigLoader.ItemsOfPrefix | lib/shared/config-loader.js:47-94 | The items of a prefix of the file are a prefix of each list, so each list keeps file order. |
| ClaudeAnalyzer.UrlMatchAtMeaning | lib/signal-intel/claude-analyzer.js:114 | The pattern matches at a position exactly when there is `URL:` (any case), optional whitespace, `http://` or `https://` (any case) and a non-whitespace run. The capture is the longest such run. |
| ClaudeAnalyzer.UrlMatchAtShaped | lib/signal-intel/claude-analyzer.js:114 | Every capture starts with a scheme and holds no whitespace. |
| ClaudeAnalyzer.NextMatch | lib/signal-intel/claude-analyzer.js:118 | Each `exec` match ends after the position the search started from, so the loop makes progress. |
| ClaudeAnalyzer.NextMatchLeftmost | lib/signal-intel/claude-analyzer.js:114-118 | `exec` from `lastIndex` returns the match at the leftmost position at or after it where the pattern succeeds. It returns nothing exactly when no such position matches. |
| ClaudeAnalyzer.UrlsFromShaped | lib/signal-intel/claude-analyzer.js:118-120 | Every extracted URL is URL-shaped, so the `trim()` applied to it changes nothing. |
| ClaudeAnalyzer.CollectUrls | lib/signal-intel/claude-analyzer.js:118-120 | The `exec` loop collects the captures of the successive non-overlapping matches, in order. |
| ClaudeAnalyzer.FindByUrl | lib/signal-intel/claude-analyzer.js:124 | The result is the first signal with that URL, or none exactly when no signal has it. |
| ClaudeAnalyzer.Selected | lib/signal-intel/claude-analyzer.js:123-133 | There is at most one selection per URL. Every selection is flagged, carries the response text as its analysis, and is one of the given signals. |
| ClaudeAnalyzer.SelectSignals | lib/signal-intel/claude-analyzer.js:123-133 | The selection loop yields one flagged copy of the first matching signal per known URL, in URL order. |
| ClaudeAnalyzer.Fallback | lib/signal-intel/claude-analyzer.js:136-143 | The fallback flags every given signal with the fixed analysis text, in order. |
| ClaudeAnalyzer.FallbackSignals | lib/signal-intel/claude-analyzer.js:138-142 | The `map` over the first signals yields the fallback selections. |
| ClaudeAnalyzer.ParseResponse | lib/signal-intel/claude-analyzer.js:110-146 | The result holds at most `topN` selections. Each is flagged and is one of the given signals, on both the matching path and the fallback path. |
| ClaudeAnalyzer.ParseClaudeResponse | lib/signal-intel/claude-analyzer.js:110-146 | The parse yields the selections of the first `topN` URLs, or the fallback when none of them is known. |
| ClaudeAnalyzer.SelectedFollowsUrls | lib/signal-intel/claude-analyzer.js:123-133 | The j-th selection is the first signal having the j-th known URL, with the response as analysis and `selected` set. Unknown URLs are skipped. |
| ClaudeAnalyzer.ParseResponseShape | lib/signal-intel/claude-analyzer.js:110-146 | At most `topN` selections. They come from the first `topN` URLs if any of them is known, and otherwise from the first `min(topN, n)` signals with the fallback analysis. |
| ClaudeAnalyzer.FormatSignalsForClaude | lib/signal-intel/claude-analyzer.js:94-101 | The listing is empty exactly when there are no signals. Otherwise it starts with the first signal's block, numbered 1. |
| ClaudeAnalyzer.Blocks | lib/signal-intel/claude-analyzer.js:95-99 | The j-th block describes the j-th signal and is numbered `j + 1`. |
| ClaudeAnalyzer.FormatAppend | lib/signal-intel/claude-analyzer.js:94-101 | Appending a signal appends a blank line and its block, numbered one past the others. |
| ClaudeAnalyzer.ScoreSuffixShown | lib/signal-intel/claude-analyzer.js:97 | The ` (score: n)` suffix appears exactly when the score is present and non-zero. |
| ContributorDiscovery.ValidRepoMeaning | lib/people-watcher/contributor-discovery.js:22-27 | A repository is processed exactly when it has a `/` with a non-empty part before the first one and a non-`/` character right after it. |
| ContributorDiscovery.Listed | lib/people-watcher/contributor-discovery.js:35 | A listing's sightings are its contributors paired with the repository, in listing order. |
| ContributorDiscovery.Logins | lib/people-watcher/contributor-discovery.js:36-43 | The logins are distinct, and a login appears exactly when it was sighted. |
| ContributorDiscovery.Entries | lib/people-watcher/contributor-discovery.js:61 | There is one entry per distinct login, and it is that login's aggregate. |
| ContributorDiscovery.Discovered | lib/people-watcher/contributor-discovery.js:14-62 | Every returned contributor's username is sighted in some processed listing, and the contributor is the aggregate of that login's sightings. |
| ContributorDiscovery.DiscoverContributors | lib/people-watcher/contributor-discovery.js:14-62 | The loop over repositories, the map updates and `Array.from(values())` return the entries of the processed listings' sightings. |
| ContributorDiscovery.ProcessRepo | lib/people-watcher/contributor-discovery.js:20-55 | One repository extends the map by its listing's sightings when its name is valid and its fetch succeeded, and leaves the map unchanged otherwise. |
| ContributorDiscovery.Values | lib/people-watcher/contributor-discovery.js:61 | The map's values in insertion order are exactly the aggregated entries, in order of first sighting. |
| ContributorDiscovery.MergeListing | lib/people-watcher/contributor-discovery.js:35-49 | After one listing, the map and its insertion order hold exactly the aggregates of all sightings so far. |
| ContributorDiscovery.Record | lib/people-watcher/contributor-discovery.js:36-48 | One contributor's sighting keeps the map equal to the aggregates of the sightings including it. |
| ContributorDiscovery.Added | lib/people-watcher/contributor-discovery.js:44-48 | A later sighting keeps the username and URLs, adds its contributions and appends exactly its repository. |
| ContributorDiscovery.FirstSighting | lib/people-watcher/contributor-discovery.js:36-43 | A login's first sighting creates an entry with that listing's contributions, URLs and `repos = [repo]`. |
| ContributorDiscovery.LaterSighting | lib/people-watcher/contributor-discovery.js:44-48 | A later sighting adds its contributions to the existing entry and appends its repository. |
| ContributorDiscovery.OtherLogins | lib/people-watcher/contributor-discovery.js:35-49 | A sighting touches no other login's entry. |
| ContributorDiscovery.SkippedRepo | lib/people-watcher/contributor-discovery.js:20-55 | A malformed repository, or one whose fetch failed, changes nothing in the result. |
| ContributorDiscovery.DiscoveredEntries | lib/people-watcher/contributor-discovery.js:14-62 | The output has distinct usernames. A login has an entry exactly when some processed listing names it. |
| ContributorDiscovery.LoginsPrefix | lib/people-watcher/contributor-discovery.js:36-43 | The logins of a prefix of the sightings are a prefix of the logins, so entries come in order of first appearance. |
| ContributorDiscovery.EntriesFirst | lib/people-watcher/contributor-discovery.js:36-43 | A first sighting appends one new entry at the end and changes no other entry. |
| ContributorDiscovery.EntriesLater | lib/people-watcher/contributor-discovery.js:44-48 | A later sighting updates that login's entry in place and changes no other entry. |
| ContributorDiscovery.EntriesSum | lib/people-watcher/contributor-discovery.js:35-49 | The entries' contributions add up to the contributions of all sightings. |
| ContributorDiscovery.DiscoveredSum | lib/people-watcher/contributor-discovery.js:14-62 | The output's total contributions equal the total over every processed listing. |
| ContributorDiscovery.ReposCount | lib/people-watcher/contributor-discovery.js:37-47 | If every listing names a login at most once, its entry has as many repositories as there are processed listings naming it. |
| Scoring.ScoreCandidate | lib/people-watcher/scoring.js:12-22 | The score is always even. With non-negative contributions it is at least ten per repository. |
| Scoring.ScoreAdded | lib/people-watcher/scoring.js:12-22 | A further sighting raises the score by twice its contributions plus ten. |
| Scoring.ScoreMonotone | lib/people-watcher/scoring.js:16-19 | One more contribution adds 2 to the score, and one more repository adds 10. |
| Scoring.ScoreOfEntry | lib/people-watcher/scoring.js:12-22 | An aggregated contributor's score is the sum, over the listings naming it, of ten plus twice its contributions there. |
| Scoring.RankCandidates | lib/people-watcher/scoring.js:29-31 | Sorts the given array in place, returns that same array, and leaves it holding the stable descending sort by score of its old contents. |
| Scoring.CopyInto | lib/people-watcher/scoring.js:30 | The array ends up holding exactly the given values. |
| Scoring.RankingMeaning | lib/people-watcher/scoring.js:30 | The ranking is a permutation, non-increasing by score, that keeps the input order of equal scores. |
| Scoring.RankingUnique | lib/people-watcher/scoring.js:30 | Any order that is non-increasing by score and stable is the ranking. |
| Scoring.CandidateMarkdown | lib/people-watcher/scoring.js:38-51 | The report starts with the title, the timestamp line and the list heading. With no candidates it is that header alone. |
| Scoring.FormatCandidateMarkdown | lib/people-watcher/scoring.js:38-51 | The text built by `+=` is the header followed by the sections of the first twenty candidates. |
| Scoring.AppendSections | lib/people-watcher/scoring.js:43-48 | The loop appends one section per shown candidate, in order. |
| Scoring.AppendSection | lib/people-watcher/scoring.js:44-47 | Four `+=` append the heading with score, the contributions line, the repositories line and the profile link. |
| Scoring.SectionsInOrder | lib/people-watcher/scoring.js:43-48 | The sections are the candidates' sections one after another, in list order. |
| Scoring.MarkdownSections | lib/people-watcher/scoring.js:38-51 | The report is the header and then the sections of the first `min(20, n)` candidates, in list order. |
| Scoring.MarkdownAppend | lib/people-watcher/scoring.js:43 | Below the cap, one more candidate appends its section. |
| Scoring.MarkdownCapped | lib/people-watcher/scoring.js:43 | With twenty or more candidates, further candidates change nothing. |

## Left out

- **File and network I/O.** Left out:
  - `loadSignals` and `saveSignals` (JSON file read and write);
  - the prompt file read and write and the error rethrow in `updateSystemPrompt`. `PromptUpdater.UpdatedPrompt` takes the text already read;
  - the file read in `loadSources`. `ConfigLoader.LoadSources` takes `None` for an unreadable file;
  - `analyzeSignals`, which reads the prompt file and calls the remote model API.
- **Repository listings are inputs.** The Octokit call in `discoverContributors` is not modelled. Each repository's listing is an input `Fetch`, where `None` stands for a failed request that the `catch` skips.
- **Files outside this model.** `lib/signal-intel/sources.js`, `lib/signal-intel/github-utils.js` and `lib/shared/state-manager.js` are not part of this model. They are wrappers over HTTP, the GitHub API and git.
- **Clock and timestamps are parameters.** `Date.now()` is the parameter `now` in milliseconds. `new Date(...).getTime()` is a stored `Option<int>`, where `None` is the `NaN` of an unparseable string. `toISOString()` is a `timestamp` string parameter.
- **Not modelled at all:** console logging, and races between overlapping runs on the state files.
- **Candidate scores are given.** The caller that stores `scoreCandidate`'s value in a candidate's `score` field is not part of this model. `Scoring.Candidate` pairs a contributor with the score a caller set.
- ReactionAnalyzer.AnalyzeReactions: the lists are sequence values. The in-place `sort` of `liked` and `disliked` is modelled by the sorted value assigned back, not as an array update.
- PromptUpdater.ExtractTitle: the 100-character cut of `substring(0, 100)` counts code points, not UTF-16 code units. A first line of 60 emoji keeps all 60 here, while JavaScript keeps 50, and a JavaScript cut can split a surrogate pair.
- ContributorDiscovery.ReposCount: assumes each listing names a login at most once, as a repository's contributor listing does. A listing with a repeated login would append that repository twice.
- **JavaScript strings and numbers.**
  - Strings are sequences of Dafny `char`, which are Unicode scalar values. JavaScript strings are sequences of UTF-16 code units, so a character outside the Basic Multilingual Plane is one `char` here and two units there.
  - Case folding for the `i` flag is ASCII-only, as for a non-Unicode regular expression.
  - Numbers are unbounded integers. Fractional or non-finite contribution counts and scores are not modelled.
  - `topN` is a natural number: negative `slice` arguments are not modelled.
