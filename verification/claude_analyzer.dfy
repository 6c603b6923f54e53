/**
 * The response side of the signal analyzer (lib/signal-intel/claude-analyzer.js): the prompt
 * listing of candidate signals, and the extraction of the chosen signals from the model's reply
 * by the `URL:` lines it contains.
 */
module ClaudeAnalyzer {
  import opened Wrappers
  import Seqs
  import opened Text

  /** A candidate signal; `score` is absent (or not a number) for sources without one. */
  datatype Signal = Signal(title: string, url: string, source: string, score: Option<int>)

  /** A signal as returned by `parseClaudeResponse`: the original, the analysis text and the flag. */
  datatype Selection = Selection(signal: Signal, analysis: string, selected: bool)

  const FallbackAnalysis := "Claude analysis failed to parse. Fallback selection."

  // ---------------------------------------------------------------------------------------------
  // The pattern /URL:\s*(https?:\/\/[^\s]+)/gi

  /** ASCII lower-casing: the only case folding a non-Unicode `i` regular expression performs. */
  function LowerAscii(c: char): char {
    if 'A' <= c <= 'Z' then (c as int + 32) as char else c
  }

  /** `s` holds `pat` at `i`, ignoring ASCII case (`pat` is written in lower case). */
  predicate OccursFoldedAt(s: string, pat: string, i: int) {
    0 <= i && i + |pat| <= |s| && forall k :: 0 <= k < |pat| ==> LowerAscii(s[i + k]) == pat[k]
  }

  /** One character of a case-insensitive occurrence. */
  lemma FoldedAt(s: string, pat: string, i: int, j: int)
    requires OccursFoldedAt(s, pat, i) && 0 <= j < |pat|
    ensures LowerAscii(s[i + j]) == pat[j]
  {
  }

  /** Folding never turns a whitespace character into a letter: a folded scheme holds no whitespace. */
  lemma SchemeNoSpace(s: string, pat: string, i: int)
    requires pat == "https://" || pat == "http://"
    requires OccursFoldedAt(s, pat, i)
    ensures forall j :: i <= j < i + |pat| ==> !IsSpace(s[j])
  {
    forall j | i <= j < i + |pat|
      ensures !IsSpace(s[j])
    {
      FoldedAt(s, pat, i, j - i);
    }
  }

  /** The end of the run of `\s` characters starting at `i`. */
  function SpaceRunEnd(s: string, i: nat): (j: nat)
    requires i <= |s|
    ensures i <= j <= |s|
    ensures forall k :: i <= k < j ==> IsSpace(s[k])
    ensures j == |s| || !IsSpace(s[j])
    decreases |s| - i
  {
    if i < |s| && IsSpace(s[i]) then SpaceRunEnd(s, i + 1) else i
  }

  /** The end of the run of `[^\s]` characters starting at `i`. */
  function WordRunEnd(s: string, i: nat): (j: nat)
    requires i <= |s|
    ensures i <= j <= |s|
    ensures forall k :: i <= k < j ==> !IsSpace(s[k])
    ensures j == |s| || IsSpace(s[j])
    decreases |s| - i
  {
    if i < |s| && !IsSpace(s[i]) then WordRunEnd(s, i + 1) else i
  }

  /** The length of the scheme `https://` or `http://` (in any ASCII case) at `k`, or 0 when there is none. */
  function SchemeLength(s: string, k: nat): (n: nat)
    ensures n == 0 || n == 7 || n == 8
  {
    if OccursFoldedAt(s, "https://", k) then 8
    else if OccursFoldedAt(s, "http://", k) then 7
    else 0
  }

  /** A match of the pattern: where it ends and the URL it captures. */
  datatype UrlMatch = UrlMatch(end: nat, url: string)

  /** The match of the pattern starting exactly at `i`, if there is one. */
  function UrlMatchAt(s: string, i: nat): Option<UrlMatch>
    requires i <= |s|
  {
    if !OccursFoldedAt(s, "url:", i) then None
    else
      var k := SpaceRunEnd(s, i + 4);
      var n := SchemeLength(s, k);
      if n == 0 then None
      else
        var e := WordRunEnd(s, k + n);
        if e == k + n then None else Some(UrlMatch(e, s[k..e]))
  }

  /**
   * One way the pattern can succeed at `i`: `URL:` (any case), whitespace up to `k`, a scheme
   * of `n` characters, and non-whitespace up to `e`, with the group spanning `k` to `e`.
   */
  predicate PatternMatch(s: string, i: int, k: int, n: int, e: int) {
    OccursFoldedAt(s, "url:", i) && i + 4 <= k
    && ((n == 8 && OccursFoldedAt(s, "https://", k)) || (n == 7 && OccursFoldedAt(s, "http://", k)))
    && k + n < e <= |s|
    && (forall j :: i + 4 <= j < k ==> IsSpace(s[j]))
    && (forall j :: k + n <= j < e ==> !IsSpace(s[j]))
  }

  /**
   * The match agrees with the pattern's meaning: it exists exactly when the pattern can succeed
   * at `i`, and its URL is the group of the success whose `[^\s]+` reaches furthest.
   */
  lemma UrlMatchAtMeaning(s: string, i: nat)
    requires i <= |s|
    ensures UrlMatchAt(s, i).Some? <==> exists k, n, e :: PatternMatch(s, i, k, n, e)
    ensures UrlMatchAt(s, i).Some? ==>
      exists k, n :: PatternMatch(s, i, k, n, UrlMatchAt(s, i).value.end)
        && UrlMatchAt(s, i).value.url == s[k..UrlMatchAt(s, i).value.end]
        && forall k', n', e' :: PatternMatch(s, i, k', n', e') ==> k' == k && n' == n && e' <= UrlMatchAt(s, i).value.end
  {
    if UrlMatchAt(s, i).Some? {
      UrlMatchAtGreedy(s, i);
    } else {
      UrlMatchAtNone(s, i);
    }
  }

  /** A match found at `i` is a success of the pattern, and every success agrees with it and ends no later. */
  lemma UrlMatchAtGreedy(s: string, i: nat)
    requires i <= |s| && UrlMatchAt(s, i).Some?
    ensures var m := UrlMatchAt(s, i).value;
      var k0 := SpaceRunEnd(s, i + 4);
      var n0 := SchemeLength(s, k0);
      PatternMatch(s, i, k0, n0, m.end) && m.url == s[k0..m.end]
      && forall k', n', e' :: PatternMatch(s, i, k', n', e') ==> k' == k0 && n' == n0 && e' <= m.end
  {
    forall k, n, e | PatternMatch(s, i, k, n, e)
      ensures k == SpaceRunEnd(s, i + 4) && n == SchemeLength(s, k) && e <= WordRunEnd(s, k + n)
    {
      PatternMatchDetermined(s, i, k, n, e);
    }
  }

  /** Without a match at `i`, the pattern cannot succeed there. */
  lemma UrlMatchAtNone(s: string, i: nat)
    requires i <= |s| && UrlMatchAt(s, i).None?
    ensures forall k, n, e :: !PatternMatch(s, i, k, n, e)
  {
    forall k, n, e | PatternMatch(s, i, k, n, e)
      ensures false
    {
      PatternMatchDetermined(s, i, k, n, e);
    }
  }

  /** Whitespace runs and schemes leave no choice: a success fixes where the scheme starts and how long it is. */
  lemma PatternMatchDetermined(s: string, i: nat, k: int, n: int, e: int)
    requires i <= |s| && PatternMatch(s, i, k, n, e)
    ensures k == SpaceRunEnd(s, i + 4) && n == SchemeLength(s, k) && e <= WordRunEnd(s, k + n)
  {
    if n == 8 {
      FoldedAt(s, "https://", k, 0);
    } else {
      FoldedAt(s, "http://", k, 0);
      FoldedAt(s, "http://", k, 4);
      if OccursFoldedAt(s, "https://", k) {
        FoldedAt(s, "https://", k, 4);
      }
    }
  }

  /** `urlPattern.exec(s)` with `lastIndex == from`: the leftmost match at or after `from`. */
  function NextMatch(s: string, from: nat): (m: Option<UrlMatch>)
    requires from <= |s| + 1
    ensures m.Some? ==> from < m.value.end <= |s|
    decreases |s| + 1 - from
  {
    if from > |s| then None
    else
      match UrlMatchAt(s, from)
      case Some(m) => Some(m)
      case None => NextMatch(s, from + 1)
  }

  /**
   * `exec` finds the leftmost match: a result is the match at some position at or after `from`
   * with no match before it, and `None` means that no position at or after `from` matches.
   */
  lemma {:induction false} NextMatchLeftmost(s: string, from: nat)
    requires from <= |s| + 1
    ensures NextMatch(s, from).None? <==> forall i :: from <= i <= |s| ==> UrlMatchAt(s, i).None?
    ensures NextMatch(s, from).Some? ==>
      exists i :: from <= i <= |s| && NextMatch(s, from) == UrlMatchAt(s, i)
        && forall j :: from <= j < i ==> UrlMatchAt(s, j).None?
    decreases |s| + 1 - from
  {
    if from <= |s| {
      var here := UrlMatchAt(s, from);
      if here.None? {
        assert NextMatch(s, from) == NextMatch(s, from + 1);
        NextMatchLeftmost(s, from + 1);
        if NextMatch(s, from).Some? {
          var i :| from + 1 <= i <= |s| && NextMatch(s, from + 1) == UrlMatchAt(s, i)
            && forall j :: from + 1 <= j < i ==> UrlMatchAt(s, j).None?;
          forall j | from <= j < i
            ensures UrlMatchAt(s, j).None?
          {
            if j == from {
              assert UrlMatchAt(s, j) == here;
            }
          }
        } else {
          forall j | from <= j <= |s|
            ensures UrlMatchAt(s, j).None?
          {
            if j == from {
              assert UrlMatchAt(s, j) == here;
            }
          }
        }
      } else {
        assert NextMatch(s, from) == here;
      }
    }
  }

  /** The URLs the `while (exec)` loop collects from `from` on: matches do not overlap. */
  function UrlsFrom(s: string, from: nat): seq<string>
    requires from <= |s| + 1
    decreases |s| + 1 - from
  {
    match NextMatch(s, from)
    case None => []
    case Some(m) => [m.url] + UrlsFrom(s, m.end)
  }

  /** Every captured URL starts with `http://` or `https://` in some case, and holds no whitespace. */
  predicate UrlShaped(u: string) {
    ((OccursFoldedAt(u, "https://", 0) && |u| > 8) || (OccursFoldedAt(u, "http://", 0) && |u| > 7))
    && forall j :: 0 <= j < |u| ==> !IsSpace(u[j])
  }

  lemma UrlMatchAtShaped(s: string, i: nat)
    requires i <= |s| && UrlMatchAt(s, i).Some?
    ensures UrlShaped(UrlMatchAt(s, i).value.url)
  {
    var k := SpaceRunEnd(s, i + 4);
    var n := SchemeLength(s, k);
    var e := WordRunEnd(s, k + n);
    var u := s[k..e];
    assert UrlMatchAt(s, i) == Some(UrlMatch(e, u));
    assert |u| > n;
    assert forall j :: 0 <= j < |u| ==> u[j] == s[k + j];
    if n == 8 {
      SchemeNoSpace(s, "https://", k);
      assert OccursFoldedAt(u, "https://", 0);
    } else {
      SchemeNoSpace(s, "http://", k);
      assert OccursFoldedAt(u, "http://", 0);
    }
  }

  lemma {:induction false} NextMatchShaped(s: string, from: nat)
    requires from <= |s| + 1 && NextMatch(s, from).Some?
    ensures UrlShaped(NextMatch(s, from).value.url)
    decreases |s| + 1 - from
  {
    if UrlMatchAt(s, from).Some? {
      UrlMatchAtShaped(s, from);
    } else {
      NextMatchShaped(s, from + 1);
    }
  }

  /** All extracted URLs are URL-shaped, so the `trim()` applied to each changes nothing. */
  lemma {:induction false} UrlsFromShaped(s: string, from: nat)
    requires from <= |s| + 1
    ensures forall j :: 0 <= j < |UrlsFrom(s, from)| ==> UrlShaped(UrlsFrom(s, from)[j]) && Trim(UrlsFrom(s, from)[j]) == UrlsFrom(s, from)[j]
    decreases |s| + 1 - from
  {
    match NextMatch(s, from)
    case None =>
    case Some(m) =>
      NextMatchShaped(s, from);
      UrlsFromShaped(s, m.end);
      TrimUnchanged(m.url);
  }

  // ---------------------------------------------------------------------------------------------
  // Selecting the signals

  /** `originalSignals.find((s) => s.url === url)`: the first signal with that URL. */
  function FindByUrl(signals: seq<Signal>, url: string): (r: Option<Signal>)
    ensures r.Some? ==> exists i :: (0 <= i < |signals| && signals[i] == r.value && r.value.url == url
      && forall j :: 0 <= j < i ==> signals[j].url != url)
    ensures r.None? <==> forall j :: 0 <= j < |signals| ==> signals[j].url != url
    decreases |signals|
  {
    if signals == [] then None
    else if signals[0].url == url then Some(signals[0])
    else
      var r := FindByUrl(signals[1..], url);
      assert forall j :: 1 <= j < |signals| ==> signals[j] == signals[1..][j - 1];
      r
  }

  /** The selections for `urls`, in order, skipping URLs no signal has. */
  function Selected(urls: seq<string>, signals: seq<Signal>, text: string): (r: seq<Selection>)
    ensures |r| <= |urls|
    ensures forall j :: 0 <= j < |r| ==> r[j].selected && r[j].analysis == text && r[j].signal in signals
    decreases |urls|
  {
    if urls == [] then []
    else
      Selected(urls[..|urls| - 1], signals, text)
      + match FindByUrl(signals, urls[|urls| - 1])
        case Some(s) => [Selection(s, text, true)]
        case None => []
  }

  /** The fallback: the first `topN` signals, flagged with the fixed analysis text. */
  function Fallback(signals: seq<Signal>): (r: seq<Selection>)
    ensures |r| == |signals|
    ensures forall j :: 0 <= j < |r| ==> r[j] == Selection(signals[j], FallbackAnalysis, true)
  {
    seq(|signals|, j requires 0 <= j < |signals| => Selection(signals[j], FallbackAnalysis, true))
  }

  /** What `parseClaudeResponse(text, signals, topN)` returns. */
  function ParseResponse(text: string, signals: seq<Signal>, topN: nat): (r: seq<Selection>)
    ensures |r| <= topN
    ensures forall j :: 0 <= j < |r| ==> r[j].selected && r[j].signal in signals
  {
    var chosen := Selected(Seqs.Take(UrlsFrom(text, 0), topN), signals, text);
    if chosen == [] then Fallback(Seqs.Take(signals, topN)) else chosen
  }

  /** `parseClaudeResponse`: collect the URLs, look up the first `topN`, fall back when none is known. */
  method ParseClaudeResponse(responseText: string, originalSignals: seq<Signal>, topN: nat)
    returns (topSignals: seq<Selection>)
    ensures topSignals == ParseResponse(responseText, originalSignals, topN)
  {
    var urls := CollectUrls(responseText);
    topSignals := SelectSignals(Seqs.Take(urls, topN), originalSignals, responseText);
    if |topSignals| == 0 {
      topSignals := FallbackSignals(Seqs.Take(originalSignals, topN));
    }
  }

  /** The `while ((match = urlPattern.exec(responseText)) !== null)` loop, pushing each trimmed group. */
  method CollectUrls(responseText: string) returns (urls: seq<string>)
    ensures urls == UrlsFrom(responseText, 0)
  {
    urls := [];
    var lastIndex: nat := 0;
    var match_ := NextMatch(responseText, lastIndex);
    while match_.Some?
      invariant lastIndex <= |responseText|
      invariant match_ == NextMatch(responseText, lastIndex)
      invariant urls + UrlsFrom(responseText, lastIndex) == UrlsFrom(responseText, 0)
      decreases |responseText| - lastIndex
    {
      var m := match_.value;
      NextMatchShaped(responseText, lastIndex);
      TrimUnchanged(m.url);
      Seqs.AppendAssoc(urls, [m.url], UrlsFrom(responseText, m.end));
      urls := urls + [Trim(m.url)];
      lastIndex := m.end;
      match_ := NextMatch(responseText, lastIndex);
    }
  }

  /** The `for (const url of urls.slice(0, topN))` loop. */
  method SelectSignals(urls: seq<string>, originalSignals: seq<Signal>, responseText: string)
    returns (topSignals: seq<Selection>)
    ensures topSignals == Selected(urls, originalSignals, responseText)
  {
    topSignals := [];
    for i := 0 to |urls|
      invariant topSignals == Selected(urls[..i], originalSignals, responseText)
    {
      assert urls[..i + 1][..i] == urls[..i];
      var originalSignal := FindByUrl(originalSignals, urls[i]);
      if originalSignal.Some? {
        topSignals := topSignals + [Selection(originalSignal.value, responseText, true)];
      }
    }
    assert urls[..|urls|] == urls;
  }

  /** The fallback `map` over `originalSignals.slice(0, topN)`. */
  method FallbackSignals(signals: seq<Signal>) returns (r: seq<Selection>)
    ensures r == Fallback(signals)
  {
    r := [];
    for i := 0 to |signals|
      invariant r == Fallback(signals[..i])
    {
      r := r + [Selection(signals[i], FallbackAnalysis, true)];
    }
    assert signals[..|signals|] == signals;
  }

  /** A URL that some signal has. */
  predicate Known(signals: seq<Signal>, url: string) {
    FindByUrl(signals, url).Some?
  }

  /**
   * The selections follow the URLs in order: one per known URL, each the first signal with that
   * URL, with the response text as analysis; unknown URLs are skipped.
   */
  lemma {:induction false} SelectedFollowsUrls(urls: seq<string>, signals: seq<Signal>, text: string)
    ensures |Selected(urls, signals, text)| == |Seqs.Filter(urls, u => Known(signals, u))|
    ensures forall j :: 0 <= j < |Selected(urls, signals, text)| ==>
      var u := Seqs.Filter(urls, u => Known(signals, u))[j];
      Selected(urls, signals, text)[j] == Selection(FindByUrl(signals, u).value, text, true)
    decreases |urls|
  {
    if urls != [] {
      var init := urls[..|urls| - 1];
      SelectedFollowsUrls(init, signals, text);
    }
  }

  /**
   * The result never exceeds `topN`; when some considered URL is known it is the selections for
   * the first `topN` URLs, and otherwise the first `min(topN, |signals|)` signals flagged as the fallback.
   */
  lemma ParseResponseShape(text: string, signals: seq<Signal>, topN: nat)
    ensures |ParseResponse(text, signals, topN)| <= topN
    ensures var considered := Seqs.Take(UrlsFrom(text, 0), topN);
      if exists j :: 0 <= j < |considered| && Known(signals, considered[j])
      then ParseResponse(text, signals, topN) == Selected(considered, signals, text)
      else ParseResponse(text, signals, topN) == Fallback(Seqs.Take(signals, topN))
  {
    var considered := Seqs.Take(UrlsFrom(text, 0), topN);
    SelectedFollowsUrls(considered, signals, text);
    Seqs.FilterFirst(considered, u => Known(signals, u));
  }

  // ---------------------------------------------------------------------------------------------
  // The prompt listing

  /** ` (score: n)` for a present, non-zero score; nothing otherwise (the falsy cases). */
  function ScoreSuffix(score: Option<int>): string {
    if score.Some? && score.value != 0 then " (score: " + IntToString(score.value) + ")" else ""
  }

  /** The block for the `number`-th signal: a numbered title line and an indented URL line. */
  function SignalBlock(number: nat, s: Signal): string {
    NatToString(number) + ". [" + s.source + "] " + s.title + ScoreSuffix(s.score) + "\n   URL: " + s.url
  }

  /** The blocks of `signals`, numbered from 1. */
  function Blocks(signals: seq<Signal>): (r: seq<string>)
    ensures |r| == |signals|
    ensures forall j :: 0 <= j < |signals| ==> r[j] == SignalBlock(j + 1, signals[j])
  {
    seq(|signals|, j requires 0 <= j < |signals| => SignalBlock(j + 1, signals[j]))
  }

  /** `formatSignalsForClaude`: the numbered blocks joined by blank lines. */
  function FormatSignalsForClaude(signals: seq<Signal>): (text: string)
    ensures text == [] <==> signals == []
    ensures signals != [] ==> StartsWith(text, SignalBlock(1, signals[0]))
  {
    Join(Blocks(signals), "\n\n")
  }

  /** Appending a signal appends its block, numbered one past the others, after a blank line. */
  lemma {:induction false} FormatAppend(signals: seq<Signal>, s: Signal)
    ensures FormatSignalsForClaude(signals + [s]) ==
      if signals == [] then SignalBlock(1, s)
      else FormatSignalsForClaude(signals) + "\n\n" + SignalBlock(|signals| + 1, s)
  {
    var b := Blocks(signals + [s]);
    assert b == Blocks(signals) + [SignalBlock(|signals| + 1, s)];
    JoinSnoc(Blocks(signals), SignalBlock(|signals| + 1, s), "\n\n");
  }

  /** Joining one more part adds the separator and the part. */
  lemma {:induction false} JoinSnoc(parts: seq<string>, x: string, sep: string)
    ensures Join(parts + [x], sep) == if parts == [] then x else Join(parts, sep) + sep + x
    decreases |parts|
  {
    if |parts| > 1 {
      assert (parts + [x])[1..] == parts[1..] + [x];
      JoinSnoc(parts[1..], x, sep);
    } else if |parts| == 1 {
      assert (parts + [x])[1..] == [x];
    }
  }

  /** The score suffix shows a score exactly when it is present and non-zero. */
  lemma ScoreSuffixShown(score: Option<int>)
    ensures ScoreSuffix(score) == [] <==> score.None? || score.value == 0
  {
  }
}
