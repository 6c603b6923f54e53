/**
 * The system-prompt updater (lib/rlhf/prompt-updater.js): learned preferences become a text
 * section that replaces, or is appended as, the part of the prompt after a fixed marker line.
 */
module PromptUpdater {
  import opened Wrappers
  import Seqs
  import opened Text
  import opened ReactionAnalyzer

  /** The heading that starts the learned-preferences section of the prompt. */
  const Marker := "## RLHF Learned Preferences"

  /** The text put between the prompt and a newly appended marker, and between the marker and the section. */
  const Gap := "\n\n"

  // ---------------------------------------------------------------------------------------------
  // Locating the marker

  /** `s.indexOf(pat, from)`: the first occurrence of `pat` at or after `from`. */
  function FindFrom(s: string, pat: string, from: nat): (r: Option<nat>)
    ensures r.Some? ==> from <= r.value && OccursAt(s, pat, r.value)
    ensures forall j :: from <= j && (r.None? || j < r.value) ==> !OccursAt(s, pat, j)
    decreases |s| - from
  {
    if from + |pat| > |s| then None
    else if OccursAt(s, pat, from) then Some(from)
    else FindFrom(s, pat, from + 1)
  }

  /** A marker line: non-empty and without a newline. */
  predicate ValidMarker(marker: string) {
    marker != [] && forall k :: 0 <= k < |marker| ==> marker[k] != '\n'
  }

  lemma MarkerIsValid()
    ensures ValidMarker(Marker)
  {
  }

  /**
   * The prompt that `updateSystemPrompt` writes back, for a given marker: with the marker
   * present, everything from its first occurrence on is replaced; otherwise the marker and the
   * section are appended after a blank line.
   */
  function Merge(marker: string, existing: string, section: string): (merged: string)
    ensures StartsWith(merged, Kept(marker, existing))
    ensures EndsWith(merged, marker + Gap + section)
  {
    Framed(Kept(marker, existing), [], marker + Gap + section);
    match FindFrom(existing, marker, 0)
    case Some(i) => existing[..i] + marker + Gap + section
    case None => existing + Gap + marker + Gap + section
  }

  /** The text a merge keeps in front of the marker. */
  function Kept(marker: string, existing: string): string {
    match FindFrom(existing, marker, 0)
    case Some(i) => existing[..i]
    case None => existing + Gap
  }

  /** A marker contains no newline, so no occurrence of it can cover a newline. */
  lemma NoMarkerOverNewline(marker: string, t: string, k: int, j: int)
    requires ValidMarker(marker)
    requires 0 <= k < |t| && t[k] == '\n'
    requires j <= k < j + |marker|
    ensures !OccursAt(t, marker, j)
  {
  }

  /** The first occurrence of `marker` in `t` is at `i` when it occurs there and nowhere before. */
  lemma FirstOccurrenceAt(marker: string, t: string, i: nat)
    requires OccursAt(t, marker, i)
    requires forall j :: 0 <= j < i ==> !OccursAt(t, marker, j)
    ensures FindFrom(t, marker, 0) == Some(i)
  {
  }

  /** With the marker present, the merge keeps the text in front of its first occurrence. */
  lemma MergeAtFound(marker: string, existing: string, section: string, i: nat)
    requires ValidMarker(marker) && FindFrom(existing, marker, 0) == Some(i)
    ensures FindFrom(existing[..i] + marker + Gap + section, marker, 0) == Some(i)
  {
    var r := existing[..i] + marker + Gap + section;
    assert r == existing[..i] + (marker + Gap + section);
    assert r[i..i + |marker|] == marker;
    assert r[..i + |marker|] == existing[..i + |marker|] by {
      assert existing[i..i + |marker|] == marker;
      assert r[..i + |marker|] == existing[..i] + marker;
    }
    forall j | 0 <= j < i
      ensures !OccursAt(r, marker, j)
    {
      assert !OccursAt(existing, marker, j);
      OccursInCommonPrefix(r, existing, i + |marker|, marker, j);
    }
    FirstOccurrenceAt(marker, r, i);
  }

  /** Two strings with a common prefix hold the same occurrences inside it. */
  lemma OccursInCommonPrefix(a: string, b: string, n: nat, pat: string, j: nat)
    requires n <= |a| && n <= |b| && a[..n] == b[..n] && j + |pat| <= n
    ensures OccursAt(a, pat, j) <==> OccursAt(b, pat, j)
  {
    assert a[j..j + |pat|] == a[..n][j..j + |pat|];
    assert b[j..j + |pat|] == b[..n][j..j + |pat|];
  }

  /** With the marker absent, the appended marker is the first one: nothing before it can be one. */
  lemma MergeAtMissing(marker: string, existing: string, section: string)
    requires ValidMarker(marker) && FindFrom(existing, marker, 0).None?
    ensures FindFrom(existing + Gap + marker + Gap + section, marker, 0) == Some(|existing| + |Gap|)
  {
    var e := existing;
    var tail := marker + Gap + section;
    var r := e + Gap + marker + Gap + section;
    assert r == e + (Gap + tail);
    assert r[|e| + |Gap|..|e| + |Gap| + |marker|] == marker;
    forall j | 0 <= j < |e| + |Gap|
      ensures !OccursAt(r, marker, j)
    {
      if j + |marker| <= |e| {
        OccursInLeft(e, Gap + tail, marker, j);
      } else if j <= |e| {
        NoMarkerOverNewline(marker, r, |e|, j);
      } else {
        NoMarkerOverNewline(marker, r, |e| + 1, j);
      }
    }
    FirstOccurrenceAt(marker, r, |e| + |Gap|);
  }

  /**
   * After a merge, the first marker of the prompt is the one just in front of the new section:
   * the kept text comes first, then the marker, a blank line and the section.
   */
  lemma MergeFirstMarker(marker: string, existing: string, section: string)
    requires ValidMarker(marker)
    ensures Merge(marker, existing, section) == Kept(marker, existing) + marker + Gap + section
    ensures FindFrom(Merge(marker, existing, section), marker, 0) == Some(|Kept(marker, existing)|)
  {
    match FindFrom(existing, marker, 0)
    case Some(i) => MergeAtFound(marker, existing, section, i);
    case None =>
      MergeAtMissing(marker, existing, section);
      assert existing + Gap + marker + Gap + section == (existing + Gap) + marker + Gap + section;
  }

  /** Updating again replaces the previous section: only the latest section survives. */
  lemma MergeReplaces(marker: string, existing: string, s1: string, s2: string)
    requires ValidMarker(marker)
    ensures Merge(marker, Merge(marker, existing, s1), s2) == Merge(marker, existing, s2)
  {
    MergeFirstMarker(marker, existing, s1);
    MergeFirstMarker(marker, existing, s2);
    var r := Merge(marker, existing, s1);
    var p := Kept(marker, existing);
    assert r[..|p|] == p;
  }

  /** Everything in front of the first marker of the old prompt is kept unchanged. */
  lemma MergeKeepsPreamble(marker: string, existing: string, section: string)
    requires ValidMarker(marker)
    ensures FindFrom(existing, marker, 0).Some? ==>
      StartsWith(Merge(marker, existing, section), existing[..FindFrom(existing, marker, 0).value])
    ensures FindFrom(existing, marker, 0).None? ==> StartsWith(Merge(marker, existing, section), existing)
  {
    MergeFirstMarker(marker, existing, section);
    var r := Merge(marker, existing, section);
    if FindFrom(existing, marker, 0).None? {
      assert r[..|existing|] == existing;
    } else {
      var i := FindFrom(existing, marker, 0).value;
      assert r[..i] == existing[..i];
    }
  }

  /**
   * A section without the marker leaves exactly one marker in the merged prompt, so later
   * updates cut at the right place.
   */
  lemma {:induction false} MergeSingleMarker(marker: string, existing: string, section: string)
    requires ValidMarker(marker)
    requires forall j :: !OccursAt(section, marker, j)
    ensures forall j :: OccursAt(Merge(marker, existing, section), marker, j) <==> j == |Kept(marker, existing)|
  {
    MergeFirstMarker(marker, existing, section);
    var r := Merge(marker, existing, section);
    var p := Kept(marker, existing);
    var off := |p| + |marker| + |Gap|;
    assert r == (p + marker + Gap) + section;
    forall j | OccursAt(r, marker, j)
      ensures j == |p|
    {
      if j > |p| {
        if j <= |p| + |marker| {
          NoMarkerOverNewline(marker, r, |p| + |marker|, j);
        } else if j < off {
          NoMarkerOverNewline(marker, r, |p| + |marker| + 1, j);
        } else {
          OccursInRight(p + marker + Gap, section, marker, j - off);
        }
      }
    }
  }

  /** `updateSystemPrompt` once the prompt file has been read: the text it writes and returns. */
  function UpdatedPrompt(existing: string, p: Preferences): (updated: string)
    ensures StartsWith(updated, Kept(Marker, existing))
    ensures EndsWith(updated, Marker + Gap + PreferenceText(p))
  {
    Merge(Marker, existing, PreferenceText(p))
  }

  /**
   * Running the updater twice leaves only the second run's preferences behind the marker, and
   * the updated prompt is the kept text, the marker, a blank line and the preference text.
   */
  lemma UpdateReplaces(existing: string, p: Preferences, q: Preferences)
    ensures UpdatedPrompt(UpdatedPrompt(existing, p), q) == UpdatedPrompt(existing, q)
    ensures UpdatedPrompt(existing, q) == Kept(Marker, existing) + Marker + Gap + PreferenceText(q)
  {
    MarkerIsValid();
    MergeReplaces(Marker, existing, PreferenceText(p), PreferenceText(q));
    MergeFirstMarker(Marker, existing, PreferenceText(q));
  }

  // ---------------------------------------------------------------------------------------------
  // Titles: `## Signal <digits>: <title>`, else the first non-blank line, else the first 100 characters

  const SignalPrefix := "## Signal "
  const TitleLimit := 100

  /** The end of the run of digits that starts at `i`. */
  function DigitRunEnd(s: string, i: nat): (j: nat)
    requires i <= |s|
    ensures i <= j <= |s|
    ensures forall k :: i <= k < j ==> IsDigit(s[k])
    ensures j == |s| || !IsDigit(s[j])
    decreases |s| - i
  {
    if i < |s| && IsDigit(s[i]) then DigitRunEnd(s, i + 1) else i
  }

  /** The end of the run of characters that the regular-expression `.` matches, starting at `i`. */
  function LineRunEnd(s: string, i: nat): (j: nat)
    requires i <= |s|
    ensures i <= j <= |s|
    ensures forall k :: i <= k < j ==> !IsLineTerminator(s[k])
    ensures j == |s| || IsLineTerminator(s[j])
    decreases |s| - i
  {
    if i < |s| && !IsLineTerminator(s[i]) then LineRunEnd(s, i + 1) else i
  }

  /**
   * The pattern `## Signal \d+: (.+)` matched at `i` with the digits ending at `d` and the
   * captured group ending at `e`: one way the regular expression can succeed there.
   */
  predicate SignalMatch(s: string, i: int, d: int, e: int) {
    OccursAt(s, SignalPrefix, i) && i + |SignalPrefix| < d && OccursAt(s, ": ", d)
    && d + 2 < e <= |s|
    && (forall k :: i + |SignalPrefix| <= k < d ==> IsDigit(s[k]))
    && (forall k :: d + 2 <= k < e ==> !IsLineTerminator(s[k]))
  }

  /** The group the pattern captures when matched at `i` (greedy `\d+` and `.+`), if it matches there. */
  function SignalCaptureAt(s: string, i: nat): Option<string>
    requires i <= |s|
  {
    if !OccursAt(s, SignalPrefix, i) then None
    else
      var d := DigitRunEnd(s, i + |SignalPrefix|);
      if d == i + |SignalPrefix| || !OccursAt(s, ": ", d) then None
      else
        var e := LineRunEnd(s, d + 2);
        if e == d + 2 then None else Some(s[d + 2..e])
  }

  /**
   * The capture agrees with the pattern's meaning: it exists exactly when some match starts at
   * `i`, and it is the group of the match whose `.+` reaches furthest (the one backtracking finds).
   */
  lemma SignalCaptureAtMeaning(s: string, i: nat)
    requires i <= |s|
    ensures SignalCaptureAt(s, i).Some? <==> exists d, e :: SignalMatch(s, i, d, e)
    ensures SignalCaptureAt(s, i).Some? ==>
      exists d, e :: SignalMatch(s, i, d, e) && SignalCaptureAt(s, i).value == s[d + 2..e]
        && forall d', e' :: SignalMatch(s, i, d', e') ==> d' == d && e' <= e
  {
    var start := i + |SignalPrefix|;
    if OccursAt(s, SignalPrefix, i) {
      var d0 := DigitRunEnd(s, start);
      forall d, e | SignalMatch(s, i, d, e)
        ensures d == d0 && e <= LineRunEnd(s, d0 + 2)
      {
        assert s[d] == ':' by { assert s[d..d + 2][0] == s[d]; }
      }
      if d0 > start && OccursAt(s, ": ", d0) {
        var e0 := LineRunEnd(s, d0 + 2);
        if e0 > d0 + 2 {
          assert SignalMatch(s, i, d0, e0);
        }
      }
    }
  }

  /** The capture of the leftmost match at or after `from`: what `content.match(...)[1]` gives. */
  function FirstSignalCapture(s: string, from: nat): (r: Option<string>)
    requires from <= |s| + 1
    decreases |s| + 1 - from
  {
    if from > |s| then None
    else
      match SignalCaptureAt(s, from)
      case Some(c) => Some(c)
      case None => FirstSignalCapture(s, from + 1)
  }

  /** The regular expression returns the capture of its leftmost match, and nothing when no position matches. */
  lemma {:induction false} FirstSignalCaptureLeftmost(s: string, from: nat)
    requires from <= |s| + 1
    ensures FirstSignalCapture(s, from).None? <==> forall i :: from <= i <= |s| ==> SignalCaptureAt(s, i).None?
    ensures FirstSignalCapture(s, from).Some? ==>
      exists i :: from <= i <= |s| && FirstSignalCapture(s, from) == SignalCaptureAt(s, i)
        && forall j :: from <= j < i ==> SignalCaptureAt(s, j).None?
    decreases |s| + 1 - from
  {
    if from <= |s| {
      var here := SignalCaptureAt(s, from);
      if here.None? {
        assert FirstSignalCapture(s, from) == FirstSignalCapture(s, from + 1);
        FirstSignalCaptureLeftmost(s, from + 1);
        if FirstSignalCapture(s, from).Some? {
          var i :| from + 1 <= i <= |s| && FirstSignalCapture(s, from + 1) == SignalCaptureAt(s, i)
            && forall j :: from + 1 <= j < i ==> SignalCaptureAt(s, j).None?;
          assert forall j :: from <= j < i ==> SignalCaptureAt(s, j).None?;
        } else {
          assert forall i :: from <= i <= |s| ==> SignalCaptureAt(s, i).None?;
        }
      } else {
        assert FirstSignalCapture(s, from) == here;
      }
    }
  }

  /** A line that survives `filter((l) => l.trim())`. */
  predicate NonBlank(line: string) {
    Trim(line) != []
  }

  /** The non-blank lines of `content`, in order. */
  function NonBlankLines(content: string): seq<string> {
    Seqs.Filter(Split(content, '\n'), NonBlank)
  }

  /** `extractTitle`: the signal title, else the first non-blank line (trimmed, at most 100 characters), else a 100-character prefix. */
  function ExtractTitle(content: string): (title: string)
    ensures FirstSignalCapture(content, 0).None? ==> |title| <= TitleLimit
    ensures FirstSignalCapture(content, 0).Some? ==> title == Trim(FirstSignalCapture(content, 0).value)
  {
    match FirstSignalCapture(content, 0)
    case Some(c) => Trim(c)
    case None =>
      var lines := NonBlankLines(content);
      if |lines| > 0 then Seqs.Take(Trim(lines[0]), TitleLimit)
      else Seqs.Take(content, TitleLimit)
  }

  /** Every piece is blank. */
  predicate AllBlank(parts: seq<string>) {
    forall k :: 0 <= k < |parts| ==> AllSpace(parts[k])
  }

  /** The pieces of a blank string are blank. */
  lemma {:induction false} SplitOfBlank(s: string, sep: char)
    requires AllSpace(s)
    ensures AllBlank(Split(s, sep))
    decreases |s|
  {
    if s != [] {
      var rest := Split(s[1..], sep);
      var parts := Split(s, sep);
      assert AllSpace(s[1..]) by {
        assert forall k :: 0 <= k < |s[1..]| ==> s[1..][k] == s[k + 1];
      }
      SplitOfBlank(s[1..], sep);
      if s[0] == sep {
        assert parts == [[]] + rest;
        assert forall k :: 1 <= k < |parts| ==> parts[k] == rest[k - 1];
      } else {
        assert parts == [[s[0]] + rest[0]] + rest[1..];
        assert AllSpace(rest[0]);
        assert forall k :: 0 <= k < |parts[0]| ==> k == 0 || parts[0][k] == rest[0][k - 1];
        assert forall k :: 1 <= k < |parts| ==> parts[k] == rest[k];
      }
    }
  }

  /** A string whose pieces, split at a whitespace separator, are all blank is blank. */
  lemma {:induction false} BlankOfSplit(s: string, sep: char)
    requires IsSpace(sep) && AllBlank(Split(s, sep))
    ensures AllSpace(s)
    decreases |s|
  {
    if s != [] {
      BlankFirst(s, sep);
      BlankOfSplit(s[1..], sep);
      assert forall k :: 1 <= k < |s| ==> s[k] == s[1..][k - 1];
    }
  }

  /** When all pieces are blank, so is the first character, and so are the pieces of the rest. */
  lemma BlankFirst(s: string, sep: char)
    requires s != [] && IsSpace(sep) && AllBlank(Split(s, sep))
    ensures IsSpace(s[0]) && AllBlank(Split(s[1..], sep))
  {
    if s[0] == sep {
      BlankFirstAtSeparator(s, sep);
    } else {
      BlankFirstInPiece(s, sep);
    }
  }

  lemma BlankFirstAtSeparator(s: string, sep: char)
    requires s != [] && s[0] == sep && AllBlank(Split(s, sep))
    ensures AllBlank(Split(s[1..], sep))
  {
    var rest := Split(s[1..], sep);
    var parts := Split(s, sep);
    assert parts == [[]] + rest;
    assert forall k :: 0 <= k < |rest| ==> rest[k] == parts[k + 1];
  }

  lemma BlankFirstInPiece(s: string, sep: char)
    requires s != [] && s[0] != sep && AllBlank(Split(s, sep))
    ensures IsSpace(s[0]) && AllBlank(Split(s[1..], sep))
  {
    var rest := Split(s[1..], sep);
    var parts := Split(s, sep);
    assert parts == [[s[0]] + rest[0]] + rest[1..];
    assert AllSpace(parts[0]);
    assert IsSpace(parts[0][0]);
    assert forall k :: 0 <= k < |rest[0]| ==> rest[0][k] == parts[0][k + 1];
    assert forall k :: 1 <= k < |rest| ==> rest[k] == parts[k];
  }

  /**
   * The fallback tiers of `extractTitle`: without a signal heading, the title is the first
   * non-blank line trimmed and cut to 100 characters, and the raw 100-character prefix is used
   * exactly when every line is blank.
   */
  lemma ExtractTitleFallback(content: string)
    requires FirstSignalCapture(content, 0).None?
    ensures NonBlankLines(content) == [] <==> AllSpace(content)
    ensures AllSpace(content) ==> ExtractTitle(content) == Seqs.Take(content, TitleLimit)
    ensures !AllSpace(content) ==>
      exists k :: 0 <= k < |Split(content, '\n')|
        && ExtractTitle(content) == Seqs.Take(Trim(Split(content, '\n')[k]), TitleLimit)
        && ExtractTitle(content) != []
        && forall j :: 0 <= j < k ==> AllSpace(Split(content, '\n')[j])
  {
    var parts := Split(content, '\n');
    Seqs.FilterFirst(parts, NonBlank);
    if AllSpace(content) {
      SplitOfBlank(content, '\n');
    }
    if AllBlank(parts) {
      BlankOfSplit(content, '\n');
    }
    if NonBlankLines(content) != [] {
      var title := Seqs.Take(Trim(NonBlankLines(content)[0]), TitleLimit);
      assert ExtractTitle(content) == title;
      var k := FirstNonBlank(parts);
      assert ExtractTitle(content) == Seqs.Take(Trim(parts[k]), TitleLimit) && ExtractTitle(content) != [];
    }
  }

  /** The first non-blank part, found by the filter, follows only blank parts. */
  lemma FirstNonBlank(parts: seq<string>) returns (k: nat)
    requires Seqs.Filter(parts, NonBlank) != []
    ensures k < |parts| && Seqs.Filter(parts, NonBlank)[0] == parts[k] && Trim(parts[k]) != []
    ensures forall j :: 0 <= j < k ==> AllSpace(parts[j])
  {
    Seqs.FilterFirst(parts, NonBlank);
    k :| 0 <= k < |parts| && NonBlank(parts[k]) && Seqs.Filter(parts, NonBlank)[0] == parts[k]
      && forall j :: 0 <= j < k ==> !NonBlank(parts[j]);
  }

  const SignalExample := "## Signal 3: Foo Bar\nbody"

  /** The title's run of `.` characters in the example ends at the newline. */
  lemma SignalExampleRun()
    ensures LineRunEnd(SignalExample, 13) == 20
  {
    var s := SignalExample;
    assert LineRunEnd(s, 20) == 20;
    assert LineRunEnd(s, 18) == 20;
    assert LineRunEnd(s, 16) == 20;
    assert LineRunEnd(s, 14) == 20;
  }

  /** The pattern matches the example at its start and captures the title. */
  lemma SignalExampleCapture()
    ensures SignalCaptureAt(SignalExample, 0) == Some("Foo Bar")
  {
    var s := SignalExample;
    assert OccursAt(s, SignalPrefix, 0) by { assert s[..10] == SignalPrefix; }
    SignalExampleDigits();
    assert OccursAt(s, ": ", 11) by { assert s[11..13] == ": "; }
    SignalExampleRun();
    SignalExampleTitle();
  }

  /** The example's signal number is the single digit at position 10. */
  lemma SignalExampleDigits()
    ensures DigitRunEnd(SignalExample, 10) == 11
  {
    assert IsDigit(SignalExample[10]) && !IsDigit(SignalExample[11]);
  }

  /** The example's title runs from position 13 to the newline at 20. */
  lemma SignalExampleTitle()
    ensures SignalExample[13..20] == "Foo Bar"
  {
  }

  /** The first example of `extractTitle`: a signal heading gives its title. */
  lemma ExtractTitleSignalExample()
    ensures ExtractTitle(SignalExample) == "Foo Bar"
  {
    SignalExampleCapture();
    TrimUnchanged("Foo Bar");
  }

  // ---------------------------------------------------------------------------------------------
  // The preference section

  const Intro := "Based on your feedback from recent signals:\n\n"
  const LikedHeader := "### Signals You Found Valuable\n\nYou reacted positively to these types of signals:\n\n"
  const DislikedHeader := "### Signals You Found Less Valuable\n\nYou reacted negatively to these types of signals:\n\n"
  const Instruction := "When selecting signals, prioritize content similar to the valued signals and avoid content similar to the low-value signals.\n"
  const ItemLimit := 10

  /** The line for the `number`-th listed entry: `1. [+3] Title`. */
  function ItemLine(number: nat, e: Entry, sign: string): string {
    NatToString(number) + ". [" + sign + IntToString(e.score) + "] " + ExtractTitle(e.content) + "\n"
  }

  /** The line builder of one section. */
  function ItemLineOf(sign: string): (nat, Entry) -> string {
    (number: nat, e: Entry) => ItemLine(number, e, sign)
  }

  /** One `if (list.length > 0) { ... }` block: a header, the first ten entries, a blank line. */
  function Section(header: string, sign: string, items: seq<Entry>): string {
    if |items| > 0 then header + Numbered(Seqs.Take(items, ItemLimit), ItemLineOf(sign)) + "\n" else []
  }

  lemma SectionEmpty(header: string, sign: string, items: seq<Entry>)
    requires header != []
    ensures Section(header, sign, items) == [] <==> items == []
  {
  }

  /** Two middle parts vanish from `a + m + n + z` exactly when both are empty. */
  lemma FramedOnly(a: string, m: string, n: string, z: string)
    ensures a + m + n + z == a + z <==> m == [] && n == []
  {
    if m == [] && n == [] {
      assert a + m + n == a;
    } else {
      assert |a + m + n + z| > |a + z|;
    }
  }

  /** What `generatePreferenceText` returns. */
  function PreferenceText(p: Preferences): (text: string)
    ensures text == Intro + Instruction <==> p.liked == [] && p.disliked == []
  {
    SectionEmpty(LikedHeader, "+", p.liked);
    SectionEmpty(DislikedHeader, "", p.disliked);
    FramedOnly(Intro, Section(LikedHeader, "+", p.liked), Section(DislikedHeader, "", p.disliked), Instruction);
    Intro + Section(LikedHeader, "+", p.liked) + Section(DislikedHeader, "", p.disliked) + Instruction
  }

  /** `generatePreferenceText`: builds the text with `+=`, section by section. */
  method GeneratePreferenceText(p: Preferences) returns (text: string)
    ensures text == PreferenceText(p)
  {
    text := Intro;
    text := AppendSection(text, LikedHeader, "+", p.liked);
    text := AppendSection(text, DislikedHeader, "", p.disliked);
    text := text + Instruction;
  }

  /** One section of `generatePreferenceText`, appended to `start`. */
  method AppendSection(start: string, header: string, sign: string, items: seq<Entry>) returns (text: string)
    ensures text == start + Section(header, sign, items)
  {
    text := start;
    if |items| > 0 {
      text := text + header;
      text := AppendItemLines(text, Seqs.Take(items, ItemLimit), sign);
      text := text + "\n";
    }
  }

  /** The `forEach` of one section, numbering from 1. */
  method AppendItemLines(start: string, items: seq<Entry>, sign: string) returns (text: string)
    ensures text == start + Numbered(items, ItemLineOf(sign))
  {
    text := start;
    for i := 0 to |items|
      invariant text == start + Numbered(items[..i], ItemLineOf(sign))
    {
      assert items[..i + 1][..i] == items[..i];
      var line := ItemLine(i + 1, items[i], sign);
      Seqs.AppendAssoc(start, Numbered(items[..i], ItemLineOf(sign)), line);
      text := text + line;
    }
    assert items[..|items|] == items;
  }

  /** Only the first ten entries of each list, and whether it is empty, matter; neutral entries never appear. */
  lemma PreferenceTextFirstTen(p: Preferences, q: Preferences)
    requires (p.liked == []) == (q.liked == []) && Seqs.Take(p.liked, ItemLimit) == Seqs.Take(q.liked, ItemLimit)
    requires (p.disliked == []) == (q.disliked == []) && Seqs.Take(p.disliked, ItemLimit) == Seqs.Take(q.disliked, ItemLimit)
    ensures PreferenceText(p) == PreferenceText(q)
  {
    assert Section(LikedHeader, "+", p.liked) == Section(LikedHeader, "+", q.liked);
    assert Section(DislikedHeader, "", p.disliked) == Section(DislikedHeader, "", q.disliked);
  }

  /** The text always opens with the introduction and closes with the instruction. */
  lemma PreferenceTextFrame(p: Preferences)
    ensures StartsWith(PreferenceText(p), Intro)
    ensures EndsWith(PreferenceText(p), Instruction)
  {
    var middle := Section(LikedHeader, "+", p.liked) + Section(DislikedHeader, "", p.disliked);
    Seqs.AppendAssoc(Intro, Section(LikedHeader, "+", p.liked), Section(DislikedHeader, "", p.disliked));
    Framed(Intro, middle, Instruction);
  }
}
