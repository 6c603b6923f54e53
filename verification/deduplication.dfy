/**
 * The persisted signal store's freshness window (lib/signal-intel/deduplication.js).
 * The wall clock is the parameter `now` (milliseconds since the epoch) and a stored ISO-8601
 * timestamp arrives already parsed: `None` stands for a string `new Date(...)` cannot parse,
 * whose time is `NaN` and compares false with everything.
 */
module Deduplication {
  import opened Wrappers
  import Seqs

  /** Milliseconds in a day: `24 * 60 * 60 * 1000`. */
  const DayMs: int := 86400000
  /** The default window, `DEDUP_DAYS`. */
  const DedupDays: int := 7

  datatype Signal = Signal(url: string, title: string, source: string, timestamp: Option<int>)

  /** `Date.now() - days * 24 * 60 * 60 * 1000`. */
  function Cutoff(now: int, days: int): int {
    now - days * DayMs
  }

  /** A stored signal still counts within the window: its time is strictly after the cutoff. */
  predicate IsLive(s: Signal, cutoff: int) {
    s.timestamp.Some? && s.timestamp.value > cutoff
  }

  /** `isNewUrl`: no stored signal with this URL is live (`!signals.some(...)`). */
  function IsNewUrl(url: string, signals: seq<Signal>, now: int, days: int): (isNew: bool)
    ensures isNew <==> forall i :: 0 <= i < |signals| && signals[i].url == url ==> !IsLive(signals[i], Cutoff(now, days))
    decreases |signals|
  {
    if signals == [] then true
    else if signals[0].url == url && IsLive(signals[0], Cutoff(now, days)) then false
    else IsNewUrl(url, signals[1..], now, days)
  }

  /** The predicate `cleanOldSignals` hands to `filter`, for a fixed cutoff. */
  function KeepAfter(cutoff: int): Signal -> bool {
    s => IsLive(s, cutoff)
  }

  /** `cleanOldSignals`: the live signals, in their stored order. */
  function CleanOldSignals(signals: seq<Signal>, now: int, days: int): (kept: seq<Signal>)
    ensures |kept| <= |signals|
    ensures forall i :: 0 <= i < |kept| ==> IsLive(kept[i], Cutoff(now, days))
    ensures forall x :: multiset(kept)[x] == if IsLive(x, Cutoff(now, days)) then multiset(signals)[x] else 0
    ensures Seqs.IsSubsequence(kept, signals)
  {
    var keep := KeepAfter(Cutoff(now, days));
    Seqs.FilterMultiset(signals, keep);
    Seqs.FilterIsSubsequence(signals, keep);
    Seqs.Filter(signals, keep)
  }

  /** The caller's array of stored signals, which `addSignal` extends in place with `push`. */
  class SignalLog {
    var signals: seq<Signal>

    constructor (initial: seq<Signal>)
      ensures signals == initial
    {
      signals := initial;
    }

    /** `addSignal`: appends one record stamped with the current time and changes nothing else. */
    method AddSignal(url: string, title: string, source: string, now: int)
      modifies this
      ensures signals == old(signals) + [Signal(url, title, source, Some(now))]
    {
      signals := signals + [Signal(url, title, source, Some(now))];
    }
  }

  /** An entry exactly at the cutoff is no longer live, so it does not block its URL. */
  lemma BoundaryIsNotLive(url: string, title: string, source: string, now: int, days: int)
    ensures IsNewUrl(url, [Signal(url, title, source, Some(Cutoff(now, days)))], now, days)
    ensures CleanOldSignals([Signal(url, title, source, Some(Cutoff(now, days)))], now, days) == []
  {
  }

  /** Stored signals under other URLs never affect whether `url` is new. */
  lemma {:induction false} OtherUrlsIrrelevant(url: string, signals: seq<Signal>, now: int, days: int)
    ensures IsNewUrl(url, signals, now, days) == IsNewUrl(url, Seqs.Filter(signals, (s: Signal) => s.url == url), now, days)
  {
    var same := (s: Signal) => s.url == url;
    Seqs.FilterMultiset(signals, same);
    var f := Seqs.Filter(signals, same);
    forall i | 0 <= i < |signals| && signals[i].url == url
      ensures signals[i] in f
    {
      assert signals[i] in multiset(signals);
    }
    forall i | 0 <= i < |f|
      ensures f[i] in signals
    {
      assert f[i] in multiset(f);
    }
  }

  /** A signal whose timestamp could not be parsed is never live: it is evicted and ignored. */
  lemma {:induction false} UnparsedNeverLive(url: string, signals: seq<Signal>, bad: Signal, now: int, days: int)
    requires bad.timestamp.None?
    ensures IsNewUrl(url, signals + [bad], now, days) == IsNewUrl(url, signals, now, days)
    ensures CleanOldSignals(signals + [bad], now, days) == CleanOldSignals(signals, now, days)
  {
    Seqs.FilterAppend(signals, bad, KeepAfter(Cutoff(now, days)));
    assert forall i :: 0 <= i < |signals| ==> (signals + [bad])[i] == signals[i];
  }

  /** Right after `addSignal(u, ...)` at time `now`, `u` is not new for any positive window. */
  lemma AddedUrlIsNotNew(url: string, title: string, source: string, signals: seq<Signal>, now: int, days: int)
    requires days > 0
    ensures !IsNewUrl(url, signals + [Signal(url, title, source, Some(now))], now, days)
  {
    var s := signals + [Signal(url, title, source, Some(now))];
    assert s[|signals|].url == url && IsLive(s[|signals|], Cutoff(now, days));
  }

  /**
   * With the default window of `DEDUP_DAYS`, a URL recorded at `t` stays blocked for exactly
   * one week: it is new again once `later` is 604800000 milliseconds or more after `t`.
   */
  lemma DefaultWindowIsOneWeek(url: string, title: string, source: string, t: int, later: int)
    ensures IsNewUrl(url, [Signal(url, title, source, Some(t))], later, DedupDays) <==> later - t >= 604800000
  {
    var s := [Signal(url, title, source, Some(t))];
    if !IsNewUrl(url, s, later, DedupDays) {
      assert IsLive(s[0], Cutoff(later, DedupDays));
    }
  }

  /**
   * A recorded signal blocks its URL exactly until the window has passed: at a later clock
   * reading `later`, the URL is new again iff `later - days * DayMs >= t` and nothing else blocks it.
   */
  lemma {:induction false} RecordedBlocksUntilExpiry(url: string, title: string, source: string, signals: seq<Signal>, t: int, later: int, days: int)
    ensures IsNewUrl(url, signals + [Signal(url, title, source, Some(t))], later, days)
        <==> IsNewUrl(url, signals, later, days) && later - days * DayMs >= t
  {
    var s := signals + [Signal(url, title, source, Some(t))];
    assert forall i :: 0 <= i < |signals| ==> s[i] == signals[i];
    assert s[|signals|] == Signal(url, title, source, Some(t));
  }

  /** `cleanOldSignals` is idempotent under a fixed clock. */
  lemma CleanIdempotent(signals: seq<Signal>, now: int, days: int)
    ensures CleanOldSignals(CleanOldSignals(signals, now, days), now, days) == CleanOldSignals(signals, now, days)
  {
    Seqs.FilterIdempotent(signals, KeepAfter(Cutoff(now, days)));
  }

  /** Every signal the compaction keeps still blocks its own URL under the same clock and window. */
  lemma KeptSignalsBlock(signals: seq<Signal>, now: int, days: int)
    ensures forall s :: s in CleanOldSignals(signals, now, days) ==> !IsNewUrl(s.url, CleanOldSignals(signals, now, days), now, days)
  {
  }

  /** Compaction never changes a freshness decision taken with the same clock and window. */
  lemma {:induction false} CleanPreservesFreshness(url: string, signals: seq<Signal>, now: int, days: int)
    ensures IsNewUrl(url, CleanOldSignals(signals, now, days), now, days) == IsNewUrl(url, signals, now, days)
  {
    var kept := CleanOldSignals(signals, now, days);
    var c := Cutoff(now, days);
    forall i | 0 <= i < |signals| && signals[i].url == url && IsLive(signals[i], c)
      ensures !IsNewUrl(url, kept, now, days)
    {
      assert signals[i] in multiset(signals);
      assert signals[i] in multiset(kept);
    }
  }
}
