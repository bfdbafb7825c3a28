/**
 * The sliding-window admission rule that RateLimitHandler.allowed and
 * RateLimitRequester.allowed both apply (ratelimit.go). A window is the
 * sequence of request timestamps, in integer nanoseconds, oldest first; a
 * call at time `now` with window length `duration` looks only at entries
 * that are at least `now - duration` (the cutoff).
 */
module Window {

  /** Index at which Go's `for i, ts = range counts { if ts >= cutoff { break } }`
      leaves `i`: the first entry inside the window, or the LAST index when no
      entry is inside it, or 0 for an empty window. */
  function ScanStop(counts: seq<int>, cutoff: int): (i: nat)
    ensures |counts| == 0 ==> i == 0
    ensures |counts| > 0 ==> i < |counts|
  {
    if |counts| <= 1 || counts[0] >= cutoff then 0
    else 1 + ScanStop(counts[1..], cutoff)
  }

  /** Every entry the scan steps over is stale, and it stops early only at an
      entry inside the window. */
  lemma {:induction false} ScanStopSpec(counts: seq<int>, cutoff: int)
    ensures forall j :: 0 <= j < ScanStop(counts, cutoff) ==> counts[j] < cutoff
    ensures ScanStop(counts, cutoff) < |counts| - 1 ==> counts[ScanStop(counts, cutoff)] >= cutoff
  {
    if |counts| > 1 && counts[0] < cutoff {
      var tail := counts[1..];
      ScanStopSpec(tail, cutoff);
      forall j | 0 <= j < ScanStop(counts, cutoff)
        ensures counts[j] < cutoff
      {
        if j > 0 {
          assert counts[j] == tail[j - 1];
        }
      }
    }
  }

  /** The facts of ScanStop and ScanStopSpec determine the stopping index. */
  lemma ScanStopUnique(counts: seq<int>, cutoff: int, i: nat)
    requires |counts| == 0 ==> i == 0
    requires |counts| > 0 ==> i < |counts|
    requires forall j :: 0 <= j < i ==> counts[j] < cutoff
    requires i < |counts| - 1 ==> counts[i] >= cutoff
    ensures i == ScanStop(counts, cutoff)
  {
    ScanStopSpec(counts, cutoff);
  }

  /** The scan loop of both `allowed` methods, run with one clock reading. */
  method Scan(counts: seq<int>, cutoff: int) returns (i: nat)
    ensures i <= |counts| && (|counts| > 0 ==> i < |counts|)
    ensures forall j :: 0 <= j < i ==> counts[j] < cutoff
    ensures i < |counts| - 1 ==> counts[i] >= cutoff
    ensures i == ScanStop(counts, cutoff)
  {
    i := 0;
    var k := 0;
    while k < |counts|
      invariant k <= |counts|
      invariant i == if k == 0 then 0 else k - 1
      invariant forall j :: 0 <= j < k ==> counts[j] < cutoff
    {
      i := k;
      if counts[k] >= cutoff {
        break;
      }
      k := k + 1;
    }
    ScanStopUnique(counts, cutoff, i);
  }

  /** `s` is what remains of `w` after dropping a prefix. */
  predicate IsSuffix(s: seq<int>, w: seq<int>)
  {
    |s| <= |w| && s == w[|w| - |s|..]
  }

  /** The entries that survive the scan: `counts[i:]`. */
  function Pruned(counts: seq<int>, cutoff: int): seq<int>
  {
    counts[ScanStop(counts, cutoff)..]
  }

  /** The scan only drops a prefix, and never empties a non-empty window. */
  lemma PrunedShape(counts: seq<int>, cutoff: int)
    ensures IsSuffix(Pruned(counts, cutoff), counts)
    ensures |counts| > 0 ==> |Pruned(counts, cutoff)| > 0
  {
  }

  /** When some entry is inside the window, exactly the suffix from the first
      such entry survives. */
  lemma PrunedFromFirstInWindow(counts: seq<int>, cutoff: int, k: nat)
    requires k < |counts| && counts[k] >= cutoff
    requires forall j :: 0 <= j < k ==> counts[j] < cutoff
    ensures Pruned(counts, cutoff) == counts[k..]
  {
    ScanStopUnique(counts, cutoff, k);
  }

  /** When every entry is older than the window, the newest stale entry survives. */
  lemma PrunedAllStale(counts: seq<int>, cutoff: int)
    requires |counts| > 0
    requires forall j :: 0 <= j < |counts| ==> counts[j] < cutoff
    ensures Pruned(counts, cutoff) == [counts[|counts| - 1]]
  {
    ScanStopUnique(counts, cutoff, |counts| - 1);
  }

  /** Outcome of one admission check: the answer and the window stored back. */
  datatype Decision = Decision(allowed: bool, window: seq<int>)

  /** The check on an already pruned window: reject when at least
      `maxRequests` entries are left, otherwise append `now`. */
  function Decide(kept: seq<int>, now: int, maxRequests: int): Decision
  {
    if |kept| >= maxRequests then Decision(false, kept) else Decision(true, kept + [now])
  }

  /** Admission for a window that exists: prune, then decide. */
  function Admit(counts: seq<int>, now: int, duration: int, maxRequests: int): Decision
  {
    Decide(Pruned(counts, now - duration), now, maxRequests)
  }

  /** A call is rejected iff at least `maxRequests` entries survive the scan; a
      rejected call stores the survivors, an admitted one appends `now`, so an
      admitted call never leaves more than `maxRequests` entries. */
  lemma AdmitRule(counts: seq<int>, now: int, duration: int, maxRequests: int)
    ensures var d := Admit(counts, now, duration, maxRequests);
      var kept := Pruned(counts, now - duration);
      && (d.allowed <==> |kept| < maxRequests)
      && (!d.allowed ==> d.window == kept && |d.window| >= maxRequests)
      && (d.allowed ==> d.window == kept + [now] && |d.window| <= maxRequests)
  {
  }

  /** The stored window is a suffix of the old one, followed by `now` exactly
      when the call was admitted. */
  lemma AdmitShape(counts: seq<int>, now: int, duration: int, maxRequests: int)
    ensures var d := Admit(counts, now, duration, maxRequests);
      if d.allowed then
        |d.window| > 0 && d.window[|d.window| - 1] == now && IsSuffix(d.window[..|d.window| - 1], counts)
      else IsSuffix(d.window, counts)
  {
    var d := Admit(counts, now, duration, maxRequests);
    var kept := Pruned(counts, now - duration);
    PrunedShape(counts, now - duration);
    if d.allowed {
      assert d.window[..|d.window| - 1] == kept;
    }
  }

  /** Nondecreasing order. */
  predicate Sorted(s: seq<int>)
  {
    forall i, j :: 0 <= i < j < |s| ==> s[i] <= s[j]
  }

  /** A sorted window stays sorted when `now` is not earlier than any entry. */
  lemma AdmitKeepsSorted(counts: seq<int>, now: int, duration: int, maxRequests: int)
    requires Sorted(counts)
    requires forall j :: 0 <= j < |counts| ==> counts[j] <= now
    ensures Sorted(Admit(counts, now, duration, maxRequests).window)
    ensures forall j :: 0 <= j < |Admit(counts, now, duration, maxRequests).window| ==>
      Admit(counts, now, duration, maxRequests).window[j] <= now
  {
    var kept := Pruned(counts, now - duration);
    PrunedShape(counts, now - duration);
    SuffixSorted(kept, counts, now);
    AdmitRule(counts, now, duration, maxRequests);
  }

  /** A suffix of a sorted window bounded by `now` stays sorted, with or
      without `now` appended. */
  lemma SuffixSorted(kept: seq<int>, counts: seq<int>, now: int)
    requires IsSuffix(kept, counts)
    requires Sorted(counts)
    requires forall j :: 0 <= j < |counts| ==> counts[j] <= now
    ensures Sorted(kept) && Sorted(kept + [now])
    ensures forall j :: 0 <= j < |kept| ==> kept[j] <= now
    ensures forall j :: 0 <= j < |kept + [now]| ==> (kept + [now])[j] <= now
  {
    var off := |counts| - |kept|;
    assert forall j :: 0 <= j < |kept| ==> kept[j] == counts[off + j];
  }

  /** Answers to a series of calls at `times`, starting from window `counts`
      (the outbound limiter, and the inbound one once a client is known). */
  function Run(counts: seq<int>, times: seq<int>, duration: int, maxRequests: int): (r: seq<bool>)
    ensures |r| == |times|
    decreases |times|
  {
    if |times| == 0 then []
    else
      var d := Admit(counts, times[0], duration, maxRequests);
      [d.allowed] + Run(d.window, times[1..], duration, maxRequests)
  }

  /** One step of Run: the first answer is Admit's, the others are Run's from
      the window Admit stores. */
  lemma RunStep(counts: seq<int>, times: seq<int>, duration: int, maxRequests: int, k: nat)
    requires k < |times|
    ensures var d := Admit(counts, times[0], duration, maxRequests);
      Run(counts, times, duration, maxRequests)[k]
        == if k == 0 then d.allowed else Run(d.window, times[1..], duration, maxRequests)[k - 1]
  {
  }

  /** Every value of `s` lies between `lo` and `hi`. */
  predicate Between(s: seq<int>, lo: int, hi: int)
  {
    forall i :: 0 <= i < |s| ==> lo <= s[i] <= hi
  }

  /** A scan whose cutoff lies below every stored entry prunes nothing. */
  lemma NothingPruned(counts: seq<int>, cutoff: int, lo: int)
    requires forall i :: 0 <= i < |counts| ==> lo <= counts[i]
    requires cutoff <= lo
    ensures Pruned(counts, cutoff) == counts
  {
    if |counts| > 0 {
      PrunedFromFirstInWindow(counts, cutoff, 0);
    }
  }

  /** Appending an entry no earlier than `lo` keeps every entry at least `lo`. */
  lemma AppendAtLeast(counts: seq<int>, t: int, lo: int)
    requires forall i :: 0 <= i < |counts| ==> lo <= counts[i]
    requires lo <= t
    ensures forall i :: 0 <= i < |counts + [t]| ==> lo <= (counts + [t])[i]
  {
    var w := counts + [t];
    forall i | 0 <= i < |w| ensures lo <= w[i] {
      if i < |counts| {
        assert w[i] == counts[i];
      }
    }
  }

  /** One call inside the window of every stored entry prunes nothing, and
      the window it stores again starts no earlier than `lo`. */
  lemma AdmitWithinWindow(counts: seq<int>, t: int, duration: int, maxRequests: int, lo: int)
    requires forall i :: 0 <= i < |counts| ==> lo <= counts[i]
    requires lo <= t <= lo + duration
    ensures |counts| < maxRequests ==> Admit(counts, t, duration, maxRequests) == Decision(true, counts + [t])
    ensures |counts| >= maxRequests ==> Admit(counts, t, duration, maxRequests) == Decision(false, counts)
    ensures forall i :: 0 <= i < |counts + [t]| ==> lo <= (counts + [t])[i]
  {
    NothingPruned(counts, t - duration, lo);
    assert Admit(counts, t, duration, maxRequests) == Decide(counts, t, maxRequests);
    AppendAtLeast(counts, t, lo);
  }

  /** Within one window nothing is pruned: when every stored entry is at least
      `lo` and every call happens between `lo` and `lo + duration`, a window
      holding n entries admits exactly the next `maxRequests - n` calls, and
      none when n is already `maxRequests` or more. */
  lemma {:induction false} QuotaWithinWindow(counts: seq<int>, times: seq<int>, duration: int, maxRequests: int, lo: int)
    requires forall i :: 0 <= i < |counts| ==> lo <= counts[i]
    requires Between(times, lo, lo + duration)
    ensures forall k :: 0 <= k < |times| ==> Run(counts, times, duration, maxRequests)[k] == (|counts| + k < maxRequests)
    decreases |times|
  {
    if |times| > 0 {
      var t := times[0];
      var w := if |counts| < maxRequests then counts + [t] else counts;
      AdmitWithinWindow(counts, t, duration, maxRequests, lo);
      var rest := times[1..];
      assert Between(rest, lo, lo + duration) by {
        forall j | 0 <= j < |rest| ensures lo <= rest[j] <= lo + duration {
          assert rest[j] == times[j + 1];
        }
      }
      QuotaWithinWindow(w, rest, duration, maxRequests, lo);
      var r := Run(counts, times, duration, maxRequests);
      forall k | 0 <= k < |times|
        ensures r[k] == (|counts| + k < maxRequests)
      {
        RunStep(counts, times, duration, maxRequests, k);
        if k > 0 {
          assert r[k] == Run(w, rest, duration, maxRequests)[k - 1];
        }
      }
    }
  }

  /** From an empty window, of calls that all fall inside one window the first
      `maxRequests` are admitted and every later one is rejected. */
  lemma QuotaFromEmpty(times: seq<int>, duration: int, maxRequests: nat, lo: int)
    requires Between(times, lo, lo + duration)
    ensures forall k :: 0 <= k < |times| ==> Run([], times, duration, maxRequests)[k] == (k < maxRequests)
  {
    QuotaWithinWindow([], times, duration, maxRequests, lo);
  }

  /** With a capacity of at most one, a window that holds an entry never admits
      again: the scan always keeps at least one entry. */
  lemma {:induction false} CapacityOneLocksOut(counts: seq<int>, times: seq<int>, duration: int, maxRequests: int)
    requires maxRequests <= 1
    requires |counts| > 0
    ensures forall k :: 0 <= k < |times| ==> !Run(counts, times, duration, maxRequests)[k]
    decreases |times|
  {
    if |times| > 0 {
      var d := Admit(counts, times[0], duration, maxRequests);
      CapacityOneLocksOut(d.window, times[1..], duration, maxRequests);
      var r := Run(counts, times, duration, maxRequests);
      forall k | 0 <= k < |times|
        ensures !r[k]
      {
        if k > 0 {
          assert r[k] == Run(d.window, times[1..], duration, maxRequests)[k - 1];
        }
      }
    }
  }

  // ---------------------------------------------------------------------------
  // The rule as evidently intended: every entry older than the window is dropped.

  /** Index of the first entry inside the window, or `|counts|` when none is. */
  function FirstInWindow(counts: seq<int>, cutoff: int): (i: nat)
    ensures i <= |counts|
  {
    if |counts| == 0 || counts[0] >= cutoff then 0
    else 1 + FirstInWindow(counts[1..], cutoff)
  }

  /** FirstInWindow skips exactly the stale entries in front. */
  lemma {:induction false} FirstInWindowSpec(counts: seq<int>, cutoff: int)
    ensures forall j :: 0 <= j < FirstInWindow(counts, cutoff) ==> counts[j] < cutoff
    ensures FirstInWindow(counts, cutoff) < |counts| ==> counts[FirstInWindow(counts, cutoff)] >= cutoff
  {
    if |counts| > 0 && counts[0] < cutoff {
      var tail := counts[1..];
      FirstInWindowSpec(tail, cutoff);
      forall j | 0 <= j < FirstInWindow(counts, cutoff)
        ensures counts[j] < cutoff
      {
        if j > 0 {
          assert counts[j] == tail[j - 1];
        }
      }
    }
  }

  /** The entries from the first one inside the window on; empty when all are stale. */
  function IntendedPruned(counts: seq<int>, cutoff: int): seq<int>
  {
    counts[FirstInWindow(counts, cutoff)..]
  }

  /** The intended pruning drops exactly the stale prefix: what it keeps starts
      inside the window, and nothing is kept when every entry is stale. */
  lemma IntendedPrunedShape(counts: seq<int>, cutoff: int)
    ensures IsSuffix(IntendedPruned(counts, cutoff), counts)
    ensures |IntendedPruned(counts, cutoff)| > 0 ==> IntendedPruned(counts, cutoff)[0] >= cutoff
    ensures (forall j :: 0 <= j < |counts| ==> counts[j] < cutoff) <==> IntendedPruned(counts, cutoff) == []
  {
    FirstInWindowSpec(counts, cutoff);
  }

  /** Intended admission: as Admit, over IntendedPruned. */
  function IntendedAdmit(counts: seq<int>, now: int, duration: int, maxRequests: int): Decision
  {
    Decide(IntendedPruned(counts, now - duration), now, maxRequests)
  }

  /** The intended decision rule, as AdmitRule states it for the code as written. */
  lemma IntendedAdmitRule(counts: seq<int>, now: int, duration: int, maxRequests: int)
    ensures var d := IntendedAdmit(counts, now, duration, maxRequests);
      var kept := IntendedPruned(counts, now - duration);
      && (d.allowed <==> |kept| < maxRequests)
      && d.window == kept + (if d.allowed then [now] else [])
  {
  }

  /** Once every entry has aged out, the intended rule starts afresh: the call is
      admitted iff the capacity is positive, and the window becomes `[now]`. */
  lemma IntendedResetsAfterExpiry(counts: seq<int>, now: int, duration: int, maxRequests: int)
    requires forall j :: 0 <= j < |counts| ==> counts[j] < now - duration
    ensures IntendedAdmit(counts, now, duration, maxRequests)
      == if maxRequests > 0 then Decision(true, [now]) else Decision(false, [])
  {
    IntendedPrunedShape(counts, now - duration);
  }

  /** The code as written does not start afresh with a capacity of one: a
      single stale entry still fills the window, where the intended rule
      admits and keeps only the new call. */
  lemma CapacityOneStaysFull(stale: int, now: int, duration: int)
    requires stale < now - duration
    ensures Admit([stale], now, duration, 1) == Decision(false, [stale])
    ensures IntendedAdmit([stale], now, duration, 1) == Decision(true, [now])
  {
    PrunedAllStale([stale], now - duration);
  }

  /** Answers of the intended rule to a series of calls. */
  function RunIntended(counts: seq<int>, times: seq<int>, duration: int, maxRequests: int): (r: seq<bool>)
    ensures |r| == |times|
    decreases |times|
  {
    if |times| == 0 then []
    else
      var d := IntendedAdmit(counts, times[0], duration, maxRequests);
      [d.allowed] + RunIntended(d.window, times[1..], duration, maxRequests)
  }

  /** The two prunings differ only when every entry is stale: then the code as
      written keeps the last entry and the intended rule keeps nothing. */
  lemma PrunedVersusIntended(counts: seq<int>, cutoff: int)
    ensures Pruned(counts, cutoff) == IntendedPruned(counts, cutoff)
      || (|counts| > 0 && IntendedPruned(counts, cutoff) == []
          && Pruned(counts, cutoff) == [counts[|counts| - 1]] && counts[|counts| - 1] < cutoff)
  {
    var f := FirstInWindow(counts, cutoff);
    FirstInWindowSpec(counts, cutoff);
    if f < |counts| {
      PrunedFromFirstInWindow(counts, cutoff, f);
    } else if |counts| > 0 {
      PrunedAllStale(counts, cutoff);
    }
  }

  /** A stale entry in front of a window is skipped by the scan, unless it is
      the only entry. */
  lemma PrunedStaleHead(s: int, w: seq<int>, cutoff: int)
    requires s < cutoff
    ensures Pruned([s] + w, cutoff) == if w == [] then [s] else Pruned(w, cutoff)
  {
    if w != [] {
      assert ([s] + w)[1..] == w;
    }
  }

  /** The window of the code as written is the intended one, possibly with one
      extra entry in front that is stale for every remaining call. */
  predicate Shadows(written: seq<int>, intended: seq<int>, times: seq<int>, duration: int)
  {
    written == intended
    || (|written| == |intended| + 1 && written[1..] == intended
        && forall j :: 0 <= j < |times| ==> written[0] < times[j] - duration)
  }

  /** Pruning a window with one extra stale entry in front gives the intended
      pruning, or that single stale entry when nothing else is left. */
  lemma PrunedShadow(written: seq<int>, intended: seq<int>, cutoff: int)
    requires written == intended || (|written| > 0 && written == [written[0]] + intended && written[0] < cutoff)
    ensures var pw := Pruned(written, cutoff);
      var pi := IntendedPruned(intended, cutoff);
      pw == pi || (pi == [] && pw == [pw[0]] && pw[0] < cutoff)
  {
    if written == intended {
      PrunedVersusIntended(written, cutoff);
    } else {
      PrunedStaleHead(written[0], intended, cutoff);
      if intended != [] {
        PrunedVersusIntended(intended, cutoff);
      }
    }
  }

  /** One call: when the window of the code as written is the intended one,
      possibly with one extra stale entry in front, both rules give the same
      answer and the new windows are again related in that way. */
  lemma StepAgrees(written: seq<int>, intended: seq<int>, now: int, duration: int, maxRequests: int)
    requires maxRequests >= 2
    requires written == intended || (|written| > 0 && written == [written[0]] + intended && written[0] < now - duration)
    ensures var dw := Admit(written, now, duration, maxRequests);
      var di := IntendedAdmit(intended, now, duration, maxRequests);
      && dw.allowed == di.allowed
      && (dw.window == di.window || (dw.window == [dw.window[0]] + di.window && dw.window[0] < now - duration))
  {
    var c := now - duration;
    PrunedShadow(written, intended, c);
    DecideShadow(Pruned(written, c), IntendedPruned(intended, c), now, maxRequests);
  }

  /** Deciding on a window with one extra entry in front, when the other
      window is empty and the capacity is at least two. */
  lemma DecideShadow(pw: seq<int>, pi: seq<int>, now: int, maxRequests: int)
    requires maxRequests >= 2
    requires pw == pi || (pi == [] && pw == [pw[0]])
    ensures var dw := Decide(pw, now, maxRequests);
      var di := Decide(pi, now, maxRequests);
      && dw.allowed == di.allowed
      && (dw.window == di.window || (pw == [pw[0]] && dw.window == [pw[0]] + di.window))
  {
    if pw != pi {
      assert Decide(pw, now, maxRequests).window == [pw[0]] + [now];
    }
  }

  /** With a capacity of two or more and a clock that does not go back, the
      stale entry the scan keeps never changes an answer: the code as written
      and the intended rule admit exactly the same calls. */
  lemma {:induction false} AgreesWithIntended(written: seq<int>, intended: seq<int>, times: seq<int>, duration: int, maxRequests: int)
    requires maxRequests >= 2
    requires Sorted(times)
    requires Shadows(written, intended, times, duration)
    ensures Run(written, times, duration, maxRequests) == RunIntended(intended, times, duration, maxRequests)
    decreases |times|
  {
    if |times| > 0 {
      var t := times[0];
      var dw := Admit(written, t, duration, maxRequests);
      var di := IntendedAdmit(intended, t, duration, maxRequests);
      if written != intended {
        assert written == [written[0]] + intended;
      }
      StepAgrees(written, intended, t, duration, maxRequests);
      var rest := times[1..];
      assert Sorted(rest) by {
        forall i, j | 0 <= i < j < |rest|
          ensures rest[i] <= rest[j]
        {
          assert rest[i] == times[i + 1] && rest[j] == times[j + 1];
        }
      }
      assert Shadows(dw.window, di.window, rest, duration) by {
        if dw.window != di.window {
          forall j | 0 <= j < |rest|
            ensures dw.window[0] < rest[j] - duration
          {
            assert rest[j] == times[j + 1];
          }
        }
      }
      AgreesWithIntended(dw.window, di.window, rest, duration, maxRequests);
    }
  }

  /** The intended rule within one window: as QuotaWithinWindow, nothing is
      pruned, so a window of n entries admits exactly the next
      `maxRequests - n` calls. */
  lemma {:induction false} IntendedQuota(counts: seq<int>, times: seq<int>, duration: int, maxRequests: int, lo: int)
    requires |counts| <= maxRequests
    requires forall i :: 0 <= i < |counts| ==> lo <= counts[i]
    requires Between(times, lo, lo + duration)
    ensures forall k :: 0 <= k < |times| ==> RunIntended(counts, times, duration, maxRequests)[k] == (|counts| + k < maxRequests)
    decreases |times|
  {
    if |times| > 0 {
      var t := times[0];
      assert IntendedPruned(counts, t - duration) == counts;
      var w := if |counts| < maxRequests then counts + [t] else counts;
      var d := IntendedAdmit(counts, t, duration, maxRequests);
      assert d.allowed == (|counts| < maxRequests) && d.window == w;
      assert forall i :: 0 <= i < |w| ==> lo <= w[i];
      var rest := times[1..];
      assert Between(rest, lo, lo + duration) by {
        forall j | 0 <= j < |rest| ensures lo <= rest[j] <= lo + duration {
          assert rest[j] == times[j + 1];
        }
      }
      IntendedQuota(w, rest, duration, maxRequests, lo);
      var r := RunIntended(counts, times, duration, maxRequests);
      forall k | 0 <= k < |times|
        ensures r[k] == (|counts| + k < maxRequests)
      {
        if k > 0 {
          assert r[k] == RunIntended(w, rest, duration, maxRequests)[k - 1];
        }
      }
    }
  }

  /** Once a whole window has passed since the last stored call, a capacity
      of two or more is available again in full: of calls inside the next
      window (in clock order) exactly the first `maxRequests` are admitted,
      although the scan keeps one stale entry at first. */
  lemma ResetAfterWindow(counts: seq<int>, times: seq<int>, duration: int, maxRequests: int, lo: int)
    requires maxRequests >= 2
    requires |counts| > 0
    requires forall i :: 0 <= i < |counts| ==> counts[i] < lo - duration
    requires Between(times, lo, lo + duration)
    requires Sorted(times)
    ensures forall k :: 0 <= k < |times| ==> Run(counts, times, duration, maxRequests)[k] == (k < maxRequests)
  {
    if |times| > 0 {
      var t := times[0];
      var last := counts[|counts| - 1];
      PrunedAllStale(counts, t - duration);
      assert Admit(counts, t, duration, maxRequests) == Decision(true, [last, t]);
      var rest := times[1..];
      assert Sorted(rest) by {
        forall i, j | 0 <= i < j < |rest|
          ensures rest[i] <= rest[j]
        {
          assert rest[i] == times[i + 1] && rest[j] == times[j + 1];
        }
      }
      assert Between(rest, lo, lo + duration) by {
        forall j | 0 <= j < |rest| ensures lo <= rest[j] <= lo + duration {
          assert rest[j] == times[j + 1];
        }
      }
      assert Shadows([last, t], [t], rest, duration);
      AgreesWithIntended([last, t], [t], rest, duration, maxRequests);
      IntendedQuota([t], rest, duration, maxRequests, lo);
      var r := Run(counts, times, duration, maxRequests);
      forall k | 0 <= k < |times|
        ensures r[k] == (k < maxRequests)
      {
        RunStep(counts, times, duration, maxRequests, k);
      }
    }
  }

  /** The agreement needs a clock that does not go back: after a reading of
      100 and then one of 12, the stale entry the scan kept is back inside
      the window, so the code as written refuses a call the intended rule
      admits. */
  lemma ClockStepBackDiffers()
    ensures Run([5], [100, 12], 10, 2) == [true, false]
    ensures RunIntended([5], [100, 12], 10, 2) == [true, true]
  {
    PrunedAllStale([5], 90);
    assert Admit([5], 100, 10, 2) == Decision(true, [5, 100]);
    PrunedFromFirstInWindow([5, 100], 2, 0);
    assert Admit([5, 100], 12, 10, 2) == Decision(false, [5, 100]);
    IntendedResetsAfterExpiry([5], 100, 10, 2);
    FirstInWindowSpec([100], 2);
    assert IntendedPruned([100], 2) == [100];
  }
}
