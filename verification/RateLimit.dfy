/** The cooldown guard of a command endpoint (tauri-app/src/rate_limit.rs). Instants
    and durations are counts of one clock unit. */
module RateLimit {
  import opened Wrappers

  datatype Verdict = Accepted | Rejected(remaining: nat)

  /** What a check at `now` answers when the last accepted call was at `last`. */
  function Verdicts(minInterval: nat, last: Option<nat>, now: nat): Verdict {
    match last
    case None => Accepted
    case Some(prev) =>
      // An instant before `prev` counts as no time elapsed.
      var elapsed := if prev <= now then now - prev else 0;
      if elapsed < minInterval then Rejected(minInterval - elapsed) else Accepted
  }

  /** An instant before the last accepted call has the whole interval still to wait. */
  lemma EarlierInstantWaits(minInterval: nat, prev: nat, now: nat)
    requires now < prev
    ensures Verdicts(minInterval, Some(prev), now) == if minInterval == 0 then Accepted else Rejected(minInterval)
  {
  }

  class CooldownGuard {
    const minInterval: nat
    var lastCall: Option<nat>

    constructor (minInterval: nat)
      ensures this.minInterval == minInterval && lastCall == None
    {
      this.minInterval, lastCall := minInterval, None;
    }

    /** `now` is what the clock reads once the lock is held. */
    method Check(now: nat) returns (v: Verdict)
      modifies this`lastCall
      ensures v == Verdicts(minInterval, old(lastCall), now)
      ensures lastCall == if v.Accepted? then Some(now) else old(lastCall)
    {
      if lastCall.Some? {
        var prev := lastCall.value;
        var elapsed := if prev <= now then now - prev else 0;
        if elapsed < minInterval {
          return Rejected(minInterval - elapsed);
        }
      }
      lastCall := Some(now);
      return Accepted;
    }
  }

  // ---- Runs ----

  /** The instants of the accepted calls, among calls at `times`. */
  function AcceptedTimes(minInterval: nat, times: seq<nat>): seq<nat>
    decreases times
  {
    if times == [] then []
    else
      var before, now := AcceptedTimes(minInterval, times[..|times| - 1]), times[|times| - 1];
      if Verdicts(minInterval, Last(before), now).Accepted? then before + [now] else before
  }

  function Last(s: seq<nat>): Option<nat> {
    if s == [] then None else Some(s[|s| - 1])
  }

  ghost predicate NonDecreasing(times: seq<nat>) {
    forall i, j :: 0 <= i <= j < |times| ==> times[i] <= times[j]
  }

  /** Neighbours are at least `minInterval` apart. */
  ghost predicate Spaced(minInterval: nat, s: seq<nat>) {
    forall i :: 0 < i < |s| ==> s[i - 1] + minInterval <= s[i]
  }

  method CheckAll(minInterval: nat, times: seq<nat>) returns (accepted: seq<nat>)
    ensures accepted == AcceptedTimes(minInterval, times)
  {
    var guard := new CooldownGuard(minInterval);
    accepted := [];
    for i := 0 to |times|
      invariant guard.minInterval == minInterval && guard.lastCall == Last(accepted)
      invariant accepted == AcceptedTimes(minInterval, times[..i])
    {
      assert times[..i + 1][..i] == times[..i];
      var v := guard.Check(times[i]);
      if v.Accepted? {
        accepted := accepted + [times[i]];
      }
    }
    assert times[..|times|] == times;
  }

  lemma {:induction false} AcceptedUpTo(minInterval: nat, times: seq<nat>, now: nat)
    requires forall i :: 0 <= i < |times| ==> times[i] <= now
    ensures forall i :: 0 <= i < |AcceptedTimes(minInterval, times)| ==> AcceptedTimes(minInterval, times)[i] <= now
    decreases times
  {
    if times != [] {
      AcceptedUpTo(minInterval, times[..|times| - 1], now);
    }
  }

  lemma {:induction false} AcceptedAreSpaced(minInterval: nat, times: seq<nat>)
    requires NonDecreasing(times)
    ensures Spaced(minInterval, AcceptedTimes(minInterval, times))
    decreases times
  {
    if times != [] {
      var n := |times| - 1;
      AcceptedAreSpaced(minInterval, times[..n]);
      AcceptedUpTo(minInterval, times[..n], times[n]);
    }
  }

  lemma {:induction false} SpacedFar(minInterval: nat, s: seq<nat>, i: nat, j: nat)
    requires Spaced(minInterval, s) && i <= j < |s|
    ensures s[i] + (j - i) * minInterval <= s[j]
    decreases j
  {
    if i < j {
      SpacedFar(minInterval, s, i, j - 1);
      assert (j - i) * minInterval == (j - 1 - i) * minInterval + minInterval;
    }
  }

  /** The instants from `lo` to `lo + width`. */
  function InWindow(s: seq<nat>, lo: nat, width: nat): (r: seq<nat>)
    ensures forall i :: 0 <= i < |r| ==> lo <= r[i] <= lo + width
    decreases s
  {
    if s == [] then []
    else
      var n := |s| - 1;
      InWindow(s[..n], lo, width) + if lo <= s[n] <= lo + width then [s[n]] else []
  }

  /** How often an instant is there. */
  function Count(s: seq<nat>, t: nat): nat {
    multiset(s)[t]
  }

  /** Each instant in the window is in it as often as it is there at all. */
  lemma {:induction false} WindowIsWhole(s: seq<nat>, lo: nat, width: nat, t: nat)
    requires lo <= t <= lo + width
    ensures Count(InWindow(s, lo, width), t) == Count(s, t)
  {
    if s != [] {
      var n := |s| - 1;
      WindowIsWhole(s[..n], lo, width, t);
      assert s == s[..n] + [s[n]];
    }
  }

  lemma {:induction false} WindowIsSpaced(minInterval: nat, s: seq<nat>, lo: nat, width: nat)
    requires Spaced(minInterval, s)
    ensures var w := InWindow(s, lo, width);
            Spaced(minInterval, w) && (w != [] ==> s != [] && w[|w| - 1] <= s[|s| - 1])
    decreases s
  {
    if s != [] {
      WindowIsSpaced(minInterval, s[..|s| - 1], lo, width);
    }
  }

  /** With a clock that never goes back, a window holds at most as many accepted
      calls as there are whole intervals in it, and one more. */
  lemma WindowIsBounded(minInterval: nat, times: seq<nat>, lo: nat, width: nat)
    requires NonDecreasing(times) && 0 < minInterval
    ensures var acc := AcceptedTimes(minInterval, times);
            && |InWindow(acc, lo, width)| <= width / minInterval + 1
            && forall t: nat :: lo <= t <= lo + width ==> Count(InWindow(acc, lo, width), t) == Count(acc, t)
  {
    hide *;
    var acc := AcceptedTimes(minInterval, times);
    var w := InWindow(acc, lo, width);
    forall t: nat | lo <= t <= lo + width
      ensures Count(w, t) == Count(acc, t)
    {
      WindowIsWhole(acc, lo, width, t);
    }
    AcceptedAreSpaced(minInterval, times);
    WindowIsSpaced(minInterval, acc, lo, width);
    if w == [] {
      assert 0 <= width / minInterval;
    } else {
      EndsAreFar(minInterval, w, lo, width);
      QuotientAtLeast(|w| - 1, minInterval, width);
    }
  }

  lemma EndsAreFar(minInterval: nat, w: seq<nat>, lo: nat, width: nat)
    requires Spaced(minInterval, w) && w != []
    requires forall i :: 0 <= i < |w| ==> lo <= w[i] <= lo + width
    ensures (|w| - 1) * minInterval <= width
  {
    hide Spaced;
    SpacedFar(minInterval, w, 0, |w| - 1);
  }

  lemma QuotientAtLeast(k: nat, m: nat, width: nat)
    requires 0 < m && k * m <= width
    ensures k <= width / m
  {
    var q := width / m;
    assert width == q * m + width % m;
    assert (k - q) * m == k * m - q * m;
    AtMostZero(k - q, m);
  }

  lemma AtMostZero(d: int, m: nat)
    requires d * m < m
    ensures d <= 0
  {
  }

  /** A call is accepted exactly when every accepted call is `minInterval` past. */
  lemma AcceptedExactly(minInterval: nat, times: seq<nat>, now: nat)
    requires NonDecreasing(times + [now])
    ensures Verdicts(minInterval, Last(AcceptedTimes(minInterval, times)), now).Accepted?
       <==> forall t :: t in AcceptedTimes(minInterval, times) ==> t + minInterval <= now
  {
    var acc := AcceptedTimes(minInterval, times);
    forall i, j | 0 <= i <= j < |times|
      ensures times[i] <= times[j] <= now
    {
      assert (times + [now])[i] <= (times + [now])[j] <= (times + [now])[|times|];
    }
    AcceptedAreSpaced(minInterval, times);
    AcceptedUpTo(minInterval, times, now);
    forall i | 0 <= i < |acc|
      ensures acc[i] <= acc[|acc| - 1]
    {
      SpacedFar(minInterval, acc, i, |acc| - 1);
    }
    if acc != [] {
      assert acc[|acc| - 1] in acc;
    }
  }

  /** A rejected caller that waits the returned time is accepted, and not before. */
  lemma RemainingIsExact(minInterval: nat, last: Option<nat>, now: nat, later: nat)
    requires Verdicts(minInterval, last, now).Rejected? && last.value <= now <= later
    ensures Verdicts(minInterval, last, later).Accepted?
       <==> now + Verdicts(minInterval, last, now).remaining <= later
  {
  }

  // ---- No guard that keeps the interval accepts more ----

  function Picked(times: seq<nat>, pick: seq<bool>): seq<nat>
    requires |times| == |pick|
    decreases times
  {
    if times == [] then []
    else
      var n := |times| - 1;
      Picked(times[..n], pick[..n]) + if pick[n] then [times[n]] else []
  }

  /** `a` is longer than `p`, or as long and ends no later. */
  ghost predicate Ahead(a: seq<nat>, p: seq<nat>) {
    && |p| <= |a|
    && (|p| == |a| && a != [] ==> a[|a| - 1] <= p[|p| - 1])
  }

  lemma AheadStep(minInterval: nat, a: seq<nat>, p: seq<nat>, now: nat, pick: bool)
    requires Ahead(a, p) && (a != [] ==> a[|a| - 1] <= now)
    requires pick && p != [] ==> p[|p| - 1] + minInterval <= now
    ensures Ahead(if Verdicts(minInterval, Last(a), now).Accepted? then a + [now] else a,
                  p + if pick then [now] else [])
  {
  }

  lemma {:induction false} SpacedInit(minInterval: nat, s: seq<nat>, t: seq<nat>)
    requires Spaced(minInterval, s + t)
    ensures Spaced(minInterval, s)
    ensures s != [] && t != [] ==> s[|s| - 1] + minInterval <= t[0]
  {
    forall i | 0 < i < |s|
      ensures s[i - 1] + minInterval <= s[i]
    {
      assert (s + t)[i - 1] == s[i - 1] && (s + t)[i] == s[i];
    }
    if s != [] && t != [] {
      assert (s + t)[|s| - 1] == s[|s| - 1] && (s + t)[|s|] == t[0];
    }
  }

  /** The accepted calls are at least as many as any choice of calls that are
      `minInterval` apart, and as many of them come no later. */
  lemma {:induction false} AcceptsTheMost(minInterval: nat, times: seq<nat>, pick: seq<bool>)
    requires |times| == |pick| && NonDecreasing(times) && Spaced(minInterval, Picked(times, pick))
    ensures Ahead(AcceptedTimes(minInterval, times), Picked(times, pick))
    decreases times
  {
    hide Ahead, Spaced, Verdicts;
    if times == [] {
      AheadStart();
    } else {
      var n := |times| - 1;
      var p, a := Picked(times[..n], pick[..n]), AcceptedTimes(minInterval, times[..n]);
      SpacedInit(minInterval, p, if pick[n] then [times[n]] else []);
      AcceptsTheMost(minInterval, times[..n], pick[..n]);
      AcceptedUpTo(minInterval, times[..n], times[n]);
      AheadStep(minInterval, a, p, times[n], pick[n]);
    }
  }

  lemma AheadStart()
    ensures Ahead([], [])
  {
  }
}
