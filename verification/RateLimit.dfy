/** The per-connection rate limiter.

    Times are nanoseconds on the monotonic clock. */
module RateLimit {

  const PER_SECOND: nat := 50
  const CLOSE_THRESHOLD: nat := 3
  const SECOND: nat := 1_000_000_000

  /** `Ok(())`, `Err(false)` and `Err(true)` in the program. */
  datatype Verdict = Accept | Reject | Close

  datatype Limiter = Limiter(remaining: nat, windowStart: nat, violations: nat)

  function Fresh(now: nat): Limiter { Limiter(PER_SECOND, now, 0) }

  function Elapsed(now: nat, since: nat): nat { if now < since then 0 else now - since }

  function Check(l: Limiter, now: nat): (Limiter, Verdict) {
    var l := if Elapsed(now, l.windowStart) >= SECOND then Limiter(PER_SECOND, now, l.violations) else l;
    if l.remaining > 0 then
      (l.(remaining := l.remaining - 1, violations := 0), Accept)
    else
      (l.(violations := l.violations + 1), if l.violations + 1 >= CLOSE_THRESHOLD then Close else Reject)
  }

  class RateLimiter {
    var remaining: nat
    var windowStart: nat
    var consecutiveViolations: nat

    function Value(): Limiter
      reads this
    {
      Limiter(remaining, windowStart, consecutiveViolations)
    }

    constructor (now: nat)
      ensures Value() == Fresh(now)
    {
      remaining, windowStart, consecutiveViolations := PER_SECOND, now, 0;
    }

    method CheckNow(now: nat) returns (v: Verdict)
      modifies this
      ensures (Value(), v) == Check(old(Value()), now)
    {
      if Elapsed(now, windowStart) >= SECOND {
        remaining := PER_SECOND;
        windowStart := now;
      }
      if remaining > 0 {
        remaining := remaining - 1;
        consecutiveViolations := 0;
        v := Accept;
      } else {
        consecutiveViolations := consecutiveViolations + 1;
        v := if consecutiveViolations >= CLOSE_THRESHOLD then Close else Reject;
      }
    }
  }

  // ---- Runs of messages arriving at `times`, on a limiter made at time `t0` ----

  function After(t0: nat, times: seq<nat>): Limiter {
    if times == [] then Fresh(t0) else Check(After(t0, times[..|times| - 1]), times[|times| - 1]).0
  }

  /** The verdict on message `i`. */
  function VerdictAt(t0: nat, times: seq<nat>, i: nat): Verdict
    requires i < |times|
  {
    Check(After(t0, times[..i]), times[i]).1
  }

  /** A window is a start and the number of messages that arrived in it: the reference
      notion, with no budget and no violations. */
  datatype Window = Window(start: nat, count: nat)

  function WindowOf(t0: nat, times: seq<nat>): Window {
    if times == [] then Window(t0, 0)
    else
      var w, now := WindowOf(t0, times[..|times| - 1]), times[|times| - 1];
      if now >= w.start + SECOND then Window(now, 1) else w.(count := w.count + 1)
  }

  /** The position of message `i` within its window, counting from 1. */
  function IndexInWindow(t0: nat, times: seq<nat>, i: nat): (j: nat)
    requires i < |times|
    ensures j > 0
  {
    WindowOf(t0, times[..i + 1]).count
  }

  function Less(a: nat, b: nat): nat { if a < b then 0 else a - b }

  lemma {:induction false} LimiterFollowsWindow(t0: nat, times: seq<nat>)
    ensures var l, w := After(t0, times), WindowOf(t0, times);
            l == Limiter(Less(PER_SECOND, w.count), w.start, Less(w.count, PER_SECOND))
  {
    if times != [] {
      LimiterFollowsWindow(t0, times[..|times| - 1]);
    }
  }

  /** The verdict on a message depends on its position in its window and on nothing else. */
  lemma VerdictIsPosition(t0: nat, times: seq<nat>, i: nat)
    requires i < |times|
    ensures var j := IndexInWindow(t0, times, i);
            VerdictAt(t0, times, i) ==
              (if j <= PER_SECOND then Accept else if j < PER_SECOND + CLOSE_THRESHOLD then Reject else Close)
  {
    assert times[..i + 1][..i] == times[..i];
    LimiterFollowsWindow(t0, times[..i]);
  }

  /** Until the handler stops at the first `Close`, the violation counter stays below the
      threshold, and at that point it equals the threshold. */
  lemma ViolationsStayBounded(t0: nat, times: seq<nat>)
    requires forall i :: 0 <= i < |times| - 1 ==> VerdictAt(t0, times, i) != Close
    ensures After(t0, times).violations <= CLOSE_THRESHOLD
    ensures After(t0, times).violations == CLOSE_THRESHOLD <==>
            times != [] && VerdictAt(t0, times, |times| - 1) == Close
  {
    LimiterFollowsWindow(t0, times);
    if times != [] {
      var n := |times| - 1;
      VerdictIsPosition(t0, times, n);
      assert times[..n + 1] == times;
      if n > 0 {
        VerdictIsPosition(t0, times, n - 1);
        assert times[..n][..n - 1] == times[..n - 1];
      }
    }
  }

  // ---- Clients that keep to a rate ----

  ghost predicate Ordered(t0: nat, times: seq<nat>) {
    && (forall i :: 0 <= i < |times| ==> t0 <= times[i])
    && (forall i, j :: 0 <= i < j < |times| ==> times[i] <= times[j])
  }

  /** At most `n` messages fall in any half-open interval of one second. */
  ghost predicate AtMostPerSecond(times: seq<nat>, n: nat) {
    forall i, j :: 0 <= i && j == i + n && j < |times| ==> times[j] - times[i] >= SECOND
  }

  /** The messages counted in a window are the last ones, they lie at or after its start,
      and the newest is less than a second after it. */
  lemma {:induction false} WindowHoldsTheLastMessages(t0: nat, times: seq<nat>)
    requires Ordered(t0, times)
    ensures var w := WindowOf(t0, times);
            && w.count <= |times| && t0 <= w.start
            && (forall i :: |times| - w.count <= i < |times| ==> w.start <= times[i])
            && (forall i :: 0 <= i < |times| ==> times[i] < w.start + SECOND)
            && (times != [] ==> w.count > 0)
  {
    if times != [] {
      var init := times[..|times| - 1];
      WindowHoldsTheLastMessages(t0, init);
      var w := WindowOf(t0, times);
      forall i | |times| - w.count <= i < |times| ensures w.start <= times[i] {
        if i < |init| && w.count > 1 {
          assert init[i] == times[i];
        } else if i == |init| && |init| > 0 && w.count > 1 {
          assert init[|init| - 1] == times[|init| - 1];
        }
      }
      forall i | 0 <= i < |times| ensures times[i] < w.start + SECOND {
        assert times[i] <= times[|times| - 1];
      }
    }
  }

  lemma PositionWithinRate(t0: nat, times: seq<nat>, n: nat, i: nat)
    requires Ordered(t0, times) && AtMostPerSecond(times, n)
    requires i < |times|
    ensures IndexInWindow(t0, times, i) <= n
  {
    var seen := times[..i + 1];
    WindowHoldsTheLastMessages(t0, seen);
    var w := WindowOf(t0, seen);
    if i >= n {
      assert times[i] - times[i - n] >= SECOND;
      assert seen[i] == times[i] && seen[i - n] == times[i - n];
    }
  }

  /** A client that sends at most 50 messages in every one-second interval is never
      rejected; one that sends at most 52 is never closed. */
  lemma PoliteClientsAreServed(t0: nat, times: seq<nat>, i: nat)
    requires Ordered(t0, times) && i < |times|
    ensures AtMostPerSecond(times, PER_SECOND) ==> VerdictAt(t0, times, i) == Accept
    ensures AtMostPerSecond(times, PER_SECOND + 2) ==> VerdictAt(t0, times, i) != Close
  {
    VerdictIsPosition(t0, times, i);
    if AtMostPerSecond(times, PER_SECOND) { PositionWithinRate(t0, times, PER_SECOND, i); }
    if AtMostPerSecond(times, PER_SECOND + 2) { PositionWithinRate(t0, times, PER_SECOND + 2, i); }
  }

  // ---- How many messages get through ----

  /** Messages accepted at times `t` with `from <= t < to`. */
  function Accepted(t0: nat, times: seq<nat>, from: nat, to: nat): nat {
    if times == [] then 0
    else
      var n := |times| - 1;
      Accepted(t0, times[..n], from, to) +
      (if from <= times[n] < to && VerdictAt(t0, times, n) == Accept then 1 else 0)
  }

  function Least(a: nat, b: nat): nat { if a < b then a else b }

  /** Full seconds between `from` and the start of window `w`, plus one: how many windows
      before `w` can have accepted a message at or after `from`. */
  function EarlierWindows(w: Window, from: nat): nat {
    if w.start < from then 0 else (w.start - from) / SECOND + 1
  }

  lemma WindowsAreASecondApart(v: nat, w: nat, from: nat)
    requires from <= v && v + SECOND <= w
    ensures (v - from) / SECOND + 1 <= (w - from) / SECOND
  {
    assert (v - from + SECOND) / SECOND == (v - from) / SECOND + 1;
    DivMonotone(v - from + SECOND, w - from);
  }

  lemma DivMonotone(a: nat, b: nat)
    requires a <= b
    ensures a / SECOND <= b / SECOND
  {}

  lemma {:induction false} AcceptedSoFar(t0: nat, times: seq<nat>, from: nat, to: nat)
    requires Ordered(t0, times)
    ensures var w := WindowOf(t0, times);
            Accepted(t0, times, from, to) <= PER_SECOND * EarlierWindows(w, from) + Least(w.count, PER_SECOND)
  {
    if times != [] {
      var n := |times| - 1;
      var init := times[..n];
      AcceptedSoFar(t0, init, from, to);
      VerdictIsPosition(t0, times, n);
      assert times[..n + 1] == times;
      var v, w := WindowOf(t0, init), WindowOf(t0, times);
      if w.start != v.start {
        assert w == Window(times[n], 1) && v.start + SECOND <= w.start;
        if w.start < from {
          EarlyMessagesDoNotCount(t0, init, from, to);
        } else if v.start >= from {
          WindowsAreASecondApart(v.start, w.start, from);
        }
      }
    }
  }

  lemma {:induction false} EarlyMessagesDoNotCount(t0: nat, times: seq<nat>, from: nat, to: nat)
    requires forall i :: 0 <= i < |times| ==> times[i] < from
    ensures Accepted(t0, times, from, to) == 0
  {
    if times != [] {
      EarlyMessagesDoNotCount(t0, times[..|times| - 1], from, to);
    }
  }

  lemma {:induction false} LaterMessagesDoNotCount(t0: nat, times: seq<nat>, from: nat, to: nat, m: nat)
    requires m <= |times|
    requires forall i :: m <= i < |times| ==> times[i] >= to
    ensures Accepted(t0, times, from, to) == Accepted(t0, times[..m], from, to)
  {
    if m < |times| {
      var init := times[..|times| - 1];
      LaterMessagesDoNotCount(t0, init, from, to, m);
      assert init[..m] == times[..m];
    } else {
      assert times[..m] == times;
    }
  }

  /** How many of the messages arrive before `to`. */
  function Before(times: seq<nat>, to: nat): (m: nat)
    ensures m <= |times|
    ensures m < |times| ==> times[m] >= to
    ensures m > 0 ==> times[m - 1] < to
  {
    if times == [] then 0
    else if times[|times| - 1] < to then |times|
    else Before(times[..|times| - 1], to)
  }

  /** In any half-open interval of `k` seconds at most 50 * (k + 1) messages are accepted. */
  lemma RateBound(t0: nat, times: seq<nat>, from: nat, k: nat)
    requires Ordered(t0, times) && k >= 1
    ensures Accepted(t0, times, from, from + k * SECOND) <= PER_SECOND * (k + 1)
  {
    var to := from + k * SECOND;
    var m := Before(times, to);
    forall i | m <= i < |times| ensures times[i] >= to {
      assert times[m] <= times[i];
    }
    LaterMessagesDoNotCount(t0, times, from, to, m);
    var seen := times[..m];
    AcceptedSoFar(t0, seen, from, to);
    var w := WindowOf(t0, seen);
    if w.start >= from {
      if m > 0 {
        assert seen[m - 1] == times[m - 1] < to;
        WindowHoldsTheLastMessages(t0, seen);
        assert w.start <= seen[m - 1];
        QuotientBelow(w.start - from, k);
        assert EarlierWindows(w, from) <= k;
      }
    }
  }

  lemma QuotientBelow(a: nat, k: nat)
    requires a < k * SECOND
    ensures a / SECOND < k
  {}

  // ---- The window is fixed, not sliding ----

  /** Fifty messages at the end of the first window, then fifty at the start of each later one. */
  function Bursts(n: nat): (times: seq<nat>)
    ensures |times| == n
  {
    seq(n, (i: nat) => if i < PER_SECOND then SECOND - 1 else i / PER_SECOND * SECOND)
  }

  lemma {:induction false} BurstsFillTheirWindows(n: nat)
    ensures WindowOf(0, Bursts(n)) ==
      (if n <= PER_SECOND then Window(0, n) else Window((n - 1) / PER_SECOND * SECOND, (n - 1) % PER_SECOND + 1))
  {
    if n > 0 {
      assert Bursts(n)[..n - 1] == Bursts(n - 1);
      BurstsFillTheirWindows(n - 1);
      if n > 1 { NextInBurst(n - 1); }
    }
  }

  lemma NextInBurst(i: nat)
    requires i > 0
    ensures if i % PER_SECOND == 0
            then i / PER_SECOND == (i - 1) / PER_SECOND + 1 && (i - 1) % PER_SECOND == PER_SECOND - 1
            else i / PER_SECOND == (i - 1) / PER_SECOND && i % PER_SECOND == (i - 1) % PER_SECOND + 1
  {}

  lemma {:induction false} BurstsAreAccepted(n: nat, k: nat)
    requires n <= PER_SECOND * (k + 1) && k >= 1
    ensures Accepted(0, Bursts(n), SECOND - 1, SECOND - 1 + k * SECOND) == n
  {
    if n > 0 {
      assert Bursts(n)[..n - 1] == Bursts(n - 1);
      BurstsAreAccepted(n - 1, k);
      VerdictIsPosition(0, Bursts(n), n - 1);
      assert Bursts(n)[..n - 1 + 1] == Bursts(n);
      BurstsFillTheirWindows(n);
      QuotientAtMost(n - 1, k);
    }
  }

  lemma QuotientAtMost(i: nat, k: nat)
    requires i < PER_SECOND * (k + 1)
    ensures i / PER_SECOND * SECOND <= k * SECOND
    ensures i >= PER_SECOND ==> i / PER_SECOND * SECOND >= SECOND
  {}

  /** The bound is reached for every `k`: with `k == 1`, a hundred messages are accepted
      within one second, which no sliding one-second window of fifty would allow. */
  lemma RateBoundIsReached(k: nat)
    requires k >= 1
    ensures var times, from := Bursts(PER_SECOND * (k + 1)), SECOND - 1;
            Ordered(0, times) && Accepted(0, times, from, from + k * SECOND) == PER_SECOND * (k + 1)
  {
    var n := PER_SECOND * (k + 1);
    BurstsAreAccepted(n, k);
    forall i, j | 0 <= i < j < n ensures Bursts(n)[i] <= Bursts(n)[j] {
      assert i / PER_SECOND <= j / PER_SECOND;
    }
    assert Ordered(0, Bursts(n));
  }
}
