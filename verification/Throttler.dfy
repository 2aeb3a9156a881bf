/**
 * The rate limiter as a protocol between any number of processes that share a
 * lock, a clock and the time of the last refill. Each step of a process is one
 * access to shared state, so every interleaving is a run. The clock is assumed
 * never to go back; it may stand still or jump ahead between any two steps.
 */
module Throttler {

  import opened Collections

  datatype Phase =
    | Outside
    | Waiting                                // about to take the lock
    | Holding                                // has the lock, has not read the clock
    | Timed(now: real)                       // has read the clock
    | Measured(now: real, elapsed: real)     // has read the last refill
    | Refused                                // decided against, not asleep yet
    | Sleeping(until: real)                  // asleep while holding the lock
    | Woken                                  // about to give the lock back and retry
    | Granted                                // about to give the lock back and return

  datatype Action =
    | Tick(d: real)
    | Enter(p: nat)
    | Acquire(p: nat)
    | ReadClock(p: nat)
    | Measure(p: nat)
    | Decide(p: nat)
    | BeginSleep(p: nat)
    | Wake(p: nat)
    | Release(p: nat)

  /**
   * Besides the shared state, the history: the clock value each grant was
   * given on, the time each granted process left, and how each complete lock
   * session ended. No step reads the history.
   */
  datatype State = State(
    clock: real, last: real, lock: Option<nat>, phase: seq<Phase>,
    grants: seq<real>, exits: seq<real>, sessions: seq<bool>)

  // ---------------------------------------------------------------- steps

  predicate Enabled(rate: real, s: State, a: Action) {
    match a
    case Tick(d) => d >= 0.0
    case Enter(p) => p < |s.phase| && s.phase[p] == Outside
    case Acquire(p) => p < |s.phase| && s.phase[p] == Waiting && s.lock == None
    case ReadClock(p) => p < |s.phase| && s.phase[p] == Holding
    case Measure(p) => p < |s.phase| && s.phase[p].Timed?
    case Decide(p) => p < |s.phase| && s.phase[p].Measured?
    case BeginSleep(p) => p < |s.phase| && s.phase[p] == Refused
    case Wake(p) => p < |s.phase| && s.phase[p].Sleeping? && s.clock >= s.phase[p].until
    case Release(p) => p < |s.phase| && (s.phase[p] == Woken || s.phase[p] == Granted)
  }

  function Step(rate: real, s: State, a: Action): State
    requires rate > 0.0 && Enabled(rate, s, a)
  {
    match a
    case Tick(d) => s.(clock := s.clock + d)
    case Enter(p) => s.(phase := s.phase[p := Waiting])
    case Acquire(p) => s.(phase := s.phase[p := Holding], lock := Some(p))
    case ReadClock(p) => s.(phase := s.phase[p := Timed(s.clock)])
    case Measure(p) => s.(phase := s.phase[p := Measured(s.phase[p].now, s.phase[p].now - s.last)])
    case Decide(p) =>
      if rate * s.phase[p].elapsed >= 1.0
      then s.(phase := s.phase[p := Granted], last := s.phase[p].now, grants := s.grants + [s.phase[p].now])
      else s.(phase := s.phase[p := Refused])
    case BeginSleep(p) => s.(phase := s.phase[p := Sleeping(s.clock + 1.0 / rate)])
    case Wake(p) => s.(phase := s.phase[p := Woken])
    case Release(p) =>
      if s.phase[p] == Granted
      then s.(phase := s.phase[p := Outside], lock := None,
              exits := s.exits + [s.clock], sessions := s.sessions + [true])
      else s.(phase := s.phase[p := Waiting], lock := None, sessions := s.sessions + [false])
  }

  /** Any number of processes, none inside; the last refill is not in the future. */
  ghost predicate Initial(s: State) {
    && s.last <= s.clock && s.lock == None
    && (forall p :: 0 <= p < |s.phase| ==> s.phase[p] == Outside)
    && s.grants == [] && s.exits == [] && s.sessions == []
  }

  /** The state after the first `n` actions, if each was possible when taken. */
  function After(rate: real, s: State, run: seq<Action>, n: nat): Option<State>
    requires rate > 0.0 && n <= |run|
  {
    if n == 0 then Some(s)
    else
      var t := After(rate, s, run, n - 1);
      if t.Some? && Enabled(rate, t.value, run[n - 1]) then Some(Step(rate, t.value, run[n - 1])) else None
  }

  ghost predicate Reachable(rate: real, s: State)
    requires rate > 0.0
  {
    exists s0, run: seq<Action> :: Initial(s0) && After(rate, s0, run, |run|) == Some(s)
  }

  // ---------------------------------------------------------------- the invariant

  predicate Inside(ph: Phase) {
    ph != Outside && ph != Waiting
  }

  ghost predicate Exclusive(s: State) {
    && (s.lock.Some? ==> s.lock.value < |s.phase|)
    && forall p :: 0 <= p < |s.phase| ==> (Inside(s.phase[p]) <==> s.lock == Some(p))
  }

  predicate LastDenied(s: State) {
    s.sessions != [] && !s.sessions[|s.sessions| - 1]
  }

  /** What the holder's phase says about the clock; `gap` is 1/rate. */
  ghost predicate PhaseOk(gap: real, s: State, ph: Phase) {
    match ph
    case Outside => true
    case Waiting => true
    case Holding => LastDenied(s) ==> s.clock >= s.last + gap
    case Timed(now) => s.last <= now <= s.clock && ExitsBy(s, now) && (LastDenied(s) ==> now >= s.last + gap)
    case Measured(now, e) =>
      && s.last <= now <= s.clock && ExitsBy(s, now) && e == now - s.last
      && (LastDenied(s) ==> now >= s.last + gap)
    case Refused => !LastDenied(s)
    case Sleeping(until) => !LastDenied(s) && s.last + gap <= until <= s.clock + gap
    case Woken => !LastDenied(s) && s.clock >= s.last + gap
    case Granted => s.grants != []
  }

  ghost predicate ExitsBy(s: State, t: real) {
    s.exits != [] ==> s.exits[|s.exits| - 1] <= t
  }

  ghost predicate Spaced(gap: real, g: seq<real>) {
    forall i {:trigger g[i]} :: 0 < i < |g| ==> g[i] >= g[i - 1] + gap
  }

  /** A granted process leaves after its own grant and before the next one. */
  ghost predicate Interleaved(g: seq<real>, r: seq<real>) {
    && |r| <= |g|
    && (forall i :: 0 <= i < |r| ==> g[i] <= r[i])
    && (forall i :: 0 < i < |g| && i - 1 < |r| ==> r[i - 1] <= g[i])
  }

  ghost predicate NeverTwiceDenied(l: seq<bool>) {
    forall i {:trigger l[i]} :: 0 < i < |l| ==> l[i - 1] || l[i]
  }

  ghost predicate HistoryOk(gap: real, s: State) {
    && (s.grants != [] ==> s.last == s.grants[|s.grants| - 1])
    && Spaced(gap, s.grants)
    && Interleaved(s.grants, s.exits)
    && NeverTwiceDenied(s.sessions)
    && ExitsBy(s, s.clock)
    && |s.grants|
       == |s.exits| + (if s.lock.Some? && s.lock.value < |s.phase| && s.phase[s.lock.value] == Granted then 1 else 0)
  }

  ghost predicate Inv(gap: real, s: State) {
    && s.last <= s.clock
    && Exclusive(s)
    && (s.lock.Some? ==> PhaseOk(gap, s, s.phase[s.lock.value]))
    && (s.lock == None && LastDenied(s) ==> s.clock >= s.last + gap)
    && HistoryOk(gap, s)
  }

  lemma DueIff(rate: real, e: real)
    requires rate > 0.0
    ensures rate * e >= 1.0 <==> e >= 1.0 / rate
  {
    var g := 1.0 / rate;
    assert rate * g == 1.0;
    assert rate * e == rate * g + rate * (e - g);
    if e >= g {
      ProductIsPositive(rate, e - g);
    } else {
      var d := g - e;
      assert rate * d > 0.0 && rate * (e - g) == -(rate * d);
    }
  }

  lemma TickKeepsInv(rate: real, s: State, a: Action)
    requires rate > 0.0 && a.Tick? && Enabled(rate, s, a) && Inv(1.0 / rate, s)
    ensures Inv(1.0 / rate, Step(rate, s, a))
  {
  }

  lemma EnterKeepsInv(rate: real, s: State, a: Action)
    requires rate > 0.0 && a.Enter? && Enabled(rate, s, a) && Inv(1.0 / rate, s)
    ensures Inv(1.0 / rate, Step(rate, s, a))
  {
  }

  lemma AcquireKeepsInv(rate: real, s: State, a: Action)
    requires rate > 0.0 && a.Acquire? && Enabled(rate, s, a) && Inv(1.0 / rate, s)
    ensures Inv(1.0 / rate, Step(rate, s, a))
  {
  }

  lemma ReadClockKeepsInv(rate: real, s: State, a: Action)
    requires rate > 0.0 && a.ReadClock? && Enabled(rate, s, a) && Inv(1.0 / rate, s)
    ensures Inv(1.0 / rate, Step(rate, s, a))
  {
  }

  lemma MeasureKeepsInv(rate: real, s: State, a: Action)
    requires rate > 0.0 && a.Measure? && Enabled(rate, s, a) && Inv(1.0 / rate, s)
    ensures Inv(1.0 / rate, Step(rate, s, a))
  {
  }

  lemma SpacedSnoc(gap: real, g: seq<real>, x: real)
    requires Spaced(gap, g) && (g != [] ==> x >= g[|g| - 1] + gap)
    ensures Spaced(gap, g + [x])
  {
  }

  lemma InterleavedGrant(g: seq<real>, r: seq<real>, x: real)
    requires Interleaved(g, r) && |r| == |g| && (r != [] ==> r[|r| - 1] <= x)
    ensures Interleaved(g + [x], r)
  {
  }

  lemma InterleavedExit(g: seq<real>, r: seq<real>, x: real)
    requires Interleaved(g, r) && |g| == |r| + 1 && g[|r|] <= x
    ensures Interleaved(g, r + [x])
  {
  }

  lemma GrantKeepsInv(gap: real, s: State, p: nat, t: State)
    requires Inv(gap, s) && p < |s.phase| && s.phase[p].Measured? && s.phase[p].elapsed >= gap
    requires t == s.(phase := s.phase[p := Granted], last := s.phase[p].now, grants := s.grants + [s.phase[p].now])
    ensures Inv(gap, t)
  {
    hide Spaced, Interleaved, NeverTwiceDenied;
    SpacedSnoc(gap, s.grants, s.phase[p].now);
    InterleavedGrant(s.grants, s.exits, s.phase[p].now);
  }

  lemma DenyKeepsInv(gap: real, s: State, p: nat, t: State)
    requires Inv(gap, s) && p < |s.phase| && s.phase[p].Measured? && s.phase[p].elapsed < gap
    requires t == s.(phase := s.phase[p := Refused])
    ensures Inv(gap, t)
  {
    hide Spaced, Interleaved, NeverTwiceDenied;
  }

  lemma DecideKeepsInv(rate: real, s: State, a: Action)
    requires rate > 0.0 && a.Decide? && Enabled(rate, s, a) && Inv(1.0 / rate, s)
    ensures Inv(1.0 / rate, Step(rate, s, a))
  {
    hide Inv;
    var e := s.phase[a.p].elapsed;
    DueIff(rate, e);
    if e >= 1.0 / rate {
      GrantKeepsInv(1.0 / rate, s, a.p, Step(rate, s, a));
    } else {
      DenyKeepsInv(1.0 / rate, s, a.p, Step(rate, s, a));
    }
  }

  lemma BeginSleepKeepsInv(rate: real, s: State, a: Action)
    requires rate > 0.0 && a.BeginSleep? && Enabled(rate, s, a) && Inv(1.0 / rate, s)
    ensures Inv(1.0 / rate, Step(rate, s, a))
  {
  }

  lemma WakeKeepsInv(rate: real, s: State, a: Action)
    requires rate > 0.0 && a.Wake? && Enabled(rate, s, a) && Inv(1.0 / rate, s)
    ensures Inv(1.0 / rate, Step(rate, s, a))
  {
  }

  lemma NeverTwiceSnoc(l: seq<bool>, b: bool)
    requires NeverTwiceDenied(l) && (b || l == [] || l[|l| - 1])
    ensures NeverTwiceDenied(l + [b])
  {
  }

  lemma LeaveKeepsInv(gap: real, s: State, p: nat, t: State)
    requires Inv(gap, s) && p < |s.phase| && s.phase[p] == Granted
    requires t == s.(phase := s.phase[p := Outside], lock := None,
                     exits := s.exits + [s.clock], sessions := s.sessions + [true])
    ensures Inv(gap, t)
  {
    hide Spaced, Interleaved, NeverTwiceDenied;
    assert s.lock == Some(p);
    InterleavedExit(s.grants, s.exits, s.clock);
    NeverTwiceSnoc(s.sessions, true);
  }

  lemma RetryKeepsInv(gap: real, s: State, p: nat, t: State)
    requires Inv(gap, s) && p < |s.phase| && s.phase[p] == Woken
    requires t == s.(phase := s.phase[p := Waiting], lock := None, sessions := s.sessions + [false])
    ensures Inv(gap, t)
  {
    hide Spaced, Interleaved, NeverTwiceDenied;
    assert s.lock == Some(p);
    NeverTwiceSnoc(s.sessions, false);
  }

  lemma ReleaseKeepsInv(rate: real, s: State, a: Action)
    requires rate > 0.0 && a.Release? && Enabled(rate, s, a) && Inv(1.0 / rate, s)
    ensures Inv(1.0 / rate, Step(rate, s, a))
  {
    hide Inv;
    if s.phase[a.p] == Granted {
      LeaveKeepsInv(1.0 / rate, s, a.p, Step(rate, s, a));
    } else {
      RetryKeepsInv(1.0 / rate, s, a.p, Step(rate, s, a));
    }
  }

  lemma StepKeepsInv(rate: real, s: State, a: Action)
    requires rate > 0.0 && Enabled(rate, s, a) && Inv(1.0 / rate, s)
    ensures Inv(1.0 / rate, Step(rate, s, a))
  {
    match a
    case Tick(_) => TickKeepsInv(rate, s, a);
    case Enter(_) => EnterKeepsInv(rate, s, a);
    case Acquire(_) => AcquireKeepsInv(rate, s, a);
    case ReadClock(_) => ReadClockKeepsInv(rate, s, a);
    case Measure(_) => MeasureKeepsInv(rate, s, a);
    case Decide(_) => DecideKeepsInv(rate, s, a);
    case BeginSleep(_) => BeginSleepKeepsInv(rate, s, a);
    case Wake(_) => WakeKeepsInv(rate, s, a);
    case Release(_) => ReleaseKeepsInv(rate, s, a);
  }

  lemma {:induction false} RunKeepsInv(rate: real, s0: State, run: seq<Action>, n: nat)
    requires rate > 0.0 && n <= |run| && Initial(s0) && After(rate, s0, run, n).Some?
    ensures Inv(1.0 / rate, After(rate, s0, run, n).value)
  {
    if n > 0 {
      RunKeepsInv(rate, s0, run, n - 1);
      StepKeepsInv(rate, After(rate, s0, run, n - 1).value, run[n - 1]);
    }
  }

  lemma ReachableInv(rate: real, s: State)
    requires rate > 0.0 && Reachable(rate, s)
    ensures Inv(1.0 / rate, s)
  {
    var s0, run: seq<Action> :| Initial(s0) && After(rate, s0, run, |run|) == Some(s);
    RunKeepsInv(rate, s0, run, |run|);
  }

  // ---------------------------------------------------------------- what the limiter promises

  /**
   * In every reachable state: mutual exclusion, no session denied twice in a
   * row, and `k` grants apart means at least `k` times 1/rate apart.
   */
  lemma GrantsAreSpaced(rate: real, s: State)
    requires rate > 0.0 && Reachable(rate, s)
    ensures forall p, q :: 0 <= p < |s.phase| && 0 <= q < |s.phase| && Inside(s.phase[p]) && Inside(s.phase[q]) ==>
              p == q
    ensures forall i, j :: 0 <= i < j < |s.grants| ==> s.grants[j] - s.grants[i] >= (j - i) as real / rate
    ensures NeverTwiceDenied(s.sessions)
  {
    ReachableInv(rate, s);
    forall i, j | 0 <= i < j < |s.grants| ensures s.grants[j] - s.grants[i] >= (j - i) as real / rate {
      SpacedFar(rate, s.grants, i, j);
    }
  }

  /** One more gap. */
  lemma AddGap(rate: real, n: nat)
    requires rate > 0.0
    ensures (n + 1) as real / rate == n as real / rate + 1.0 / rate
  {
    var x, y := n as real, 1.0;
    assert (x + y) / rate == x / rate + y / rate;
  }

  lemma {:induction false} SpacedFar(rate: real, g: seq<real>, i: nat, j: nat)
    requires rate > 0.0 && Spaced(1.0 / rate, g) && i <= j < |g|
    ensures g[j] - g[i] >= (j - i) as real / rate
  {
    if i == j {
      assert (j - i) as real == 0.0;
    } else {
      SpacedFar(rate, g, i, j - 1);
      AddGap(rate, j - i - 1);
      assert g[j] >= g[j - 1] + 1.0 / rate;
    }
  }

  function CountIn(t: seq<real>, n: nat, from: real, to: real): nat
    requires n <= |t|
  {
    if n == 0 then 0
    else CountIn(t, n - 1, from, to) + if from <= t[n - 1] <= to then 1 else 0
  }

  /** Scaled distance: how many grants the rate allows between two times. */
  function Span(rate: real, from: real, to: real): real {
    rate * (to - from)
  }

  lemma ProductIsPositive(a: real, b: real)
    requires a > 0.0 && b >= 0.0
    ensures a * b >= 0.0
  {
  }

  lemma SpanSplits(rate: real, from: real, x: real, y: real)
    ensures Span(rate, from, y) == Span(rate, from, x) + rate * (y - x)
  {
    var e := y - x;
    assert y - from == (x - from) + e;
    assert rate * ((x - from) + e) == rate * (x - from) + rate * e;
  }

  lemma SpanGrows(rate: real, from: real, x: real, y: real)
    requires rate > 0.0 && x <= y
    ensures Span(rate, from, x) <= Span(rate, from, y)
  {
    ProductIsPositive(rate, y - x);
    SpanSplits(rate, from, x, y);
  }

  /** A full gap adds one. */
  lemma SpanGap(rate: real, from: real, x: real, y: real)
    requires rate > 0.0 && y >= x + 1.0 / rate
    ensures Span(rate, from, y) >= Span(rate, from, x) + 1.0
  {
    DueIff(rate, y - x);
    SpanSplits(rate, from, x, y);
  }

  lemma SpanStarts(rate: real, from: real, x: real)
    requires rate > 0.0 && from <= x
    ensures Span(rate, from, x) >= 0.0
  {
    ProductIsPositive(rate, x - from);
  }

  lemma GapPositive(rate: real)
    requires rate > 0.0
    ensures 1.0 / rate > 0.0
  {
  }

  lemma {:induction false} GrantsBefore(rate: real, g: seq<real>, n: nat, from: real, to: real)
    requires rate > 0.0 && Spaced(1.0 / rate, g) && 0 < n <= |g| && CountIn(g, n, from, to) > 0
    ensures g[n - 1] >= from
    ensures Span(rate, from, g[n - 1]) >= CountIn(g, n, from, to) as real - 1.0
  {
    hide Span;
    GapPositive(rate);
    if n > 1 && CountIn(g, n - 1, from, to) > 0 {
      GrantsBefore(rate, g, n - 1, from, to);
      assert g[n - 1] >= g[n - 2] + 1.0 / rate;
      SpanGap(rate, from, g[n - 2], g[n - 1]);
    } else {
      SpanStarts(rate, from, g[n - 1]);
    }
  }

  lemma {:induction false} GrantsInWindow(rate: real, g: seq<real>, n: nat, from: real, to: real)
    requires rate > 0.0 && from <= to && Spaced(1.0 / rate, g) && n <= |g|
    ensures CountIn(g, n, from, to) as real <= Span(rate, from, to) + 1.0
  {
    hide Span;
    SpanStarts(rate, from, to);
    if n > 0 {
      if g[n - 1] <= to && CountIn(g, n, from, to) > 0 {
        GrantsBefore(rate, g, n, from, to);
        SpanGrows(rate, from, g[n - 1], to);
      } else {
        GrantsInWindow(rate, g, n - 1, from, to);
      }
    }
  }

  /** Any window of length T holds at most rate*T + 1 grants. */
  lemma AtMostRateGrants(rate: real, s: State, from: real, to: real)
    requires rate > 0.0 && from <= to && Reachable(rate, s)
    ensures CountIn(s.grants, |s.grants|, from, to) as real <= rate * (to - from) + 1.0
  {
    ReachableInv(rate, s);
    GrantsInWindow(rate, s.grants, |s.grants|, from, to);
  }

  lemma {:induction false} ExitsBefore(rate: real, g: seq<real>, r: seq<real>, n: nat, from: real, to: real)
    requires rate > 0.0 && Spaced(1.0 / rate, g) && Interleaved(g, r)
    requires 0 < n <= |r| && CountIn(r, n, from, to) > 0
    ensures r[n - 1] >= from
    ensures CountIn(r, n, from, to) > 1 ==> Span(rate, from, g[n - 1]) >= CountIn(r, n, from, to) as real - 2.0
  {
    hide Span;
    GapPositive(rate);
    if n > 1 && CountIn(r, n - 1, from, to) > 0 {
      ExitsBefore(rate, g, r, n - 1, from, to);
      assert g[n - 1] >= r[n - 2] >= from;
      assert g[n - 1] >= g[n - 2] + 1.0 / rate;
      SpanGap(rate, from, g[n - 2], g[n - 1]);
      SpanStarts(rate, from, g[n - 1]);
    }
  }

  lemma {:induction false} ExitsInWindow(rate: real, g: seq<real>, r: seq<real>, n: nat, from: real, to: real)
    requires rate > 0.0 && from <= to && Spaced(1.0 / rate, g) && Interleaved(g, r) && n <= |r|
    ensures CountIn(r, n, from, to) as real <= Span(rate, from, to) + 2.0
  {
    hide Span;
    SpanStarts(rate, from, to);
    if n > 0 {
      if r[n - 1] <= to && CountIn(r, n, from, to) > 0 {
        ExitsBefore(rate, g, r, n, from, to);
        assert g[n - 1] <= r[n - 1];
        SpanGrows(rate, from, g[n - 1], to);
      } else {
        ExitsInWindow(rate, g, r, n - 1, from, to);
      }
    }
  }

  /**
   * The moments at which callers are let through, as opposed to the clock
   * values they were granted on, can bunch up by one more and no further.
   */
  lemma AtMostRateExits(rate: real, s: State, from: real, to: real)
    requires rate > 0.0 && from <= to && Reachable(rate, s)
    ensures CountIn(s.exits, |s.exits|, from, to) as real <= rate * (to - from) + 2.0
  {
    ReachableInv(rate, s);
    ExitsInWindow(rate, s.grants, s.exits, |s.exits|, from, to);
  }

  /** Exits `k` apart are at least `k - 1` times 1/rate apart. */
  lemma ExitsAreSpaced(rate: real, s: State, i: nat, j: nat)
    requires rate > 0.0 && Reachable(rate, s) && i < j < |s.exits|
    ensures s.exits[j] - s.exits[i] >= (j - i - 1) as real / rate
  {
    ReachableInv(rate, s);
    SpacedFar(rate, s.grants, i + 1, j);
  }

  /** The holder of the lock is between reading the clock and leaving with a grant. */
  predicate Deciding(s: State) {
    && s.lock.Some? && s.lock.value < |s.phase|
    && var ph := s.phase[s.lock.value]; ph.Timed? || ph.Measured? || ph == Granted
  }

  /** No time passes between reading the clock and leaving with a grant. */
  ghost predicate Prompt(rate: real, s0: State, run: seq<Action>, n: nat)
    requires rate > 0.0 && n <= |run|
  {
    forall k :: 0 <= k < n && After(rate, s0, run, k).Some? && run[k].Tick? && run[k].d > 0.0 ==>
      !Deciding(After(rate, s0, run, k).value)
  }

  ghost predicate OnTime(s: State) {
    && |s.exits| <= |s.grants|
    && (forall i :: 0 <= i < |s.exits| ==> s.exits[i] == s.grants[i])
    && (s.lock.Some? && s.lock.value < |s.phase| ==>
          match s.phase[s.lock.value]
          case Timed(now) => now == s.clock
          case Measured(now, _) => now == s.clock
          case Granted => s.last == s.clock
          case _ => true)
  }

  lemma StepKeepsOnTime(rate: real, s: State, a: Action)
    requires rate > 0.0 && Enabled(rate, s, a) && Inv(1.0 / rate, s) && OnTime(s)
    requires a.Tick? && a.d > 0.0 ==> !Deciding(s)
    ensures OnTime(Step(rate, s, a))
  {
    hide Spaced, NeverTwiceDenied, Interleaved;
  }

  lemma {:induction false} PromptIsOnTime(rate: real, s0: State, run: seq<Action>, n: nat)
    requires rate > 0.0 && n <= |run| && Initial(s0) && After(rate, s0, run, n).Some? && Prompt(rate, s0, run, n)
    ensures OnTime(After(rate, s0, run, n).value)
  {
    if n > 0 {
      PromptIsOnTime(rate, s0, run, n - 1);
      RunKeepsInv(rate, s0, run, n - 1);
      StepKeepsOnTime(rate, After(rate, s0, run, n - 1).value, run[n - 1]);
    }
  }

  /** When no time passes between reading the clock and leaving, exits are spaced like grants. */
  lemma PromptExitsAreSpaced(rate: real, s0: State, run: seq<Action>, i: nat, j: nat)
    requires rate > 0.0 && Initial(s0) && After(rate, s0, run, |run|).Some? && Prompt(rate, s0, run, |run|)
    requires i < j < |After(rate, s0, run, |run|).value.exits|
    ensures var t := After(rate, s0, run, |run|).value.exits; t[j] - t[i] >= (j - i) as real / rate
  {
    PromptIsOnTime(rate, s0, run, |run|);
    RunKeepsInv(rate, s0, run, |run|);
    SpacedFar(rate, After(rate, s0, run, |run|).value.grants, i, j);
  }

  /**
   * And they do: whenever one process is about to leave while another waits,
   * both can leave at the same instant, so spacing fails for exit times.
   */
  lemma ExitsCanCoincide(rate: real, s: State, p: nat, q: nat)
    requires rate > 0.0 && Reachable(rate, s)
    requires p < |s.phase| && q < |s.phase| && s.phase[p] == Granted && s.phase[q] == Waiting
    ensures var run := [Tick(1.0 / rate), Release(p), Acquire(q), ReadClock(q), Measure(q), Decide(q), Release(q)];
            var t := After(rate, s, run, 7);
            t.Some? && t.value.exits == s.exits + [t.value.clock, t.value.clock]
  {
    ReachableInv(rate, s);
    LeaveTogether(rate, s, p, q);
  }

  lemma LeaveTogether(rate: real, s: State, p: nat, q: nat)
    requires rate > 0.0 && s.last <= s.clock
    requires p < |s.phase| && q < |s.phase| && s.phase[p] == Granted && s.phase[q] == Waiting
    ensures var run := [Tick(1.0 / rate), Release(p), Acquire(q), ReadClock(q), Measure(q), Decide(q), Release(q)];
            var t := After(rate, s, run, 7);
            t.Some? && t.value.exits == s.exits + [t.value.clock, t.value.clock]
  {
    hide After;
    var run := [Tick(1.0 / rate), Release(p), Acquire(q), ReadClock(q), Measure(q), Decide(q), Release(q)];
    var now := s.clock + 1.0 / rate;
    DueIff(rate, now - s.last);
    var ph := s.phase[p := Outside];
    var s2 := s.(clock := now, phase := ph, lock := None, exits := s.exits + [now], sessions := s.sessions + [true]);
    LeaveAfterTick(rate, s, p, run);
    var s3 := s2.(phase := ph[q := Holding], lock := Some(q));
    assert Step(rate, s2, Acquire(q)) == s3;
    Next(rate, s, run, 2, s2, s3);
    var s4 := s3.(phase := ph[q := Timed(now)]);
    Next(rate, s, run, 3, s3, s4);
    var s5 := s4.(phase := ph[q := Measured(now, now - s.last)]);
    Next(rate, s, run, 4, s4, s5);
    var s6 := s5.(phase := ph[q := Granted], last := now, grants := s.grants + [now]);
    Next(rate, s, run, 5, s5, s6);
    var s7 := Step(rate, s6, Release(q));
    Next(rate, s, run, 6, s6, s7);
    assert s7.exits == s.exits + [now, now];
  }

  lemma Next(rate: real, s: State, run: seq<Action>, n: nat, t: State, u: State)
    requires rate > 0.0 && n < |run| && After(rate, s, run, n) == Some(t)
    requires Enabled(rate, t, run[n]) && Step(rate, t, run[n]) == u
    ensures After(rate, s, run, n + 1) == Some(u)
  {
  }

  lemma LeaveAfterTick(rate: real, s: State, p: nat, run: seq<Action>)
    requires rate > 0.0 && p < |s.phase| && s.phase[p] == Granted
    requires |run| >= 2 && run[0] == Tick(1.0 / rate) && run[1] == Release(p)
    ensures After(rate, s, run, 2)
         == Some(s.(clock := s.clock + 1.0 / rate, phase := s.phase[p := Outside], lock := None,
                    exits := s.exits + [s.clock + 1.0 / rate], sessions := s.sessions + [true]))
  {
    GapPositive(rate);
    assert After(rate, s, run, 0) == Some(s);
    Next(rate, s, run, 0, s, s.(clock := s.clock + 1.0 / rate));
    var t := s.(clock := s.clock + 1.0 / rate);
    Next(rate, s, run, 1, t, Step(rate, t, Release(p)));
  }

  // ---------------------------------------------------------------- progress

  function CountTrue(l: seq<bool>, n: nat): nat
    requires n <= |l|
  {
    if n == 0 then 0 else CountTrue(l, n - 1) + if l[n - 1] then 1 else 0
  }

  lemma {:induction false} EverySecondSession(l: seq<bool>, n: nat)
    requires n <= |l| && NeverTwiceDenied(l)
    ensures n <= 2 * CountTrue(l, n) + 1
    ensures n > 0 && l[n - 1] ==> n <= 2 * CountTrue(l, n)
  {
    if n > 0 { EverySecondSession(l, n - 1); }
  }

  /** Exits are exactly the sessions that were granted. */
  lemma {:induction false} ExitsAreGrantedSessions(rate: real, s0: State, run: seq<Action>, n: nat)
    requires rate > 0.0 && n <= |run| && Initial(s0) && After(rate, s0, run, n).Some?
    ensures var s := After(rate, s0, run, n).value; |s.exits| == CountTrue(s.sessions, |s.sessions|)
  {
    if n > 0 {
      ExitsAreGrantedSessions(rate, s0, run, n - 1);
      var s := After(rate, s0, run, n - 1).value;
      CountTruePrefix(s.sessions, [true], |s.sessions|);
      CountTruePrefix(s.sessions, [false], |s.sessions|);
    }
  }

  lemma {:induction false} CountTruePrefix(l: seq<bool>, m: seq<bool>, n: nat)
    requires n <= |l|
    ensures CountTrue(l + m, n) == CountTrue(l, n)
  {
    if n > 0 { CountTruePrefix(l, m, n - 1); }
  }

  /** Of `k` complete lock sessions at least half, rounded down, let a caller through. */
  lemma ThroughputPerSession(rate: real, s: State)
    requires rate > 0.0 && Reachable(rate, s)
    ensures |s.sessions| <= 2 * |s.exits| + 1
  {
    var s0, run: seq<Action> :| Initial(s0) && After(rate, s0, run, |run|) == Some(s);
    ReachableInv(rate, s);
    ExitsAreGrantedSessions(rate, s0, run, |run|);
    EverySecondSession(s.sessions, |s.sessions|);
  }

  /** A process that is refused and then meets no competitor leaves once 1/rate has passed. */
  lemma RefusedIsLetThrough(rate: real, s: State, p: nat, d: real)
    requires rate > 0.0 && Reachable(rate, s) && p < |s.phase| && s.phase[p] == Refused && d >= 1.0 / rate
    ensures var run := [BeginSleep(p), Tick(d), Wake(p), Release(p), Acquire(p), ReadClock(p), Measure(p), Decide(p),
                        Release(p)];
            var t := After(rate, s, run, 9);
            t.Some? && t.value.exits == s.exits + [s.clock + d] && t.value.clock == s.clock + d
  {
    ReachableInv(rate, s);
    LetThrough(rate, s, p, d);
  }

  lemma LetThrough(rate: real, s: State, p: nat, d: real)
    requires rate > 0.0 && s.last <= s.clock && p < |s.phase| && s.phase[p] == Refused && d >= 1.0 / rate
    ensures var run := [BeginSleep(p), Tick(d), Wake(p), Release(p), Acquire(p), ReadClock(p), Measure(p), Decide(p),
                        Release(p)];
            var t := After(rate, s, run, 9);
            t.Some? && t.value.exits == s.exits + [s.clock + d] && t.value.clock == s.clock + d
  {
    hide After;
    var run := [BeginSleep(p), Tick(d), Wake(p), Release(p), Acquire(p), ReadClock(p), Measure(p), Decide(p),
                Release(p)];
    var now, ph := s.clock + d, s.phase;
    DueIff(rate, now - s.last);
    Begins(rate, s, run);
    var s1 := s.(phase := ph[p := Sleeping(s.clock + 1.0 / rate)]);
    Next(rate, s, run, 0, s, s1);
    var s2 := s1.(clock := now);
    Next(rate, s, run, 1, s1, s2);
    var s3 := s2.(phase := ph[p := Woken]);
    Next(rate, s, run, 2, s2, s3);
    var s4 := s3.(phase := ph[p := Waiting], lock := None, sessions := s.sessions + [false]);
    Next(rate, s, run, 3, s3, s4);
    GoesThrough(rate, s, run, p, s4);
  }

  lemma Begins(rate: real, s: State, run: seq<Action>)
    requires rate > 0.0
    ensures After(rate, s, run, 0) == Some(s)
  {
  }

  /** From taking the lock after four steps to leaving after nine. */
  lemma GoesThrough(rate: real, s: State, run: seq<Action>, p: nat, s4: State)
    requires rate > 0.0 && |run| == 9 && After(rate, s, run, 4) == Some(s4)
    requires p < |s4.phase| && s4.phase[p] == Waiting && s4.lock == None && rate * (s4.clock - s4.last) >= 1.0
    requires run[4..] == [Acquire(p), ReadClock(p), Measure(p), Decide(p), Release(p)]
    ensures var t := After(rate, s, run, 9);
            t.Some? && t.value.exits == s4.exits + [s4.clock] && t.value.clock == s4.clock
  {
    hide After;
    var now, ph := s4.clock, s4.phase;
    forall k | 4 <= k < 9 ensures run[k] == run[4..][k - 4] {
    }
    var s5 := s4.(phase := ph[p := Holding], lock := Some(p));
    Next(rate, s, run, 4, s4, s5);
    var s6 := s5.(phase := ph[p := Timed(now)]);
    Next(rate, s, run, 5, s5, s6);
    var s7 := s6.(phase := ph[p := Measured(now, now - s4.last)]);
    Next(rate, s, run, 6, s6, s7);
    var s8 := s7.(phase := ph[p := Granted], last := now, grants := s4.grants + [now]);
    Next(rate, s, run, 7, s7, s8);
    Next(rate, s, run, 8, s8, Step(rate, s8, Release(p)));
  }

  /** No deadlock: the holder of the lock can move at once or, asleep, after at most 1/rate. */
  lemma HolderCanMove(rate: real, s: State) returns (wait: real, a: Action)
    requires rate > 0.0 && Reachable(rate, s) && s.lock.Some?
    ensures 0.0 <= wait <= 1.0 / rate && Enabled(rate, Step(rate, s, Tick(wait)), a) && !a.Tick? && a.p == s.lock.value
    ensures !s.phase[s.lock.value].Sleeping? ==> wait == 0.0
  {
    ReachableInv(rate, s);
    GapPositive(rate);
    var p := s.lock.value;
    wait := 0.0;
    match s.phase[p]
    case Holding => a := ReadClock(p);
    case Timed(_) => a := Measure(p);
    case Measured(_, _) => a := Decide(p);
    case Refused => a := BeginSleep(p);
    case Sleeping(until) =>
      a := Wake(p);
      wait := if until > s.clock then until - s.clock else 0.0;
    case Woken => a := Release(p);
    case Granted => a := Release(p);
  }
}
