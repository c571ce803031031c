/** The native supervisor: it launches the shell, waits for readiness, watches it, and restarts
    it or falls back to Explorer. Version 22 re-implements version 11 with a rolling crash
    window and a persisted state trace.

    What Windows reports during one turn of the loop is a value of type `Turn`; a run is driven
    by a sequence of turns, so a statement for every sequence is a statement for every run. */
module Supervisor {

  const STABLE_RUN_RESET_MS: nat := 120000
  const CRASH_WINDOW_MS: nat := 60000
  const HANG_EXIT: nat := 0xC0000409
  const TICK_MODULUS: nat := 0x1_0000_0000_0000_0000

  type Tick = t: int | 0 <= t < TICK_MODULUS

  /** Unsigned 64-bit subtraction, which wraps. */
  function Elapsed(now: Tick, since: Tick): Tick {
    if since <= now then now - since else TICK_MODULUS + now - since
  }

  datatype Monitored = MonitorNormalExit | MonitorStale | MonitorFailure

  /** The outcome of a launched shell; `code` is the exit code that was read, if any. */
  datatype Outcome =
    | NormalExitBeforeReady
    | ReadyTimeout
    | FailedBeforeReady(code: nat)
    | Ready(probeOk: bool, monitored: Monitored, code: nat)

  datatype Turn =
    | LaunchFailed(error: nat, recordTick: Tick)
    | Launched(pid: nat, jobAssigned: bool, launchTick: Tick, outcome: Outcome, endTick: Tick, recordTick: Tick)
  {
    /** The turn ends the supervisor without a failure being counted. */
    predicate Final(probe: bool) {
      Launched? && (outcome.NormalExitBeforeReady?
                    || (outcome.Ready? && (probe || outcome.monitored.MonitorNormalExit?)))
    }

    /** The shell ran long enough for earlier failures to be forgotten. */
    predicate Stable() {
      Launched? && Elapsed(endTick, launchTick) >= STABLE_RUN_RESET_MS
    }
  }

  datatype Options = Options(maximumFailures: nat, probeReadyOnce: bool)

  /** How a run ends: at which turn, and with which of the two kinds of return. `Running` is a
      run for which Windows has not reported anything further. */
  datatype End =
    | Running(failureCount: nat)
    | Finished(turn: nat, code: int)
    | Fallback(turn: nat)

  function FinalCode(turn: Turn, probe: bool): int
    requires turn.Final(probe)
  {
    if turn.outcome.Ready? && probe && !turn.outcome.probeOk then 44 else 0
  }

  // ---------------------------------------------------------------------------
  // What both versions are for, without their state: the turn at which a run ends is decided
  // by the number of failures since the last stable run.
  // ---------------------------------------------------------------------------

  /** Failures in a row up to the end of `turns`, counting from the last stable run, which
      itself ended in a failure. */
  function FailuresInARow(turns: seq<Turn>): (n: nat)
    ensures turns != [] ==> n > 0
  {
    if turns == [] then 0
    else
      var last := turns[|turns| - 1];
      1 + if last.Stable() then 0 else FailuresInARow(turns[..|turns| - 1])
  }

  predicate EndsAt(options: Options, turns: seq<Turn>, i: nat)
    requires i < |turns|
  {
    turns[i].Final(options.probeReadyOnce) || FailuresInARow(turns[..i + 1]) >= options.maximumFailures
  }

  /** The specification of a run: it ends at the first turn that is final or exhausts the budget. */
  ghost predicate CorrectEnd(options: Options, turns: seq<Turn>, end: End) {
    match end
    case Running(n) =>
      && n == FailuresInARow(turns)
      && forall i :: 0 <= i < |turns| ==> !EndsAt(options, turns, i)
    case Finished(t, code) =>
      && t < |turns| && turns[t].Final(options.probeReadyOnce)
      && code == FinalCode(turns[t], options.probeReadyOnce)
      && forall i :: 0 <= i < t ==> !EndsAt(options, turns, i)
    case Fallback(t) =>
      && t < |turns| && !turns[t].Final(options.probeReadyOnce) && EndsAt(options, turns, t)
      && forall i :: 0 <= i < t ==> !EndsAt(options, turns, i)
  }

  /** A run has only one correct end. */
  lemma CorrectEndUnique(options: Options, turns: seq<Turn>, a: End, b: End)
    requires CorrectEnd(options, turns, a) && CorrectEnd(options, turns, b)
    ensures a == b
  {
    assert !a.Running? ==> EndsAt(options, turns, a.turn);
    assert !b.Running? ==> EndsAt(options, turns, b.turn);
  }

  lemma FailuresSnoc(turns: seq<Turn>, i: nat)
    requires i < |turns|
    ensures FailuresInARow(turns[..i + 1])
         == 1 + if turns[i].Stable() then 0 else FailuresInARow(turns[..i])
  {
    assert turns[..i + 1][..i] == turns[..i];
  }

  // ---------------------------------------------------------------------------
  // The end of a run, spelled out
  // ---------------------------------------------------------------------------

  /** The shell lived for two minutes or more. */
  predicate LongRun(turn: Turn) {
    turn.Launched? && (turn.endTick - turn.launchTick) % 0x1_0000_0000_0000_0000 >= 120_000
  }

  /** The shell could not be launched, did not get ready, or was lost later. */
  predicate Failing(turn: Turn, probe: bool) {
    || turn.LaunchFailed?
    || turn.outcome.ReadyTimeout? || turn.outcome.FailedBeforeReady?
    || (turn.outcome.Ready? && !probe && turn.outcome.monitored != MonitorNormalExit)
  }

  /** The turn ends the supervisor with this code: the shell left in peace, or answered the probe. */
  predicate Leaves(turn: Turn, probe: bool, code: int) {
    && turn.Launched?
    && match turn.outcome
       case NormalExitBeforeReady => code == 0
       case Ready(probeOk, monitored, _) =>
         if probe then code == (if probeOk then 0 else 44) else monitored == MonitorNormalExit && code == 0
       case _ => false
  }

  /** The budget is used up at turn `t`: as many turns as it allows end there, and none of them but
      the first was a long run. */
  predicate Exhausts(budget: nat, turns: seq<Turn>, t: nat)
    requires t < |turns|
  {
    budget <= t + 1 && forall i :: t + 1 - budget < i <= t ==> !LongRun(turns[i])
  }

  lemma StableIsLongRun(turn: Turn)
    ensures turn.Stable() <==> LongRun(turn)
  {
    if turn.Launched? {
      var d := turn.endTick - turn.launchTick;
      assert d < 0 ==> d % TICK_MODULUS == (d + TICK_MODULUS) % TICK_MODULUS;
    }
  }

  lemma {:induction false} FailuresReach(turns: seq<Turn>, m: nat)
    requires m >= 1
    ensures FailuresInARow(turns) >= m <==>
      m <= |turns| && forall i :: |turns| - m < i < |turns| ==> !LongRun(turns[i])
  {
    if turns != [] {
      var n := |turns| - 1;
      StableIsLongRun(turns[n]);
      if m > 1 {
        FailuresReach(turns[..n], m - 1);
        assert forall i :: 0 <= i < n ==> turns[..n][i] == turns[i];
      }
    }
  }

  lemma EndsAtExplained(options: Options, turns: seq<Turn>, t: nat)
    requires t < |turns|
    ensures Failing(turns[t], options.probeReadyOnce) <==> !turns[t].Final(options.probeReadyOnce)
    ensures !EndsAt(options, turns, t) <==>
      Failing(turns[t], options.probeReadyOnce) && !Exhausts(options.maximumFailures, turns, t)
  {
    if options.maximumFailures >= 1 {
      FailuresReach(turns[..t + 1], options.maximumFailures);
    }
  }

  /** How a run of either version ends: it leaves at the first turn at which the shell left in peace
      or answered the probe, or falls back at the first at which the budget is used up, and goes on
      while neither has happened. */
  lemma EndIsExplained(options: Options, turns: seq<Turn>, end: End)
    requires CorrectEnd(options, turns, end)
    ensures var last := if end.Running? then |turns| else end.turn;
      && last <= |turns|
      && (forall i :: 0 <= i < last ==>
            Failing(turns[i], options.probeReadyOnce) && !Exhausts(options.maximumFailures, turns, i))
      && match end
         case Running(n) =>
           n <= |turns| && forall i :: |turns| - n < i < |turns| ==> !LongRun(turns[i])
         case Finished(t, code) => t < |turns| && Leaves(turns[t], options.probeReadyOnce, code)
         case Fallback(t) =>
           && t < |turns| && Failing(turns[t], options.probeReadyOnce)
           && Exhausts(options.maximumFailures, turns, t)
  {
    hide FailuresInARow, Exhausts, EndsAt, LongRun;
    var last := if end.Running? then |turns| else end.turn;
    forall i | 0 <= i <= last && i < |turns|
      ensures !EndsAt(options, turns, i) <==>
        Failing(turns[i], options.probeReadyOnce) && !Exhausts(options.maximumFailures, turns, i)
      ensures Failing(turns[i], options.probeReadyOnce) <==> !turns[i].Final(options.probeReadyOnce)
    {
      EndsAtExplained(options, turns, i);
    }
    if end.Running? && end.failureCount >= 1 {
      FailuresReach(turns, end.failureCount);
    }
  }

  // ---------------------------------------------------------------------------
  // Backoff
  // ---------------------------------------------------------------------------

  function Power2(n: nat): nat { if n == 0 then 1 else 2 * Power2(n - 1) }

  function RestartBackoff(failureCount: nat): (ms: nat)
    ensures 500 <= ms <= 4000
  {
    var shift := var raised := if failureCount > 0 then failureCount - 1 else 0;
                 if raised < 3 then raised else 3;
    assert Power2(shift) <= 8 by { assert Power2(1) == 2 && Power2(2) == 4 && Power2(3) == 8; }
    var ms := 500 * Power2(shift);
    if ms < 4000 then ms else 4000
  }

  function Sum(s: seq<nat>): nat {
    if s == [] then 0 else Sum(s[..|s| - 1]) + s[|s| - 1]
  }

  /** The sleeps of `n` failures in a row. */
  function Backoffs(n: nat): (s: seq<nat>)
    ensures |s| == n
  {
    seq(n, i requires i >= 0 => RestartBackoff(i + 1))
  }

  /** The sleeps of a row of failures never shrink and total at most 27.5 s within the largest
      budget that can be configured. */
  lemma {:induction false} BackoffsBounded(n: nat)
    ensures forall i, j :: 0 <= i <= j < n ==> 500 <= Backoffs(n)[i] <= Backoffs(n)[j] <= 4000
    ensures Sum(Backoffs(n)) == (if n <= 3 then [0, 500, 1500, 3500][n] else 3500 + 4000 * (n - 3))
    ensures n <= 9 ==> Sum(Backoffs(n)) <= 27500
  {
    assert Power2(1) == 2 && Power2(2) == 4 && Power2(3) == 8;
    if n > 0 {
      assert Backoffs(n)[..n - 1] == Backoffs(n - 1);
      BackoffsBounded(n - 1);
    }
  }

  // ---------------------------------------------------------------------------
  // Version 11
  // ---------------------------------------------------------------------------

  method RunSupervisorV11(options: Options, turns: seq<Turn>) returns (end: End, sleeps: seq<nat>)
    ensures CorrectEnd(options, turns, end)
    ensures |sleeps| == if end.Running? then |turns| else end.turn
    ensures forall i :: 0 <= i < |sleeps| ==> sleeps[i] == RestartBackoff(FailuresInARow(turns[..i + 1]))
  {
    var failureCount := 0;
    sleeps := [];
    var i := 0;
    while i < |turns|
      invariant i <= |turns| && |sleeps| == i
      invariant failureCount == FailuresInARow(turns[..i])
      invariant forall j :: 0 <= j < i ==> !EndsAt(options, turns, j)
      invariant forall j :: 0 <= j < i ==> sleeps[j] == RestartBackoff(FailuresInARow(turns[..j + 1]))
    {
      FailuresSnoc(turns, i);
      var turn := turns[i];
      if turn.LaunchFailed? {
        failureCount := failureCount + 1;
        if failureCount >= options.maximumFailures { return Fallback(i), sleeps; }
        sleeps := sleeps + [RestartBackoff(failureCount)];
        i := i + 1;
        continue;
      }
      if turn.outcome.NormalExitBeforeReady? { return Finished(i, 0), sleeps; }
      if turn.outcome.Ready? {
        if options.probeReadyOnce {
          return Finished(i, if turn.outcome.probeOk then 0 else 44), sleeps;
        }
        if turn.outcome.monitored.MonitorNormalExit? { return Finished(i, 0), sleeps; }
      }
      if Elapsed(turn.endTick, turn.launchTick) >= STABLE_RUN_RESET_MS { failureCount := 0; }
      failureCount := failureCount + 1;
      if failureCount >= options.maximumFailures { return Fallback(i), sleeps; }
      sleeps := sleeps + [RestartBackoff(failureCount)];
      i := i + 1;
    }
    assert turns[..i] == turns;
    end := Running(failureCount);
  }

  // ---------------------------------------------------------------------------
  // The crash window of version 22
  // ---------------------------------------------------------------------------

  function Recent(history: seq<Tick>, now: Tick): seq<Tick> {
    if history == [] then []
    else
      var rest, last := Recent(history[..|history| - 1], now), history[|history| - 1];
      if Elapsed(now, last) <= CRASH_WINDOW_MS then rest + [last] else rest
  }

  method PurgeOldFailures(failures: seq<Tick>, now: Tick) returns (kept: seq<Tick>)
    ensures |kept| <= |failures| && kept == failures[|failures| - |kept|..]
    ensures kept != [] ==> Elapsed(now, kept[0]) <= CRASH_WINDOW_MS
    ensures forall i :: 0 <= i < |failures| - |kept| ==> Elapsed(now, failures[i]) > CRASH_WINDOW_MS
  {
    kept := failures;
    while kept != [] && Elapsed(now, kept[0]) > CRASH_WINDOW_MS
      invariant |kept| <= |failures| && kept == failures[|failures| - |kept|..]
      invariant forall i :: 0 <= i < |failures| - |kept| ==> Elapsed(now, failures[i]) > CRASH_WINDOW_MS
    {
      kept := kept[1..];
    }
  }

  method RecordFailure(failures: seq<Tick>, now: Tick, maximumFailures: nat)
    returns (recorded: seq<Tick>, crashLoop: bool)
    ensures 0 < |recorded| <= |failures| + 1
    ensures crashLoop == (|recorded| >= maximumFailures)
    ensures forall history :: InOrder(history, now) && IsWindow(history, failures) ==>
      recorded == Recent(history + [now], now) && IsWindow(history + [now], recorded)
  {
    var kept := PurgeOldFailures(failures, now);
    recorded := kept + [now];
    crashLoop := |recorded| >= maximumFailures;
    forall history | InOrder(history, now) && IsWindow(history, failures)
      ensures recorded == Recent(history + [now], now) && IsWindow(history + [now], recorded)
    {
      PurgeIsFilter(history, failures, now, kept);
    }
  }

  /** The clock has not gone back: the history is in order, and not after `now`. */
  ghost predicate InOrder(history: seq<Tick>, now: Tick) {
    && (forall i, j :: 0 <= i <= j < |history| ==> history[i] <= history[j])
    && (forall i :: 0 <= i < |history| ==> history[i] <= now)
  }

  /** The deque is what the last purge left of the failure history. */
  ghost predicate IsWindow(history: seq<Tick>, failures: seq<Tick>) {
    if history == [] then failures == []
    else failures == Recent(history, history[|history| - 1])
  }

  /** `k` separates the failures that have left the window from those still in it. */
  ghost predicate SplitsAt(history: seq<Tick>, now: Tick, k: nat) {
    && k <= |history|
    && (forall i :: 0 <= i < k ==> history[i] < now - CRASH_WINDOW_MS)
    && (forall i :: k <= i < |history| ==> now - CRASH_WINDOW_MS <= history[i])
  }

  lemma RecentSnoc(history: seq<Tick>, now: Tick)
    ensures Recent(history + [now], now) == Recent(history, now) + [now]
  {
    assert (history + [now])[..|history|] == history;
  }

  /** Of a history in order, the recent failures are a suffix. */
  lemma {:induction false} RecentIsSuffix(history: seq<Tick>, now: Tick, k: nat)
    requires InOrder(history, now) && SplitsAt(history, now, k)
    ensures Recent(history, now) == history[k..]
  {
    if history != [] {
      var n := |history| - 1;
      if k <= n {
        RecentIsSuffix(history[..n], now, k);
        assert history[k..] == history[..n][k..] + [history[n]];
      } else {
        RecentIsSuffix(history[..n], now, n);
        assert history[..n][n..] == [] == history[k..];
      }
    }
  }

  lemma {:induction false} SplitExists(history: seq<Tick>, now: Tick) returns (k: nat)
    requires InOrder(history, now)
    ensures SplitsAt(history, now, k)
  {
    k := |history|;
    while k > 0 && now - CRASH_WINDOW_MS <= history[k - 1]
      invariant k <= |history|
      invariant forall i :: k <= i < |history| ==> now - CRASH_WINDOW_MS <= history[i]
    {
      k := k - 1;
    }
  }

  /** The crash window holds, in order, just the failures of the last minute before the latest one. */
  lemma WindowIsLastMinute(history: seq<Tick>, failures: seq<Tick>) returns (k: nat)
    requires history != [] && InOrder(history, history[|history| - 1]) && IsWindow(history, failures)
    ensures k < |history| && failures == history[k..]
    ensures forall i :: 0 <= i < k ==> history[|history| - 1] - history[i] > 60_000
    ensures forall i :: k <= i < |history| ==> history[|history| - 1] - history[i] <= 60_000
  {
    hide Recent;
    k := SplitExists(history, history[|history| - 1]);
    RecentIsSuffix(history, history[|history| - 1], k);
  }

  /** Purging the deque from its front computes the filter of the whole history. */
  lemma PurgeIsFilter(history: seq<Tick>, failures: seq<Tick>, now: Tick, kept: seq<Tick>)
    requires InOrder(history, now) && IsWindow(history, failures)
    requires |kept| <= |failures| && kept == failures[|failures| - |kept|..]
    requires kept != [] ==> Elapsed(now, kept[0]) <= CRASH_WINDOW_MS
    requires forall i :: 0 <= i < |failures| - |kept| ==> Elapsed(now, failures[i]) > CRASH_WINDOW_MS
    ensures kept + [now] == Recent(history + [now], now)
    ensures IsWindow(history + [now], kept + [now])
  {
    hide Recent;
    RecentSnoc(history, now);
    if history != [] {
      var last := history[|history| - 1];
      var k := SplitExists(history, last);
      RecentIsSuffix(history, last, k);
      var d := k + |failures| - |kept|;
      assert failures == history[k..];
      assert kept == history[d..];
      assert forall i :: k <= i < d ==> history[i] == failures[i - k];
      RecentIsSuffix(history, now, d);
    } else {
      RecentIsSuffix(history, now, 0);
    }
  }
}
