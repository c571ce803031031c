/** The heartbeat watchdog of the supervisor: it polls a shell once a second and reports it stale
    when no fresh heartbeat was seen for the timeout. */
module Watchdog {
  import opened Common
  import opened Supervisor

  const READY_STATE: nat := 2
  const CLOCK_SKEW_MS: nat := 2000
  const STATUS_CONTROL_C_EXIT: nat := 0xC000013A

  /** The fields of a health snapshot that the watchdog looks at. */
  datatype Health = Health(processId: nat, state: nat, heartbeatTick: Tick)

  /** One turn of the loop. A sample carries what ReadHealthSnapshot returned, the clock that
      HeartbeatFresh read, and the clock that was read next. */
  datatype Poll =
    | Exited(code: nat)
    | WaitFailed
    | Sample(health: Option<Health>, freshTick: Tick, checkTick: Tick)

  datatype Verdict = Alive | NormalExit | Failed | HeartbeatStale

  /** Unsigned 64-bit addition, which wraps. */
  function Plus(a: Tick, b: Tick): Tick {
    if a + b < TICK_MODULUS then a + b else a + b - TICK_MODULUS
  }

  predicate HeartbeatFresh(heartbeat: Tick, now: Tick, maximumAge: Tick) {
    if heartbeat > Plus(now, CLOCK_SKEW_MS) then false
    else heartbeat > now || now - heartbeat <= maximumAge
  }

  predicate IsFailureExitCode(code: nat) {
    code != 0 && code != STATUS_CONTROL_C_EXIT && (code / 0x80000000) % 2 == 1
  }

  predicate Fresh(poll: Poll, pid: nat, timeout: Tick) {
    && poll.Sample? && poll.health.Some?
    && poll.health.value.processId == pid
    && poll.health.value.state == READY_STATE
    && HeartbeatFresh(poll.health.value.heartbeatTick, poll.freshTick, timeout)
  }

  /** The clock at the last fresh sample, or at the start if there was none. */
  function LastFresh(start: Tick, pid: nat, timeout: Tick, polls: seq<Poll>): Tick {
    if polls == [] then start
    else
      var last := polls[|polls| - 1];
      if Fresh(last, pid, timeout) then last.checkTick
      else LastFresh(start, pid, timeout, polls[..|polls| - 1])
  }

  predicate StaleAt(start: Tick, pid: nat, timeout: Tick, polls: seq<Poll>, i: nat)
    requires i < |polls|
  {
    && polls[i].Sample? && !Fresh(polls[i], pid, timeout)
    && Elapsed(polls[i].checkTick, LastFresh(start, pid, timeout, polls[..i])) > timeout
  }

  /** `at` is the first poll that ends the watch. */
  ghost predicate EndsFirstAt(start: Tick, pid: nat, timeout: Tick, polls: seq<Poll>, at: nat) {
    && at <= |polls|
    && forall i :: 0 <= i < at ==> polls[i].Sample? && !StaleAt(start, pid, timeout, polls, i)
  }

  method MonitorShell(start: Tick, pid: nat, timeout: Tick, polls: seq<Poll>)
    returns (verdict: Verdict, at: nat)
    ensures EndsFirstAt(start, pid, timeout, polls, at)
    ensures verdict == Alive <==> at == |polls|
    ensures verdict == HeartbeatStale ==> StaleAt(start, pid, timeout, polls, at)
    ensures verdict == NormalExit <==> at < |polls| && polls[at].Exited? && !IsFailureExitCode(polls[at].code)
    ensures verdict == Failed <==>
      at < |polls| && (polls[at].WaitFailed? || (polls[at].Exited? && IsFailureExitCode(polls[at].code)))
    // a failure is a code with the top bit set, other than that of Ctrl+C
    ensures at < |polls| && polls[at].Exited? && polls[at].code < 0x1_0000_0000 ==>
      (verdict == Failed <==> polls[at].code >= 0x8000_0000 && polls[at].code != 0xC000_013A)
  {
    var lastFresh := start;
    at := 0;
    while at < |polls|
      invariant at <= |polls|
      invariant lastFresh == LastFresh(start, pid, timeout, polls[..at])
      invariant EndsFirstAt(start, pid, timeout, polls, at)
    {
      var poll := polls[at];
      assert polls[..at + 1][..at] == polls[..at];
      if poll.Exited? {
        return if IsFailureExitCode(poll.code) then Failed else NormalExit, at;
      }
      if poll.WaitFailed? { return Failed, at; }
      if Fresh(poll, pid, timeout) {
        lastFresh := poll.checkTick;
      } else if Elapsed(poll.checkTick, lastFresh) > timeout {
        return HeartbeatStale, at;
      }
      at := at + 1;
    }
    verdict := Alive;
  }

  // ---------------------------------------------------------------------------
  // Bounds
  // ---------------------------------------------------------------------------

  function Clock(start: Tick, polls: seq<Poll>, i: nat): Tick
    requires i <= |polls|
  {
    if i == 0 || !polls[i - 1].Sample? then start else polls[i - 1].checkTick
  }

  ghost predicate TimelyAt(start: Tick, polls: seq<Poll>, gap: nat, i: nat)
    requires i < |polls|
  {
    polls[i].Sample? ==>
      Clock(start, polls, i) <= polls[i].freshTick <= polls[i].checkTick <= Clock(start, polls, i) + gap
  }

  /** The clock does not go back, and a turn of the loop takes at most `gap`. */
  ghost predicate Timely(start: Tick, polls: seq<Poll>, gap: nat) {
    forall i :: 0 <= i < |polls| ==> TimelyAt(start, polls, gap, i)
  }

  lemma {:induction false} ClockMonotone(start: Tick, polls: seq<Poll>, gap: nat, i: nat, j: nat)
    requires Timely(start, polls, gap) && i <= j <= |polls|
    requires forall k :: 0 <= k < j ==> polls[k].Sample?
    ensures Clock(start, polls, i) <= Clock(start, polls, j)
    decreases j - i
  {
    if i < j {
      assert TimelyAt(start, polls, gap, j - 1);
      ClockMonotone(start, polls, gap, i, j - 1);
    }
  }

  /** No false alarm: when a shell is reported stale, more than the timeout has passed since the
      watch began and since every sample that showed a fresh heartbeat. */
  lemma {:induction false} StaleOnlyAfterTimeout(start: Tick, pid: nat, timeout: Tick, polls: seq<Poll>,
                                                 gap: nat, at: nat)
    requires Timely(start, polls, gap)
    requires EndsFirstAt(start, pid, timeout, polls, at)
    requires at < |polls| && StaleAt(start, pid, timeout, polls, at)
    ensures polls[at].checkTick - start > timeout
    ensures forall i :: 0 <= i <= at && Fresh(polls[i], pid, timeout) ==>
      polls[at].checkTick - polls[i].checkTick > timeout
  {
    var last := LastFresh(start, pid, timeout, polls[..at]);
    LastFreshIsLatest(start, pid, timeout, polls, gap, at);
    ClockMonotone(start, polls, gap, 0, at);
    assert TimelyAt(start, polls, gap, at);
    assert last <= polls[at].checkTick;
  }

  lemma {:induction false} LastFreshIsLatest(start: Tick, pid: nat, timeout: Tick, polls: seq<Poll>, gap: nat, n: nat)
    requires Timely(start, polls, gap) && n <= |polls|
    requires forall k :: 0 <= k < n ==> polls[k].Sample?
    ensures start <= LastFresh(start, pid, timeout, polls[..n]) <= Clock(start, polls, n)
    ensures forall i :: 0 <= i < n && Fresh(polls[i], pid, timeout) ==>
      polls[i].checkTick <= LastFresh(start, pid, timeout, polls[..n])
  {
    if n > 0 {
      assert polls[..n][..n - 1] == polls[..n - 1];
      LastFreshIsLatest(start, pid, timeout, polls, gap, n - 1);
      assert TimelyAt(start, polls, gap, n - 1);
      ClockMonotone(start, polls, gap, 0, n - 1);
    }
  }

  function Max(a: int, b: int): int { if a < b then b else a }

  /** Every sample so far shows a heartbeat not after `h`. */
  ghost predicate StoppedAt(polls: seq<Poll>, h: Tick) {
    forall i :: 0 <= i < |polls| ==>
      polls[i].Sample? && (polls[i].health.Some? ==> polls[i].health.value.heartbeatTick <= h)
  }

  /** A heartbeat that stopped at `h` is not taken for fresh later than the timeout after `h`. */
  lemma {:induction false} LastFreshBounded(start: Tick, pid: nat, timeout: Tick, polls: seq<Poll>,
                                            gap: nat, h: Tick, n: nat)
    requires Timely(start, polls, gap) && StoppedAt(polls, h) && n <= |polls|
    ensures LastFresh(start, pid, timeout, polls[..n]) <= Max(h, start) + timeout + gap
  {
    if n > 0 {
      assert polls[..n][..n - 1] == polls[..n - 1];
      LastFreshBounded(start, pid, timeout, polls, gap, h, n - 1);
      assert TimelyAt(start, polls, gap, n - 1);
    }
  }

  /** No missed alarm: if the heartbeat stopped at `h`, the process stays alive and the watch goes
      on long enough, the shell is reported stale within twice the timeout and two turns of the
      loop after `h`, or after the start of the watch if that is later. */
  lemma StaleWithinBound(start: Tick, pid: nat, timeout: Tick, polls: seq<Poll>, gap: nat, h: Tick,
                         verdict: Verdict, at: nat)
    requires Timely(start, polls, gap) && StoppedAt(polls, h)
    requires polls != [] && polls[|polls| - 1].checkTick > Max(h, start) + 2 * timeout + gap
    // what MonitorShell promises
    requires EndsFirstAt(start, pid, timeout, polls, at)
    requires verdict == Alive <==> at == |polls|
    requires at < |polls| ==> (verdict == HeartbeatStale <==> polls[at].Sample?)
    ensures verdict == HeartbeatStale && at < |polls|
    ensures polls[at].checkTick <= Max(h, start) + 2 * timeout + 2 * gap
  {
    hide Fresh, LastFresh;
    var bound := Max(h, start) + 2 * timeout + gap;
    var first := FirstPast(start, polls, gap, bound);
    StaleOncePast(start, pid, timeout, polls, gap, h, first);
    assert at <= first;
    ClockMonotone(start, polls, gap, at + 1, first + 1);
  }

  lemma StaleOncePast(start: Tick, pid: nat, timeout: Tick, polls: seq<Poll>, gap: nat, h: Tick, i: nat)
    requires Timely(start, polls, gap) && StoppedAt(polls, h) && i < |polls|
    requires polls[i].checkTick > Max(h, start) + 2 * timeout + gap
    ensures StaleAt(start, pid, timeout, polls, i)
  {
    LastFreshBounded(start, pid, timeout, polls, gap, h, i);
    assert TimelyAt(start, polls, gap, i);
  }

  /** The watch on a shell whose heartbeat has stopped ends with an alarm, neither too early nor too late. */
  method MonitorStoppedShell(start: Tick, pid: nat, timeout: Tick, polls: seq<Poll>, ghost gap: nat, ghost h: Tick)
    returns (verdict: Verdict, at: nat)
    requires Timely(start, polls, gap) && StoppedAt(polls, h)
    requires polls != [] && polls[|polls| - 1].checkTick > Max(h, start) + 2 * timeout + gap
    ensures verdict == HeartbeatStale && at < |polls|
    ensures start + timeout < polls[at].checkTick <= Max(h, start) + 2 * timeout + 2 * gap
  {
    hide Timely, EndsFirstAt, StaleAt, IsFailureExitCode;
    verdict, at := MonitorShell(start, pid, timeout, polls);
    StaleWithinBound(start, pid, timeout, polls, gap, h, verdict, at);
    StaleOnlyAfterTimeout(start, pid, timeout, polls, gap, at);
  }

  // ---------------------------------------------------------------------------
  // Which samples count, in plain arithmetic
  // ---------------------------------------------------------------------------

  /** The clock is far from its wrap-around. */
  ghost predicate NoWrap(polls: seq<Poll>) {
    forall i :: 0 <= i < |polls| && polls[i].Sample? ==> polls[i].freshTick + 2000 < 0x1_0000_0000_0000_0000
  }

  /** The sample shows this process, ready, with a heartbeat at most the timeout old and at most 2 s
      ahead of the clock. */
  predicate Beating(poll: Poll, pid: nat, timeout: Tick) {
    && poll.Sample? && poll.health.Some?
    && poll.health.value.processId == pid && poll.health.value.state == 2
    && poll.freshTick - timeout <= poll.health.value.heartbeatTick <= poll.freshTick + 2000
  }

  /** Which samples count on any clock: within 2 s of its wrap-around the sum of the clock and the
      allowance is small, and a heartbeat above it counts as too far ahead. */
  lemma FreshExactly(poll: Poll, pid: nat, timeout: Tick)
    requires poll.Sample?
    ensures Fresh(poll, pid, timeout) <==>
      && Beating(poll, pid, timeout)
      && (poll.freshTick + 2000 < 0x1_0000_0000_0000_0000
          || poll.health.value.heartbeatTick <= poll.freshTick + 2000 - 0x1_0000_0000_0000_0000)
  {
  }

  lemma FreshIsBeating(polls: seq<Poll>, pid: nat, timeout: Tick)
    requires NoWrap(polls)
    ensures forall i :: 0 <= i < |polls| ==> (Fresh(polls[i], pid, timeout) <==> Beating(polls[i], pid, timeout))
  {
  }

  /** A shell whose every sample shows it alive and beating is left alone. */
  method MonitorBeatingShell(start: Tick, pid: nat, timeout: Tick, polls: seq<Poll>) returns (verdict: Verdict, at: nat)
    requires NoWrap(polls) && forall i :: 0 <= i < |polls| ==> Beating(polls[i], pid, timeout)
    ensures verdict == Alive && at == |polls|
  {
    verdict, at := MonitorShell(start, pid, timeout, polls);
    FreshIsBeating(polls, pid, timeout);
  }

  /** An alarm comes more than the timeout after the start and after every sample that showed the
      shell beating. */
  method MonitorAnyShell(start: Tick, pid: nat, timeout: Tick, polls: seq<Poll>, ghost gap: nat)
    returns (verdict: Verdict, at: nat)
    requires NoWrap(polls) && Timely(start, polls, gap)
    ensures verdict == HeartbeatStale ==>
      && at < |polls| && polls[at].Sample? && !Beating(polls[at], pid, timeout)
      && polls[at].checkTick - start > timeout
      && forall i :: 0 <= i <= at && Beating(polls[i], pid, timeout) ==>
           polls[at].checkTick - polls[i].checkTick > timeout
  {
    hide Timely, IsFailureExitCode;
    verdict, at := MonitorShell(start, pid, timeout, polls);
    FreshIsBeating(polls, pid, timeout);
    if verdict == HeartbeatStale {
      StaleOnlyAfterTimeout(start, pid, timeout, polls, gap, at);
    }
  }

  /** A shell that no sample shows beating - another process, another state, too old or too far ahead
      - is reported at the first sample that is more than the timeout after the start. */
  method MonitorSilentShell(start: Tick, pid: nat, timeout: Tick, polls: seq<Poll>, ghost gap: nat)
    returns (verdict: Verdict, at: nat)
    requires NoWrap(polls) && Timely(start, polls, gap)
    requires forall i :: 0 <= i < |polls| ==> polls[i].Sample? && !Beating(polls[i], pid, timeout)
    ensures verdict == (if at < |polls| then HeartbeatStale else Alive) && at <= |polls|
    ensures at < |polls| ==> polls[at].checkTick > start + timeout
    ensures forall i :: 0 <= i < at ==> polls[i].checkTick <= start + timeout
  {
    hide IsFailureExitCode, Fresh, Beating;
    FreshIsBeating(polls, pid, timeout);
    verdict, at := MonitorShell(start, pid, timeout, polls);
    forall i | 0 <= i < |polls|
      ensures StaleAt(start, pid, timeout, polls, i) <==> polls[i].checkTick > start + timeout
    {
      NeverFresh(start, pid, timeout, polls, i);
      ClockMonotone(start, polls, gap, 0, i);
      assert TimelyAt(start, polls, gap, i);
    }
  }

  lemma {:induction false} NeverFresh(start: Tick, pid: nat, timeout: Tick, polls: seq<Poll>, n: nat)
    requires n <= |polls| && forall i :: 0 <= i < n ==> !Fresh(polls[i], pid, timeout)
    ensures LastFresh(start, pid, timeout, polls[..n]) == start
  {
    hide Fresh;
    if n > 0 {
      assert polls[..n][..n - 1] == polls[..n - 1];
      NeverFresh(start, pid, timeout, polls, n - 1);
    }
  }

  /** The first poll whose clock is past `bound`. */
  lemma {:induction false} FirstPast(start: Tick, polls: seq<Poll>, gap: nat, bound: nat) returns (first: nat)
    requires Timely(start, polls, gap) && start <= bound
    requires forall i :: 0 <= i < |polls| ==> polls[i].Sample?
    requires polls != [] && polls[|polls| - 1].checkTick > bound
    ensures first < |polls| && bound < polls[first].checkTick <= bound + gap
    ensures Clock(start, polls, first) <= bound
  {
    first := |polls| - 1;
    while first > 0 && polls[first - 1].checkTick > bound
      invariant first < |polls| && polls[first].checkTick > bound
    {
      first := first - 1;
    }
    assert TimelyAt(start, polls, gap, first);
  }
}
