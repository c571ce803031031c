/** The bootstrapper restarts the desktop host after a failure, unless it failed too often lately;
    then it asks the user. The failures are remembered in a saved state that every step prunes to
    the policy's window.

    Times are in milliseconds. What happens outside is a sequence of attempts, and the saved state
    carries over from one start of the bootstrapper to the next. */
module Bootstrap {
  import opened Common

  // ---------------------------------------------------------------------------
  // The policy
  // ---------------------------------------------------------------------------

  datatype BootstrapState = BootstrapState(
    failureTimes: seq<int>,
    lastReady: Option<int>,
    lastStable: Option<int>,
    lastCleanExit: Option<int>,
    lastExitCode: Option<int>)

  const MINUTE: int := 60_000

  function Insert(t: int, s: seq<int>): seq<int> {
    if s == [] || s[|s| - 1] <= t then s + [t] else Insert(t, s[..|s| - 1]) + [s[|s| - 1]]
  }

  function Sort(s: seq<int>): seq<int> {
    if s == [] then [] else Insert(s[|s| - 1], Sort(s[..|s| - 1]))
  }

  function Between(s: seq<int>, low: int, high: int): seq<int> {
    if s == [] then []
    else
      var front, last := Between(s[..|s| - 1], low, high), s[|s| - 1];
      if low <= last <= high then front + [last] else front
  }

  datatype Policy = Policy(threshold: nat, window: nat) {

    predicate Valid() {
      2 <= threshold <= 10 && 10_000 <= window <= 60 * MINUTE
    }

    function RecentFailures(state: BootstrapState, now: int): seq<int> {
      Sort(Between(state.failureTimes, now - window, now + MINUTE))
    }

    predicate ShouldEnterRecovery(state: BootstrapState, now: int) {
      |RecentFailures(state, now)| >= threshold
    }

    function RecordReady(state: BootstrapState, now: int): BootstrapState {
      state.(failureTimes := RecentFailures(state, now), lastReady := Some(now))
    }

    function RecordStable(state: BootstrapState, now: int): BootstrapState {
      state.(failureTimes := [], lastStable := Some(now), lastExitCode := None)
    }

    function RecordCleanExit(state: BootstrapState, now: int, exitCode: int): BootstrapState {
      state.(failureTimes := [], lastCleanExit := Some(now), lastExitCode := Some(exitCode))
    }

    function RecordFailure(state: BootstrapState, now: int, exitCode: Option<int>): BootstrapState {
      state.(failureTimes := RecentFailures(state, now) + [now], lastExitCode := exitCode)
    }
  }

  // ---------------------------------------------------------------------------
  // What an outside observer sees of a run
  // ---------------------------------------------------------------------------

  /** A recorded failure, a Retry of the user, or a stable run or clean exit. */
  datatype Entry = Failed(at: int) | Retried(at: int) | Reset(at: int)

  /** The entries since the last reset. */
  function Since(log: seq<Entry>): seq<Entry> {
    if log == [] || log[|log| - 1].Reset? then [] else Since(log[..|log| - 1]) + [log[|log| - 1]]
  }

  function FailuresIn(log: seq<Entry>, low: int, high: int): nat {
    if log == [] then 0
    else
      var last := log[|log| - 1];
      FailuresIn(log[..|log| - 1], low, high) + if last.Failed? && low <= last.at <= high then 1 else 0
  }

  function RetriesIn(log: seq<Entry>, low: int, high: int): nat {
    if log == [] then 0
    else
      var last := log[|log| - 1];
      RetriesIn(log[..|log| - 1], low, high) + if last.Retried? && low <= last.at <= high then 1 else 0
  }

  ghost predicate LimitedFrom(policy: Policy, segment: seq<Entry>, a: int) {
    FailuresIn(segment, a, a + policy.window) <= policy.threshold + RetriesIn(segment, a, a + policy.window)
  }

  ghost predicate Limited(policy: Policy, segment: seq<Entry>) {
    forall a :: LimitedFrom(policy, segment, a)
  }

  /** The promise: at any moment of the run, every closed interval as long as the window holds at
      most the threshold of failures since the last reset, and one more per Retry in it. */
  ghost predicate RateLimited(policy: Policy, log: seq<Entry>) {
    forall n :: 0 <= n <= |log| ==> Limited(policy, Since(log[..n]))
  }

  // ---------------------------------------------------------------------------
  // The loop
  // ---------------------------------------------------------------------------

  datatype Action = Exit | Retry | Rollback

  /** Notifications of the supervised host while it runs. */
  datatype Notice = Readiness(at: int) | Stability(at: int)

  datatype HostResult = Cancelled | Exited(ready: bool, stable: bool, exitCode: Option<int>)

  /** One turn: the clock at the check, what the user chooses and when if asked, what the host
      reports, and how and when the run ends. */
  datatype Attempt = Attempt(checkAt: int, action: Action, chosenAt: int, notices: seq<Notice>,
                             result: HostResult, endAt: int)
  {
    predicate CleanExit(allowEarly: bool) {
      result.Exited? && result.ready && result.exitCode == Some(0) && (result.stable || allowEarly)
    }

    /** The loop does not go on after this attempt. */
    predicate Ends(asked: bool, allowEarly: bool) {
      (asked && action != Retry) || result.Cancelled? || CleanExit(allowEarly)
    }

    /** What this attempt adds to the log if the user was, or was not, asked first. */
    function Log(asked: bool, allowEarly: bool): seq<Entry> {
      if asked && action != Retry then []
      else
        (if asked then [Retried(chosenAt)] else []) + Resets(notices) + Ending(allowEarly)
    }

    function Ending(allowEarly: bool): seq<Entry> {
      if result.Cancelled? then []
      else if CleanExit(allowEarly) then [Reset(endAt)]
      else [Failed(endAt)]
    }
  }

  function Resets(notices: seq<Notice>): seq<Entry> {
    if notices == [] then []
    else
      var front, last := Resets(notices[..|notices| - 1]), notices[|notices| - 1];
      if last.Stability? then front + [Reset(last.at)] else front
  }

  /** Whether the user has to be asked at `now`, decided on everything that ever happened. */
  predicate MustAsk(policy: Policy, log: seq<Entry>, now: int) {
    |Between(FailureTimes(Since(log)), now - policy.window, now)| >= policy.threshold
  }

  /** The log that `attempts` lead to: the reference for the loop, without a saved state. */
  function LogAfter(policy: Policy, log: seq<Entry>, attempts: seq<Attempt>, allowEarly: bool): seq<Entry> {
    if attempts == [] then log
    else
      var before := LogAfter(policy, log, attempts[..|attempts| - 1], allowEarly);
      var last := attempts[|attempts| - 1];
      before + last.Log(MustAsk(policy, before, last.checkAt), allowEarly)
  }

  ghost predicate NoticesInOrder(notices: seq<Notice>, start: int, end: int) {
    && (forall i :: 0 <= i < |notices| ==> start <= notices[i].at <= end)
    && (forall i, j :: 0 <= i <= j < |notices| ==> notices[i].at <= notices[j].at)
  }

  ghost predicate AttemptInOrder(a: Attempt, start: int) {
    && start <= a.checkAt <= a.chosenAt <= a.endAt
    && NoticesInOrder(a.notices, a.chosenAt, a.endAt)
  }

  function Clock(start: int, attempts: seq<Attempt>, i: nat): int
    requires i <= |attempts|
  {
    if i == 0 then start else attempts[i - 1].endAt
  }

  /** The clock does not go back. */
  ghost predicate InOrder(start: int, attempts: seq<Attempt>) {
    forall i :: 0 <= i < |attempts| ==> InOrderAt(start, attempts, i)
  }

  ghost predicate InOrderAt(start: int, attempts: seq<Attempt>, i: nat)
    requires i < |attempts|
  {
    AttemptInOrder(attempts[i], Clock(start, attempts, i))
  }

  /** How the saved state relates to the log: it holds the failures since the last reset that the
      last pruning, at `pruned`, left. */
  ghost predicate Inv(policy: Policy, state: BootstrapState, log: seq<Entry>, pruned: int, now: int) {
    && pruned <= now
    && Chronological(log, now)
    && state.failureTimes == Between(FailureTimes(Since(log)), pruned - policy.window, now)
    && RateLimited(policy, log)
  }

  ghost predicate Consistent(policy: Policy, state: BootstrapState, log: seq<Entry>, now: int) {
    exists pruned :: Inv(policy, state, log, pruned, now)
  }

  function FailureTimes(log: seq<Entry>): seq<int> {
    if log == [] then []
    else
      var front, last := FailureTimes(log[..|log| - 1]), log[|log| - 1];
      if last.Failed? then front + [last.at] else front
  }

  ghost predicate Chronological(log: seq<Entry>, now: int) {
    && (forall i, j :: 0 <= i <= j < |log| ==> log[i].at <= log[j].at)
    && (forall i :: 0 <= i < |log| ==> log[i].at <= now)
  }

  // ---------------------------------------------------------------------------
  // Sorting and filtering histories that are in order
  // ---------------------------------------------------------------------------

  ghost predicate Ascending(s: seq<int>, now: int) {
    && (forall i, j :: 0 <= i <= j < |s| ==> s[i] <= s[j])
    && (forall i :: 0 <= i < |s| ==> s[i] <= now)
  }

  lemma {:induction false} SortAscending(s: seq<int>, now: int)
    requires Ascending(s, now)
    ensures Sort(s) == s
  {
    if s != [] {
      SortAscending(s[..|s| - 1], now);
      assert s == s[..|s| - 1] + [s[|s| - 1]];
    }
  }

  lemma AscendingAppend(s: seq<int>, t: int, now: int)
    requires Ascending(s, t) && t <= now
    ensures Ascending(s, now) && Ascending(s + [t], now)
  {
  }

  lemma {:induction false} BetweenAscending(s: seq<int>, low: int, high: int, now: int)
    requires Ascending(s, now)
    ensures Ascending(Between(s, low, high), now)
  {
    if s != [] {
      var n := |s| - 1;
      assert Ascending(s[..n], s[n]);
      BetweenAscending(s[..n], low, high, s[n]);
      hide Ascending;
      AscendingAppend(Between(s[..n], low, high), s[n], now);
    }
  }

  lemma {:induction false} BetweenBetween(s: seq<int>, low: int, low': int, high: int, high': int, now: int)
    requires Ascending(s, now) && low <= low' && now <= high && now <= high'
    ensures Between(Between(s, low, high), low', high') == Between(s, low', now)
  {
    if s != [] {
      var n := |s| - 1;
      BetweenBetween(s[..n], low, low', high, high', now);
      var inner := Between(s[..n], low, high);
      assert (inner + [s[n]])[..|inner|] == inner;
    }
  }

  lemma {:induction false} FailureTimesAscending(log: seq<Entry>, now: int)
    requires Chronological(log, now)
    ensures Ascending(FailureTimes(log), now)
  {
    if log != [] {
      var n := |log| - 1;
      FailureTimesAscending(log[..n], log[n].at);
      hide Ascending;
      AscendingAppend(FailureTimes(log[..n]), log[n].at, now);
    }
  }

  lemma {:induction false} SinceIsSuffix(log: seq<Entry>) returns (k: nat)
    ensures k <= |log| && Since(log) == log[k..]
  {
    if log == [] || log[|log| - 1].Reset? {
      k := |log|;
    } else {
      var n := |log| - 1;
      k := SinceIsSuffix(log[..n]);
      assert log[k..] == log[..n][k..] + [log[n]];
    }
  }

  lemma SinceChronological(log: seq<Entry>, now: int)
    requires Chronological(log, now)
    ensures Chronological(Since(log), now)
  {
    var k := SinceIsSuffix(log);
  }

  /** A pruned history still answers exactly what the full history would. */
  lemma PruningIsInvisible(policy: Policy, state: BootstrapState, log: seq<Entry>, pruned: int, now: int, later: int)
    requires Inv(policy, state, log, pruned, now) && now <= later
    ensures policy.RecentFailures(state, later)
         == Between(FailureTimes(Since(log)), later - policy.window, later)
    ensures Ascending(FailureTimes(Since(log)), later)
  {
    hide Sort, Between, FailureTimes, Since, RateLimited;
    var w := policy.window;
    SinceChronological(log, now);
    var times := FailureTimes(Since(log));
    FailureTimesAscending(Since(log), now);
    BetweenBetween(times, pruned - w, later - w, now, later + MINUTE, now);
    BetweenBetween(times, pruned - w, later - w, now, later, now);
    BetweenAscending(times, later - w, now, now);
    SortAscending(Between(times, later - w, now), now);
    BetweenBetween(times, later - w, later - w, later, later, now);
    BetweenHigh(times, later - w, now, later, now);
  }

  lemma {:induction false} BetweenHigh(s: seq<int>, low: int, high: int, high': int, now: int)
    requires Ascending(s, now) && now <= high && now <= high'
    ensures Between(s, low, high) == Between(s, low, high')
  {
    if s != [] {
      BetweenHigh(s[..|s| - 1], low, high, high', now);
    }
  }

  // ---------------------------------------------------------------------------
  // Which entries keep the limit
  // ---------------------------------------------------------------------------

  lemma {:induction false} CountIsLength(log: seq<Entry>, low: int, high: int)
    ensures FailuresIn(log, low, high) == |Between(FailureTimes(log), low, high)|
  {
    if log != [] {
      var n := |log| - 1;
      CountIsLength(log[..n], low, high);
      var front := FailureTimes(log[..n]);
      assert (front + [log[n].at])[..|front|] == front;
    }
  }

  lemma {:induction false} NarrowerIsShorter(s: seq<int>, low: int, low': int, high: int, high': int)
    requires low <= low' && high' <= high
    ensures |Between(s, low', high')| <= |Between(s, low, high)|
  {
    if s != [] {
      NarrowerIsShorter(s[..|s| - 1], low, low', high, high');
    }
  }

  /** A failure at any time from `from` on keeps the limit. */
  ghost predicate Permits(policy: Policy, segment: seq<Entry>, from: int) {
    forall t :: from <= t ==> Limited(policy, segment + [Failed(t)])
  }

  lemma AppendCounts(log: seq<Entry>, e: Entry, low: int, high: int)
    ensures FailuresIn(log + [e], low, high)
         == FailuresIn(log, low, high) + if e.Failed? && low <= e.at <= high then 1 else 0
    ensures RetriesIn(log + [e], low, high)
         == RetriesIn(log, low, high) + if e.Retried? && low <= e.at <= high then 1 else 0
  {
    assert (log + [e])[..|log|] == log;
  }

  /** The check of the loop is what keeps the limit when nobody was asked. */
  lemma PermittedByCheck(policy: Policy, segment: seq<Entry>, now: int)
    requires Limited(policy, segment) && Chronological(segment, now)
    requires |Between(FailureTimes(segment), now - policy.window, now)| < policy.threshold
    ensures Permits(policy, segment, now)
  {
    forall t | now <= t ensures Limited(policy, segment + [Failed(t)]) {
      forall a ensures LimitedFrom(policy, segment + [Failed(t)], a) {
        FailureAfterCheck(policy, segment, now, t, a);
      }
    }
  }

  lemma FailureAfterCheck(policy: Policy, segment: seq<Entry>, now: int, t: int, a: int)
    requires LimitedFrom(policy, segment, a) && Chronological(segment, now) && now <= t
    requires |Between(FailureTimes(segment), now - policy.window, now)| < policy.threshold
    ensures LimitedFrom(policy, segment + [Failed(t)], a)
  {
    hide FailuresIn, RetriesIn, Between, FailureTimes;
    var w, times := policy.window, FailureTimes(segment);
    AppendCounts(segment, Failed(t), a, a + w);
    if a <= t <= a + w {
      CountIsLength(segment, a, a + w);
      FailureTimesAscending(segment, now);
      NarrowerIsShorter(times, now - w, a, a + w, a + w);
      BetweenHigh(times, now - w, now, a + w, now);
    }
  }

  lemma {:induction false} NothingLater(log: seq<Entry>, now: int, low: int, high: int)
    requires Chronological(log, now) && now < low
    ensures FailuresIn(log, low, high) == 0
  {
    if log != [] {
      NothingLater(log[..|log| - 1], now, low, high);
    }
  }

  /** A Retry pays for the failure that may follow it. */
  lemma PermittedByRetry(policy: Policy, segment: seq<Entry>, now: int)
    requires policy.Valid()
    requires Limited(policy, segment) && Chronological(segment, now)
    ensures Limited(policy, segment + [Retried(now)])
    ensures Permits(policy, segment + [Retried(now)], now)
  {
    var retried := segment + [Retried(now)];
    forall a ensures LimitedFrom(policy, retried, a) {
      AppendCounts(segment, Retried(now), a, a + policy.window);
      assert LimitedFrom(policy, segment, a);
    }
    forall t | now <= t ensures Limited(policy, retried + [Failed(t)]) {
      forall a ensures LimitedFrom(policy, retried + [Failed(t)], a) {
        FailureAfterRetry(policy, segment, now, t, a);
      }
    }
  }

  lemma FailureAfterRetry(policy: Policy, segment: seq<Entry>, now: int, t: int, a: int)
    requires policy.Valid()
    requires LimitedFrom(policy, segment, a) && Chronological(segment, now) && now <= t
    ensures LimitedFrom(policy, segment + [Retried(now)] + [Failed(t)], a)
  {
    hide FailuresIn, RetriesIn;
    var w := policy.window;
    AppendCounts(segment, Retried(now), a, a + w);
    AppendCounts(segment + [Retried(now)], Failed(t), a, a + w);
    if now < a {
      NothingLater(segment, now, a, a + w);
    }
  }

  lemma EmptyPermits(policy: Policy, from: int)
    requires policy.Valid()
    ensures Limited(policy, []) && Permits(policy, [], from)
  {
    forall t ensures Limited(policy, [] + [Failed(t)]) {
      forall a ensures LimitedFrom(policy, [] + [Failed(t)], a) {
        AppendCounts([], Failed(t), a, a + policy.window);
      }
    }
  }

  lemma SinceAppend(log: seq<Entry>, e: Entry)
    ensures Since(log + [e]) == if e.Reset? then [] else Since(log) + [e]
  {
    assert (log + [e])[..|log|] == log;
  }

  lemma AppendEntry(policy: Policy, log: seq<Entry>, e: Entry, now: int)
    requires RateLimited(policy, log) && Chronological(log, now) && now <= e.at
    requires Limited(policy, Since(log + [e]))
    ensures RateLimited(policy, log + [e]) && Chronological(log + [e], e.at)
  {
    hide Since, Limited;
    forall n | 0 <= n <= |log| + 1 ensures Limited(policy, Since((log + [e])[..n])) {
      if n <= |log| {
        assert (log + [e])[..n] == log[..n];
      } else {
        assert (log + [e])[..n] == log + [e];
      }
    }
  }

  // ---------------------------------------------------------------------------
  // What each operation on the saved state keeps
  // ---------------------------------------------------------------------------

  lemma FailureTimesAppend(log: seq<Entry>, e: Entry)
    ensures FailureTimes(log + [e]) == if e.Failed? then FailureTimes(log) + [e.at] else FailureTimes(log)
  {
    assert (log + [e])[..|log|] == log;
  }

  lemma BetweenAppend(s: seq<int>, t: int, low: int, high: int)
    requires low <= t <= high
    ensures Between(s + [t], low, high) == Between(s, low, high) + [t]
  {
    assert (s + [t])[..|s|] == s;
  }

  lemma ReadyKeeps(policy: Policy, state: BootstrapState, log: seq<Entry>, now: int, t: int)
    requires Consistent(policy, state, log, now) && now <= t
    ensures Consistent(policy, policy.RecordReady(state, t), log, t)
  {
    hide RateLimited, Between, FailureTimes, Since, Policy.RecentFailures;
    var pruned :| Inv(policy, state, log, pruned, now);
    PruningIsInvisible(policy, state, log, pruned, now, t);
    assert Inv(policy, policy.RecordReady(state, t), log, t, t);
  }

  lemma ResetKeeps(policy: Policy, state: BootstrapState, log: seq<Entry>, now: int, t: int, state': BootstrapState)
    requires policy.Valid() && Consistent(policy, state, log, now) && now <= t && state'.failureTimes == []
    ensures Consistent(policy, state', log + [Reset(t)], t)
    ensures Permits(policy, Since(log + [Reset(t)]), t)
  {
    hide RateLimited, Permits, Limited;
    var pruned :| Inv(policy, state, log, pruned, now);
    SinceAppend(log, Reset(t));
    EmptyPermits(policy, t);
    AppendEntry(policy, log, Reset(t), now);
    assert Inv(policy, state', log + [Reset(t)], t, t);
  }

  lemma RetryKeeps(policy: Policy, state: BootstrapState, log: seq<Entry>, now: int, t: int)
    requires policy.Valid() && Consistent(policy, state, log, now) && now <= t
    ensures Consistent(policy, state, log + [Retried(t)], t)
    ensures Permits(policy, Since(log + [Retried(t)]), t)
  {
    hide Between, FailureTimes, Since, Permits, Limited;
    var pruned :| Inv(policy, state, log, pruned, now);
    LimitedNow(policy, log);
    SinceChronological(log, now);
    PermittedByRetry(policy, Since(log), t);
    SinceAppend(log, Retried(t));
    FailureTimesAppend(Since(log), Retried(t));
    FailureTimesAscending(Since(log), now);
    BetweenHigh(FailureTimes(Since(log)), pruned - policy.window, now, t, now);
    AppendEntry(policy, log, Retried(t), now);
    assert Inv(policy, state, log + [Retried(t)], pruned, t);
  }

  lemma LimitedNow(policy: Policy, log: seq<Entry>)
    requires RateLimited(policy, log)
    ensures Limited(policy, Since(log))
  {
    assert log[..|log|] == log;
  }

  lemma FailureKeeps(policy: Policy, state: BootstrapState, log: seq<Entry>, now: int, t: int, code: Option<int>)
    requires Consistent(policy, state, log, now) && now <= t && Permits(policy, Since(log), now)
    ensures Consistent(policy, policy.RecordFailure(state, t, code), log + [Failed(t)], t)
  {
    hide Between, FailureTimes, Since, Limited, Policy.RecentFailures;
    var pruned :| Inv(policy, state, log, pruned, now);
    PruningIsInvisible(policy, state, log, pruned, now, t);
    SinceAppend(log, Failed(t));
    FailureTimesAppend(Since(log), Failed(t));
    BetweenAppend(FailureTimes(Since(log)), t, t - policy.window, t);
    assert Limited(policy, Since(log) + [Failed(t)]);
    AppendEntry(policy, log, Failed(t), now);
    assert Inv(policy, policy.RecordFailure(state, t, code), log + [Failed(t)], t, t);
  }

  /** The check on the saved state answers what the whole log would, and an attempt that it lets
      pass is one that the limit permits. */
  lemma CheckIsExact(policy: Policy, state: BootstrapState, log: seq<Entry>, now: int, t: int)
    requires Consistent(policy, state, log, now) && now <= t
    ensures policy.ShouldEnterRecovery(state, t) == MustAsk(policy, log, t)
    ensures Consistent(policy, state, log, t)
    ensures !MustAsk(policy, log, t) ==> Permits(policy, Since(log), t)
  {
    hide Between, FailureTimes, Since, Limited, Permits, Policy.RecentFailures;
    var pruned :| Inv(policy, state, log, pruned, now);
    PruningIsInvisible(policy, state, log, pruned, now, t);
    SegmentTimesAscending(log, now);
    BetweenHigh(FailureTimes(Since(log)), pruned - policy.window, now, t, now);
    assert Inv(policy, state, log, pruned, t);
    LimitedNow(policy, log);
    SinceChronological(log, now);
    if !MustAsk(policy, log, t) {
      PermittedByCheck(policy, Since(log), t);
    }
  }

  lemma SegmentTimesAscending(log: seq<Entry>, now: int)
    requires Chronological(log, now)
    ensures Ascending(FailureTimes(Since(log)), now)
  {
    SinceChronological(log, now);
    FailureTimesAscending(Since(log), now);
  }

  // ---------------------------------------------------------------------------
  // The loop itself
  // ---------------------------------------------------------------------------

  /** The notifications of one run of the host, each of which saves the state. */
  method Supervise(policy: Policy, saved: BootstrapState, log: seq<Entry>, notices: seq<Notice>,
                   ghost start: int, ghost end: int)
    returns (state: BootstrapState, after: seq<Entry>)
    requires policy.Valid() && start <= end && NoticesInOrder(notices, start, end)
    requires Consistent(policy, saved, log, start) && Permits(policy, Since(log), start)
    ensures after == log + Resets(notices)
    ensures Consistent(policy, state, after, end) && Permits(policy, Since(after), end)
  {
    hide Consistent, Permits, Since, Policy.RecentFailures;
    state, after := saved, log;
    ghost var now := start;
    for i := 0 to |notices|
      invariant start <= now <= end && (i < |notices| ==> now <= notices[i].at)
      invariant after == log + Resets(notices[..i])
      invariant Consistent(policy, state, after, now) && Permits(policy, Since(after), now)
    {
      var notice := notices[i];
      assert notices[..i + 1][..i] == notices[..i];
      if notice.Readiness? {
        ReadyKeeps(policy, state, after, now, notice.at);
        state := policy.RecordReady(state, notice.at);
      } else {
        ResetKeeps(policy, state, after, now, notice.at, policy.RecordStable(state, notice.at));
        state := policy.RecordStable(state, notice.at);
        after := after + [Reset(notice.at)];
      }
      PermitsLater(policy, Since(after), now, notice.at);
      now := notice.at;
    }
    assert notices[..|notices|] == notices;
    LaterKeeps(policy, state, after, now, end);
    PermitsLater(policy, Since(after), now, end);
  }

  lemma PermitsLater(policy: Policy, segment: seq<Entry>, from: int, later: int)
    requires from <= later
    ensures Permits(policy, segment, from) ==> Permits(policy, segment, later)
  {
  }

  lemma LaterKeeps(policy: Policy, state: BootstrapState, log: seq<Entry>, now: int, later: int)
    requires Consistent(policy, state, log, now) && now <= later
    ensures Consistent(policy, state, log, later)
  {
    CheckIsExact(policy, state, log, now, later);
  }

  lemma Associative(a: seq<Entry>, b: seq<Entry>, c: seq<Entry>, d: seq<Entry>)
    ensures a + b + c + d == a + (b + c + d)
  {
  }

  /** One turn of the loop. */
  method RunAttempt(policy: Policy, saved: BootstrapState, log: seq<Entry>, attempt: Attempt, allowEarly: bool,
                    ghost now: int)
    returns (state: BootstrapState, after: seq<Entry>, ended: bool)
    requires policy.Valid() && AttemptInOrder(attempt, now)
    requires Consistent(policy, saved, log, now)
    ensures after == log + attempt.Log(MustAsk(policy, log, attempt.checkAt), allowEarly)
    ensures ended == attempt.Ends(MustAsk(policy, log, attempt.checkAt), allowEarly)
    ensures Consistent(policy, state, after, attempt.endAt)
  {
    hide Consistent, Permits, Since, MustAsk, Policy.ShouldEnterRecovery, Policy.RecentFailures, NoticesInOrder, Resets;
    state, after, ended := saved, log, false;
    CheckIsExact(policy, state, after, now, attempt.checkAt);
    var asked := policy.ShouldEnterRecovery(state, attempt.checkAt);
    if asked {
      if attempt.action != Retry {
        LaterKeeps(policy, state, after, now, attempt.endAt);
        ended := true;
        return;
      }
      RetryKeeps(policy, state, after, attempt.checkAt, attempt.chosenAt);
      after := after + [Retried(attempt.chosenAt)];
    } else {
      LaterKeeps(policy, state, after, attempt.checkAt, attempt.chosenAt);
      PermitsLater(policy, Since(after), attempt.checkAt, attempt.chosenAt);
    }
    ghost var front := if asked then [Retried(attempt.chosenAt)] else [];
    assert after == log + front;
    state, after := Supervise(policy, state, after, attempt.notices, attempt.chosenAt, attempt.endAt);
    Associative(log, front, Resets(attempt.notices), attempt.Ending(allowEarly));
    if attempt.result.Cancelled? {
      ended := true;
    } else if attempt.CleanExit(allowEarly) {
      var clean := policy.RecordCleanExit(state, attempt.endAt, 0);
      ResetKeeps(policy, state, after, attempt.endAt, attempt.endAt, clean);
      state, after, ended := clean, after + [Reset(attempt.endAt)], true;
    } else {
      FailureKeeps(policy, state, after, attempt.endAt, attempt.endAt, attempt.result.exitCode);
      state := policy.RecordFailure(state, attempt.endAt, attempt.result.exitCode);
      after := after + [Failed(attempt.endAt)];
    }
  }

  /** One session of the bootstrapper. `log` is what happened before, in earlier sessions. The
      saved, pruned state leads to the same log as the reference, which never forgets. */
  method RunLoop(policy: Policy, saved: BootstrapState, log: seq<Entry>, attempts: seq<Attempt>, allowEarly: bool,
                 ghost start: int)
    returns (state: BootstrapState, after: seq<Entry>, done: nat)
    requires policy.Valid() && InOrder(start, attempts)
    requires Consistent(policy, saved, log, start)
    ensures done <= |attempts| && after == LogAfter(policy, log, attempts[..done], allowEarly)
    ensures Consistent(policy, state, after, Clock(start, attempts, done))
    ensures RateLimited(policy, after)
    ensures done < |attempts| ==> done > 0 && EndedAt(policy, log, attempts, done - 1, allowEarly)
    ensures forall i :: 0 <= i < done - 1 ==> !EndedAt(policy, log, attempts, i, allowEarly)
  {
    hide Consistent, RateLimited, LogAfter, Attempt.Log, Attempt.Ends, MustAsk;
    state, after, done := saved, log, 0;
    LogAfterNone(policy, log, attempts, allowEarly);
    while done < |attempts|
      invariant done <= |attempts|
      invariant after == LogAfter(policy, log, attempts[..done], allowEarly)
      invariant Consistent(policy, state, after, Clock(start, attempts, done))
      invariant forall i :: 0 <= i < done ==> !EndedAt(policy, log, attempts, i, allowEarly)
    {
      LogAfterNext(policy, log, attempts, done, allowEarly);
      assert InOrderAt(start, attempts, done);
      var ended;
      state, after, ended := RunAttempt(policy, state, after, attempts[done], allowEarly, Clock(start, attempts, done));
      assert ended == EndedAt(policy, log, attempts, done, allowEarly);
      done := done + 1;
      if ended { break; }
    }
    ConsistentLimits(policy, state, after, Clock(start, attempts, done));
  }

  ghost predicate EndedAt(policy: Policy, log: seq<Entry>, attempts: seq<Attempt>, i: nat, allowEarly: bool)
    requires i < |attempts|
  {
    attempts[i].Ends(MustAsk(policy, LogAfter(policy, log, attempts[..i], allowEarly), attempts[i].checkAt), allowEarly)
  }

  lemma ConsistentLimits(policy: Policy, state: BootstrapState, log: seq<Entry>, now: int)
    requires Consistent(policy, state, log, now)
    ensures RateLimited(policy, log)
  {
  }

  lemma LogAfterNone(policy: Policy, log: seq<Entry>, attempts: seq<Attempt>, allowEarly: bool)
    ensures LogAfter(policy, log, attempts[..0], allowEarly) == log
  {
  }

  lemma LogAfterNext(policy: Policy, log: seq<Entry>, attempts: seq<Attempt>, i: nat, allowEarly: bool)
    requires i < |attempts|
    ensures var before := LogAfter(policy, log, attempts[..i], allowEarly);
      LogAfter(policy, log, attempts[..i + 1], allowEarly)
      == before + attempts[i].Log(MustAsk(policy, before, attempts[i].checkAt), allowEarly)
  {
    hide MustAsk;
    assert attempts[..i + 1][..i] == attempts[..i];
  }

  // ---------------------------------------------------------------------------
  // What the policy and the loop do, spelled out
  // ---------------------------------------------------------------------------

  lemma {:induction false} InsertSorts(t: int, s: seq<int>)
    requires forall i, j :: 0 <= i <= j < |s| ==> s[i] <= s[j]
    ensures forall i, j :: 0 <= i <= j < |Insert(t, s)| ==> Insert(t, s)[i] <= Insert(t, s)[j]
    ensures multiset(Insert(t, s)) == multiset(s) + multiset{t}
  {
    if s != [] && s[|s| - 1] > t {
      var n := |s| - 1;
      InsertSorts(t, s[..n]);
      assert s == s[..n] + [s[n]];
      var r := Insert(t, s[..n]);
      forall i | 0 <= i < |r| ensures r[i] <= s[n] {
        assert r[i] in multiset(r);
        assert r[i] in multiset(s[..n]) + multiset{t};
      }
    }
  }

  lemma {:induction false} SortSorts(s: seq<int>)
    ensures forall i, j :: 0 <= i <= j < |Sort(s)| ==> Sort(s)[i] <= Sort(s)[j]
    ensures multiset(Sort(s)) == multiset(s)
  {
    if s != [] {
      var n := |s| - 1;
      SortSorts(s[..n]);
      InsertSorts(s[n], Sort(s[..n]));
      assert s == s[..n] + [s[n]];
    }
  }

  lemma {:induction false} BetweenCounts(s: seq<int>, low: int, high: int, t: int)
    ensures multiset(Between(s, low, high))[t] == if low <= t <= high then multiset(s)[t] else 0
  {
    if s != [] {
      var n := |s| - 1;
      BetweenCounts(s[..n], low, high, t);
      assert s == s[..n] + [s[n]];
    }
  }

  /** On any clock, the recent failures are, in order, those from the window before now to one minute
      after now, each as often as it was saved; and the user is asked if they reach the threshold. */
  lemma RecentFailuresExact(policy: Policy, state: BootstrapState, now: int)
    ensures var recent := policy.RecentFailures(state, now);
      && (forall i, j :: 0 <= i <= j < |recent| ==> recent[i] <= recent[j])
      && (forall t :: multiset(recent)[t]
            == if now - policy.window <= t <= now + 60_000 then multiset(state.failureTimes)[t] else 0)
      && (policy.ShouldEnterRecovery(state, now) <==> |recent| >= policy.threshold)
  {
    hide Sort, Between;
    var kept := Between(state.failureTimes, now - policy.window, now + MINUTE);
    SortSorts(kept);
    forall t ensures multiset(kept)[t]
      == if now - policy.window <= t <= now + 60_000 then multiset(state.failureTimes)[t] else 0
    {
      BetweenCounts(state.failureTimes, now - policy.window, now + MINUTE, t);
    }
  }

  /** The user must be asked exactly if the threshold of failures since the last reset lies within
      the window before now. */
  lemma AskedExactly(policy: Policy, log: seq<Entry>, now: int)
    ensures MustAsk(policy, log, now) <==> FailuresIn(Since(log), now - policy.window, now) >= policy.threshold
  {
    CountIsLength(Since(log), now - policy.window, now);
  }

  /** The host exited, and was never ready, or left a code other than 0, or left too early without
      being allowed to. */
  predicate Crashed(a: Attempt, allowEarly: bool) {
    a.result.Exited? && (!a.result.ready || a.result.exitCode != Some(0) || (!a.result.stable && !allowEarly))
  }

  /** The user was asked and did not choose Retry. */
  ghost predicate Declined(policy: Policy, log: seq<Entry>, a: Attempt) {
    FailuresIn(Since(log), a.checkAt - policy.window, a.checkAt) >= policy.threshold && a.action != Retry
  }

  lemma {:induction false} ResetsHave(notices: seq<Notice>, e: Entry)
    ensures e in Resets(notices) <==> e.Reset? && Stability(e.at) in notices
  {
    if notices != [] {
      var n := |notices| - 1;
      ResetsHave(notices[..n], e);
      assert notices == notices[..n] + [notices[n]];
    }
  }

  /** What one attempt adds to the log: the Retry that was chosen when asked, a reset for every stable
      run and for a clean exit, and one failure for a crash; nothing if the user declined. */
  lemma LogEntries(policy: Policy, log: seq<Entry>, a: Attempt, allowEarly: bool, e: Entry)
    ensures var asked := FailuresIn(Since(log), a.checkAt - policy.window, a.checkAt) >= policy.threshold;
      e in a.Log(MustAsk(policy, log, a.checkAt), allowEarly) <==>
        && !Declined(policy, log, a)
        && match e
           case Retried(t) => asked && t == a.chosenAt
           case Failed(t) => Crashed(a, allowEarly) && t == a.endAt
           case Reset(t) => Stability(t) in a.notices
                            || (a.result.Exited? && !Crashed(a, allowEarly) && t == a.endAt)
  {
    hide FailuresIn, Since, MustAsk;
    AskedExactly(policy, log, a.checkAt);
    ResetsHave(a.notices, e);
  }

  /** The loop goes on after an attempt exactly if the host crashed. */
  lemma GoesOnExactly(policy: Policy, log: seq<Entry>, a: Attempt, allowEarly: bool)
    ensures !a.Ends(MustAsk(policy, log, a.checkAt), allowEarly)
      <==> !Declined(policy, log, a) && Crashed(a, allowEarly)
  {
    hide FailuresIn, Since, MustAsk;
    AskedExactly(policy, log, a.checkAt);
  }

  /** When the crashed attempts ended that the user let happen. */
  ghost function CrashTimes(policy: Policy, log: seq<Entry>, attempts: seq<Attempt>, allowEarly: bool): seq<int> {
    if attempts == [] then []
    else
      var front, last := attempts[..|attempts| - 1], attempts[|attempts| - 1];
      CrashTimes(policy, log, front, allowEarly) +
      if Crashed(last, allowEarly) && !Declined(policy, LogAfter(policy, log, front, allowEarly), last)
      then [last.endAt] else []
  }

  lemma {:induction false} FailureTimesConcat(a: seq<Entry>, b: seq<Entry>)
    ensures FailureTimes(a + b) == FailureTimes(a) + FailureTimes(b)
  {
    if b == [] {
      assert a + b == a;
    } else {
      var n := |b| - 1;
      FailureTimesConcat(a, b[..n]);
      assert (a + b)[..|a + b| - 1] == a + b[..n];
    }
  }

  lemma {:induction false} ResetsHaveNoFailures(notices: seq<Notice>)
    ensures FailureTimes(Resets(notices)) == []
  {
    if notices != [] {
      var n := |notices| - 1;
      ResetsHaveNoFailures(notices[..n]);
      FailureTimesConcat(Resets(notices[..n]), [Reset(notices[n].at)]);
      SingleFailure(Reset(notices[n].at));
    }
  }

  lemma SingleFailure(e: Entry)
    ensures FailureTimes([e]) == if e.Failed? then [e.at] else []
  {
    assert [e][..0] == [];
  }

  lemma AttemptFailures(a: Attempt, asked: bool, allowEarly: bool)
    ensures FailureTimes(a.Log(asked, allowEarly))
         == if Crashed(a, allowEarly) && !(asked && a.action != Retry) then [a.endAt] else []
  {
    hide FailureTimes, Resets;
    NoFailures();
    if !(asked && a.action != Retry) {
      var first := if asked then [Retried(a.chosenAt)] else [];
      FailureTimesConcat(first + Resets(a.notices), a.Ending(allowEarly));
      FailureTimesConcat(first, Resets(a.notices));
      ResetsHaveNoFailures(a.notices);
      SingleFailure(Retried(a.chosenAt));
      SingleFailure(Reset(a.endAt));
      SingleFailure(Failed(a.endAt));
    }
  }

  lemma NoFailures()
    ensures FailureTimes([]) == []
  {
  }

  /** The failures in the log are just the crashes, in order: a host that was never ready, that left
      with another code, or that left too early without being allowed to. */
  lemma {:induction false} FailuresAreCrashes(policy: Policy, log: seq<Entry>, attempts: seq<Attempt>, allowEarly: bool)
    ensures FailureTimes(LogAfter(policy, log, attempts, allowEarly))
         == FailureTimes(log) + CrashTimes(policy, log, attempts, allowEarly)
  {
    hide FailureTimes, MustAsk, FailuresIn, Since, Attempt.Log, Crashed;
    if attempts != [] {
      var front, last := attempts[..|attempts| - 1], attempts[|attempts| - 1];
      var before := LogAfter(policy, log, front, allowEarly);
      FailuresAreCrashes(policy, log, front, allowEarly);
      AskedExactly(policy, before, last.checkAt);
      AttemptFailures(last, MustAsk(policy, before, last.checkAt), allowEarly);
      FailureTimesConcat(before, last.Log(MustAsk(policy, before, last.checkAt), allowEarly));
    }
  }

  /** Attempts that are never ready, with a user who always chooses Retry, leave one failure each. */
  lemma {:induction false} NeverReadyFails(policy: Policy, log: seq<Entry>, attempts: seq<Attempt>, allowEarly: bool)
    requires forall i :: 0 <= i < |attempts| ==>
      attempts[i].result.Exited? && !attempts[i].result.ready && attempts[i].action == Retry
    ensures |CrashTimes(policy, log, attempts, allowEarly)| == |attempts|
  {
    if attempts != [] {
      NeverReadyFails(policy, log, attempts[..|attempts| - 1], allowEarly);
    }
  }

  // ---------------------------------------------------------------------------
  // Whole lives of an installation
  // ---------------------------------------------------------------------------

  const FRESH: BootstrapState := BootstrapState([], None, None, None, None)

  /** Every start of the bootstrapper begins after the one before it has ended. */
  ghost predicate SessionsInOrder(sessions: seq<seq<Attempt>>, starts: seq<int>) {
    && |starts| == |sessions|
    && (forall k :: 0 <= k < |sessions| ==> InOrder(starts[k], sessions[k]))
    && (forall k :: 0 < k < |sessions| ==> StartsAfter(sessions, starts, k))
  }

  ghost predicate StartsAfter(sessions: seq<seq<Attempt>>, starts: seq<int>, k: nat)
    requires |starts| == |sessions| && 0 < k < |sessions|
  {
    SessionEnd(sessions[k - 1], starts[k - 1]) <= starts[k]
  }

  function SessionEnd(attempts: seq<Attempt>, start: int): int {
    Clock(start, attempts, |attempts|)
  }

  /** The reference log of an installation of which the k-th session got through `done[k]` attempts;
      `allowEarly[k]` is the option that it was started with. */
  function LifeLog(policy: Policy, sessions: seq<seq<Attempt>>, done: seq<nat>, allowEarly: seq<bool>): seq<Entry>
    requires |done| <= |sessions| == |allowEarly| && forall k :: 0 <= k < |done| ==> done[k] <= |sessions[k]|
  {
    if done == [] then []
    else
      var n := |done| - 1;
      LogAfter(policy, LifeLog(policy, sessions, done[..n], allowEarly), sessions[n][..done[n]], allowEarly[n])
  }

  /** From a fresh installation, over any number of sessions with options of their own, the saved
      state is enough to keep the limit on everything that ever happened. */
  method RunSessions(policy: Policy, sessions: seq<seq<Attempt>>, allowEarly: seq<bool>, ghost starts: seq<int>)
    returns (state: BootstrapState, log: seq<Entry>, done: seq<nat>)
    requires policy.Valid() && SessionsInOrder(sessions, starts) && |allowEarly| == |sessions|
    ensures |done| == |sessions| && forall k :: 0 <= k < |done| ==> done[k] <= |sessions[k]|
    ensures log == LifeLog(policy, sessions, done, allowEarly)
    ensures RateLimited(policy, log)
    ensures sessions != [] ==>
      Consistent(policy, state, log, SessionEnd(sessions[|sessions| - 1], starts[|sessions| - 1]))
  {
    hide Consistent, Permits, Since, RateLimited, LogAfter, LifeLog, InOrder;
    LifeLogNone(policy, sessions, allowEarly);
    state, log, done := FRESH, [], [];
    FreshIsConsistent(policy, if sessions == [] then 0 else starts[0]);
    for k := 0 to |sessions|
      invariant |done| == k && forall j :: 0 <= j < k ==> done[j] <= |sessions[j]|
      invariant log == LifeLog(policy, sessions, done, allowEarly)
      invariant RateLimited(policy, log)
      invariant k < |sessions| ==> Consistent(policy, state, log, starts[k])
      invariant k == |sessions| > 0 ==>
        Consistent(policy, state, log, SessionEnd(sessions[k - 1], starts[k - 1]))
    {
      var n;
      state, log, n := RunLoop(policy, state, log, sessions[k], allowEarly[k], starts[k]);
      LifeLogNext(policy, sessions, done, n, allowEarly);
      done := done + [n];
      ClockInOrder(starts[k], sessions[k], n, |sessions[k]|);
      LaterKeeps(policy, state, log, Clock(starts[k], sessions[k], n), SessionEnd(sessions[k], starts[k]));
      if k + 1 < |sessions| {
        assert StartsAfter(sessions, starts, k + 1);
        LaterKeeps(policy, state, log, SessionEnd(sessions[k], starts[k]), starts[k + 1]);
      }
    }
  }

  lemma LifeLogNone(policy: Policy, sessions: seq<seq<Attempt>>, allowEarly: seq<bool>)
    requires |allowEarly| == |sessions|
    ensures LifeLog(policy, sessions, [], allowEarly) == []
  {
  }

  lemma LifeLogNext(policy: Policy, sessions: seq<seq<Attempt>>, done: seq<nat>, n: nat,
                    allowEarly: seq<bool>)
    requires |done| < |sessions| == |allowEarly| && (forall k :: 0 <= k < |done| ==> done[k] <= |sessions[k]|)
    requires n <= |sessions[|done|]|
    ensures LifeLog(policy, sessions, done + [n], allowEarly)
         == LogAfter(policy, LifeLog(policy, sessions, done, allowEarly), sessions[|done|][..n], allowEarly[|done|])
  {
    hide LogAfter;
    assert (done + [n])[..|done|] == done;
  }

  lemma FreshIsConsistent(policy: Policy, now: int)
    requires policy.Valid()
    ensures Consistent(policy, FRESH, [], now) && RateLimited(policy, [])
  {
    EmptyPermits(policy, now);
    assert Inv(policy, FRESH, [], now, now);
  }

  lemma {:induction false} ClockInOrder(start: int, attempts: seq<Attempt>, i: nat, j: nat)
    requires InOrder(start, attempts) && i <= j <= |attempts|
    ensures Clock(start, attempts, i) <= Clock(start, attempts, j)
    decreases j - i
  {
    if i < j {
      ClockInOrder(start, attempts, i, j - 1);
      assert InOrderAt(start, attempts, j - 1);
    }
  }
}
