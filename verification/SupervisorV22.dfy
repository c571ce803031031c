/** Version 22 of the native supervisor: the loop of version 11 with a rolling crash window and
    a persisted trace of states. It is proved to end every run exactly as version 11 does, and
    its trace to follow one grammar. */
module SupervisorV22 {
  import opened Supervisor

  datatype State = Starting | Healthy | Degraded | Restarting | CrashLoop | SafeMode | Stopping

  /** One call of PersistSupervisorStateV22, without its free-text reason. */
  datatype Entry = Entry(state: State, pid: nat, failureCount: nat, exitCode: nat, jobAssigned: bool)

  // ---------------------------------------------------------------------------
  // The trace of a run
  // ---------------------------------------------------------------------------

  /** A counted failure: safe mode when the budget is used up, else a restart. */
  function FailureEntries(options: Options, count: nat, code: nat): seq<Entry> {
    if count >= options.maximumFailures then
      [Entry(CrashLoop, 0, count, code, false), Entry(SafeMode, 0, count, code, false)]
    else [Entry(Restarting, 0, count, code, false)]
  }

  /** What is written during a turn before its failure, if any, is counted. */
  function Observed(options: Options, turn: Turn, before: nat): seq<Entry> {
    match turn
    case LaunchFailed(error, _) => [Entry(Degraded, 0, before + 1, error, false)]
    case Launched(pid, job, _, outcome, _, _) =>
      var started := Entry(Starting, pid, before, 0, job);
      match outcome
      case NormalExitBeforeReady => [started, Entry(Stopping, pid, before, 0, job)]
      case ReadyTimeout => [started, Entry(Degraded, pid, before, HANG_EXIT, job)]
      case FailedBeforeReady(code) => [started, Entry(Degraded, pid, before, code, job)]
      case Ready(_, monitored, code) =>
        var ready := Entry(if job then Healthy else Degraded, pid, before, 0, job);
        if options.probeReadyOnce then [started, ready, Entry(Stopping, pid, before, 0, job)]
        else match monitored
          case MonitorNormalExit => [started, ready, Entry(Stopping, pid, before, code, job)]
          case MonitorFailure => [started, ready]
          case MonitorStale => [started, ready, Entry(Degraded, pid, before, HANG_EXIT, job)]
  }

  function CountAfter(turn: Turn, before: nat): nat {
    if turn.Stable() then 1 else before + 1
  }

  function TurnEntries(options: Options, turn: Turn, before: nat): seq<Entry> {
    Observed(options, turn, before) +
    if turn.Final(options.probeReadyOnce) then []
    else FailureEntries(options, CountAfter(turn, before), LastCode(turn))
  }

  /** What `turns` leave behind, from the start of the supervisor. */
  function TraceOf(options: Options, turns: seq<Turn>): seq<Entry> {
    if turns == [] then [Entry(Starting, 0, 0, 0, false)]
    else
      var front := turns[..|turns| - 1];
      TraceOf(options, front) + TurnEntries(options, turns[|turns| - 1], FailuresInARow(front))
  }

  // ---------------------------------------------------------------------------
  // The loop
  // ---------------------------------------------------------------------------

  /** The failures recorded since the last stable run. */
  function History(turns: seq<Turn>): (h: seq<Tick>)
    ensures |h| == FailuresInARow(turns)
  {
    if turns == [] then []
    else
      var last := turns[|turns| - 1];
      (if last.Stable() then [] else History(turns[..|turns| - 1])) + [last.recordTick]
  }

  ghost predicate MonotoneClock(turns: seq<Turn>) {
    forall i, j :: 0 <= i <= j < |turns| ==> turns[i].recordTick <= turns[j].recordTick
  }

  lemma {:induction false} HistoryInOrder(turns: seq<Turn>, now: Tick)
    requires MonotoneClock(turns)
    requires forall i :: 0 <= i < |turns| ==> turns[i].recordTick <= now
    ensures InOrder(History(turns), now)
  {
    if turns != [] {
      var n := |turns| - 1;
      HistoryInOrder(turns[..n], turns[n].recordTick);
    }
  }

  /** Recording the failure of the next turn keeps the deque equal to the window. */
  lemma RecordKeepsWindow(turns: seq<Turn>, i: nat, failures: seq<Tick>, recorded: seq<Tick>)
    requires i < |turns|
    requires MonotoneClock(turns)
    requires if turns[i].Stable() then failures == [] else IsWindow(History(turns[..i]), failures)
    requires forall history :: InOrder(history, turns[i].recordTick) && IsWindow(history, failures) ==>
      IsWindow(history + [turns[i].recordTick], recorded)
    ensures IsWindow(History(turns[..i + 1]), recorded)
  {
    var now := turns[i].recordTick;
    assert turns[..i + 1][..i] == turns[..i];
    HistoryInOrder(turns[..i], now);
    var history := if turns[i].Stable() then [] else History(turns[..i]);
    assert InOrder(history, now) && IsWindow(history, failures);
    assert History(turns[..i + 1]) == history + [now];
  }

  /** Version 22 ends at the same turn and in the same way as version 11 for every sequence of
      turns and whatever the clock does: both satisfy `CorrectEnd`, which has one solution. */
  method RunSupervisorV22(options: Options, turns: seq<Turn>)
    returns (end: End, trace: seq<Entry>, sleeps: seq<nat>, recentFailures: seq<Tick>)
    ensures CorrectEnd(options, turns, end)
    ensures trace == TraceOf(options, if end.Running? then turns else turns[..end.turn + 1])
    ensures |sleeps| == if end.Running? then |turns| else end.turn
    ensures forall i :: 0 <= i < |sleeps| ==> sleeps[i] == RestartBackoff(FailuresInARow(turns[..i + 1]))
    ensures end.Running? ==> |recentFailures| <= end.failureCount
    ensures end.Running? && MonotoneClock(turns) ==> IsWindow(History(turns), recentFailures)
  {
    hide TraceOf, FailuresInARow, IsWindow, InOrder, History, RestartBackoff, Recent;
    var failureCount := 0;
    recentFailures := [];
    trace := [Entry(Starting, 0, failureCount, 0, false)];
    sleeps := [];
    NothingYet(options, turns);
    var i := 0;
    while i < |turns|
      invariant i <= |turns| && |sleeps| == i
      invariant failureCount == FailuresInARow(turns[..i])
      invariant |recentFailures| <= failureCount
      invariant MonotoneClock(turns) ==> IsWindow(History(turns[..i]), recentFailures)
      invariant trace == TraceOf(options, turns[..i])
      invariant forall j :: 0 <= j < i ==> !EndsAt(options, turns, j)
      invariant forall j :: 0 <= j < i ==> sleeps[j] == RestartBackoff(FailuresInARow(turns[..j + 1]))
    {
      FailuresSnoc(turns, i);
      TraceSnoc(options, turns, i);
      var turn := turns[i];
      ghost var before := failureCount;
      var added, done, code := ObserveTurn(options, turn, failureCount);
      if done {
        assert added == TurnEntries(options, turn, before);
        end, trace := Finished(i, code), trace + added;
        return;
      }
      if turn.Launched? && Elapsed(turn.endTick, turn.launchTick) >= STABLE_RUN_RESET_MS {
        failureCount := 0;
        recentFailures := [];
      }
      failureCount := failureCount + 1;
      ghost var previous := recentFailures;
      var crashLoop;
      recentFailures, crashLoop := RecordFailure(recentFailures, turn.recordTick, options.maximumFailures);
      if MonotoneClock(turns) {
        RecordKeepsWindow(turns, i, previous, recentFailures);
      }
      if crashLoop || failureCount >= options.maximumFailures {
        trace := trace + (added + EnterSafeMode(failureCount, LastCode(turn)));
        end := Fallback(i);
        return;
      }
      trace := trace + (added + [Entry(Restarting, 0, failureCount, LastCode(turn), false)]);
      sleeps := sleeps + [RestartBackoff(failureCount)];
      i := i + 1;
    }
    assert turns[..i] == turns;
    end := Running(failureCount);
  }

  function EnterSafeMode(count: nat, code: nat): seq<Entry> {
    [Entry(CrashLoop, 0, count, code, false)] + [Entry(SafeMode, 0, count, code, false)]
  }

  /** The exit code that is reported with a counted failure. */
  function LastCode(turn: Turn): nat {
    match turn
    case LaunchFailed(error, _) => error
    case Launched(_, _, _, outcome, _, _) =>
      match outcome
      case NormalExitBeforeReady => 0
      case ReadyTimeout => HANG_EXIT
      case FailedBeforeReady(code) => code
      case Ready(_, monitored, code) => if monitored.MonitorStale? then HANG_EXIT else code
  }

  /** The part of a turn before the failure, if any, is counted. */
  method ObserveTurn(options: Options, turn: Turn, failureCount: nat)
    returns (trace: seq<Entry>, done: bool, code: int)
    ensures done == turn.Final(options.probeReadyOnce)
    ensures done ==> code == FinalCode(turn, options.probeReadyOnce)
    ensures trace == Observed(options, turn, failureCount)
  {
    done, code := false, 0;
    if turn.LaunchFailed? {
      trace := [Entry(Degraded, 0, failureCount + 1, turn.error, false)];
      return;
    }
    var pid, job := turn.pid, turn.jobAssigned;
    trace := [Entry(Starting, pid, failureCount, 0, job)];
    match turn.outcome {
      case NormalExitBeforeReady =>
        trace, done := trace + [Entry(Stopping, pid, failureCount, 0, job)], true;
      case ReadyTimeout =>
        trace := trace + [Entry(Degraded, pid, failureCount, HANG_EXIT, job)];
      case FailedBeforeReady(exitCode) =>
        trace := trace + [Entry(Degraded, pid, failureCount, exitCode, job)];
      case Ready(probeOk, monitored, exitCode) =>
        trace := trace + [Entry(if job then Healthy else Degraded, pid, failureCount, 0, job)];
        if options.probeReadyOnce {
          trace := trace + [Entry(Stopping, pid, failureCount, 0, job)];
          done, code := true, if probeOk then 0 else 44;
        } else if monitored.MonitorNormalExit? {
          trace, done := trace + [Entry(Stopping, pid, failureCount, exitCode, job)], true;
        } else if monitored.MonitorStale? {
          trace := trace + [Entry(Degraded, pid, failureCount, HANG_EXIT, job)];
        }
    }
  }

  lemma NothingYet(options: Options, turns: seq<Turn>)
    ensures TraceOf(options, turns[..0]) == [Entry(Starting, 0, 0, 0, false)]
    ensures FailuresInARow(turns[..0]) == 0
    ensures IsWindow(History(turns[..0]), [])
  {
  }

  lemma TraceSnoc(options: Options, turns: seq<Turn>, i: nat)
    requires i < |turns|
    ensures TraceOf(options, turns[..i + 1])
         == TraceOf(options, turns[..i]) + TurnEntries(options, turns[i], FailuresInARow(turns[..i]))
  {
    hide TurnEntries;
    assert turns[..i + 1][..i] == turns[..i];
  }

  // ---------------------------------------------------------------------------
  // Refinement and termination
  // ---------------------------------------------------------------------------

  lemma {:induction false} AllFailuresCount(turns: seq<Turn>)
    requires forall i :: 0 <= i < |turns| ==> !turns[i].Stable()
    ensures FailuresInARow(turns) == |turns|
  {
    if turns != [] {
      AllFailuresCount(turns[..|turns| - 1]);
    }
  }

  /** If no shell lives for two minutes, the supervisor returns within its budget of launches,
      having slept at most 27.5 s. */
  lemma ReturnsWithinBudget(options: Options, turns: seq<Turn>, end: End, sleeps: seq<nat>)
    requires 1 <= options.maximumFailures <= |turns|
    requires forall i :: 0 <= i < |turns| && turns[i].Launched? ==>
      (turns[i].endTick - turns[i].launchTick) % 0x1_0000_0000_0000_0000 < 120_000
    requires CorrectEnd(options, turns, end)
    requires |sleeps| == if end.Running? then |turns| else end.turn
    requires forall i :: 0 <= i < |sleeps| ==> sleeps[i] == RestartBackoff(FailuresInARow(turns[..i + 1]))
    ensures !end.Running? && end.turn < options.maximumFailures
    ensures sleeps == Backoffs(end.turn)
    ensures options.maximumFailures <= 10 ==> Sum(sleeps) <= 27500
  {
    hide RestartBackoff;
    forall i | 0 <= i < |turns| ensures !turns[i].Stable() {
      StableIsLongRun(turns[i]);
    }
    var last := options.maximumFailures - 1;
    AllFailuresCount(turns[..last + 1]);
    assert EndsAt(options, turns, last);
    assert !end.Running? && end.turn <= last;
    forall i | 0 <= i < |sleeps| ensures sleeps[i] == Backoffs(end.turn)[i] {
      AllFailuresCount(turns[..i + 1]);
    }
    assert sleeps == Backoffs(end.turn);
    BackoffsBounded(end.turn);
  }

  // ---------------------------------------------------------------------------
  // The grammar of the trace
  // ---------------------------------------------------------------------------

  ghost predicate EntryOk(options: Options, e: Entry) {
    match e.state
    case Restarting => 0 < e.failureCount < options.maximumFailures
    case CrashLoop => e.failureCount == options.maximumFailures
    case SafeMode => e.failureCount == options.maximumFailures
    case Healthy => e.jobAssigned && e.failureCount < options.maximumFailures
    case Degraded => e.failureCount <= options.maximumFailures
    case _ => e.failureCount < options.maximumFailures
  }

  /** Which entry may come directly after which. */
  ghost predicate MayFollow(a: Entry, b: Entry) {
    && a.state != SafeMode && a.state != Stopping
    && (a.state == CrashLoop <==> b.state == SafeMode)
    && (b.state == SafeMode ==> b == a.(state := SafeMode))
    && (b.state == Healthy ==> a.state == Starting && a == b.(state := Starting))
    && (b.state == Stopping ==> a.state in {Starting, Healthy, Degraded} && a.pid == b.pid)
    && (b.state == Starting ==> a.state in {Starting, Restarting} && a.pid == 0 && a.failureCount == b.failureCount)
    && (b.state in {Restarting, CrashLoop} ==>
          a.state in {Healthy, Degraded} && (b.failureCount == 1 || b.failureCount <= a.failureCount + 1))
    && (a.state == Restarting ==> b.state in {Starting, Degraded})
  }

  ghost predicate Grammatical(options: Options, trace: seq<Entry>) {
    && (forall i :: 0 <= i < |trace| ==> EntryOk(options, trace[i]))
    && (forall i :: 0 <= i < |trace| - 1 ==> MayFollow(trace[i], trace[i + 1]))
  }

  lemma GrammaticalAppend(options: Options, a: seq<Entry>, b: seq<Entry>)
    requires Grammatical(options, a) && Grammatical(options, b)
    requires a != [] && b != [] ==> MayFollow(a[|a| - 1], b[0])
    ensures Grammatical(options, a + b)
  {
    hide EntryOk, MayFollow;
    var c := a + b;
    forall i | 0 <= i < |c| - 1 ensures MayFollow(c[i], c[i + 1]) {
      if i < |a| - 1 {
        assert c[i] == a[i] && c[i + 1] == a[i + 1];
      } else if i >= |a| {
        assert c[i] == b[i - |a|] && c[i + 1] == b[i - |a| + 1];
      }
    }
  }

  /** Where a turn may start, and where a turn that does not end the run leaves the trace. */
  ghost predicate Between(e: Entry, count: nat) {
    e.state in {Starting, Restarting} && e.pid == 0 && e.failureCount == count
  }

  lemma FailureIsGrammatical(options: Options, count: nat, code: nat)
    requires 0 < count <= options.maximumFailures
    ensures var t := FailureEntries(options, count, code);
      && t != [] && Grammatical(options, t)
      && t[0].state in {Restarting, CrashLoop} && t[0].failureCount == count
  {
  }

  lemma ObservedIsGrammatical(options: Options, turn: Turn, before: nat)
    requires before < options.maximumFailures
    ensures var t := Observed(options, turn, before);
      && t != [] && Grammatical(options, t)
      && t[0].state in {Starting, Degraded}
      && (t[0].state == Starting ==> t[0].failureCount == before)
      && var last := t[|t| - 1];
         if turn.Final(options.probeReadyOnce) then last.state == Stopping
         else last.state in {Healthy, Degraded} && before <= last.failureCount
  {
  }

  lemma TurnIsGrammatical(options: Options, turn: Turn, before: nat)
    requires before < options.maximumFailures
    ensures var t := TurnEntries(options, turn, before);
      && t != [] && Grammatical(options, t)
      && t[0].state in {Starting, Degraded}
      && (t[0].state == Starting ==> t[0].failureCount == before)
  {
    hide Grammatical, FailureEntries, Observed, EntryOk;
    ObservedIsGrammatical(options, turn, before);
    var t := Observed(options, turn, before);
    if turn.Final(options.probeReadyOnce) {
      assert TurnEntries(options, turn, before) == t;
    } else {
      var after := CountAfter(turn, before);
      FailureIsGrammatical(options, after, LastCode(turn));
      GrammaticalAppend(options, t, FailureEntries(options, after, LastCode(turn)));
    }
  }

  /** What ends a run is the last entry of its trace; any other turn leaves a restart. */
  lemma LastOfTurn(options: Options, turn: Turn, before: nat)
    requires before < options.maximumFailures
    ensures var t := TurnEntries(options, turn, before);
      var after, last := CountAfter(turn, before), t[|t| - 1];
      if turn.Final(options.probeReadyOnce) then last.state == Stopping
      else if after >= options.maximumFailures then last.state == SafeMode
      else last.state == Restarting && Between(last, after)
  {
    hide Observed, Grammatical;
    ObservedIsGrammatical(options, turn, before);
  }

  lemma BetweenMayFollow(a: seq<Entry>, b: seq<Entry>, count: nat)
    requires a != [] && Between(a[|a| - 1], count)
    requires b != [] && b[0].state in {Starting, Degraded}
    requires b[0].state == Starting ==> b[0].failureCount == count
    ensures MayFollow(a[|a| - 1], b[0])
  {
  }

  lemma FrontGoesOn(options: Options, turns: seq<Turn>)
    requires turns != [] && forall i :: 0 <= i < |turns| - 1 ==> !EndsAt(options, turns, i)
    ensures var front := turns[..|turns| - 1];
      && (forall i :: 0 <= i < |front| ==> !EndsAt(options, front, i))
      && (front != [] ==> FailuresInARow(front) < options.maximumFailures)
  {
    var front := turns[..|turns| - 1];
    forall i | 0 <= i < |front| ensures !EndsAt(options, front, i) {
      assert front[..i + 1] == turns[..i + 1];
      assert !EndsAt(options, turns, i);
    }
    assert front[..|front|] == front;
    assert front != [] ==> !EndsAt(options, front, |front| - 1);
  }

  /** The trace of every run, finished or not, is grammatical. */
  lemma {:induction false} TraceGrammar(options: Options, turns: seq<Turn>)
    requires options.maximumFailures >= 1
    requires forall i :: 0 <= i < |turns| - 1 ==> !EndsAt(options, turns, i)
    ensures Grammatical(options, TraceOf(options, turns))
    ensures var trace := TraceOf(options, turns);
      && trace != [] && trace[0] == Entry(Starting, 0, 0, 0, false)
      && var last := trace[|trace| - 1];
         if turns == [] || !EndsAt(options, turns, |turns| - 1) then
           Between(last, FailuresInARow(turns)) && FailuresInARow(turns) < options.maximumFailures
         else if turns[|turns| - 1].Final(options.probeReadyOnce) then last.state == Stopping
         else last.state == SafeMode
  {
    if turns != [] {
      hide TurnEntries, Grammatical, TraceOf, FailuresInARow, MayFollow;
      var n := |turns| - 1;
      var front := turns[..n];
      FrontGoesOn(options, turns);
      TraceGrammar(options, front);
      assert turns[..n + 1] == turns;
      TraceSnoc(options, turns, n);
      FailuresSnoc(turns, n);
      var before := FailuresInARow(front);
      TurnIsGrammatical(options, turns[n], before);
      LastOfTurn(options, turns[n], before);
      BetweenMayFollow(TraceOf(options, front), TurnEntries(options, turns[n], before), before);
      GrammaticalAppend(options, TraceOf(options, front), TurnEntries(options, turns[n], before));
    }
  }

  // ---------------------------------------------------------------------------
  // The two versions, side by side
  // ---------------------------------------------------------------------------

  /** On the same turns both versions end at the same turn and in the same way after the same
      sleeps, so the crash window of version 22 never decides alone; and the trace of version 22
      is grammatical and closed by what ended the run. */
  method RunBoth(options: Options, turns: seq<Turn>)
    returns (v11: End, sleeps11: seq<nat>, v22: End, sleeps22: seq<nat>, trace: seq<Entry>)
    ensures v11 == v22 && sleeps11 == sleeps22
    ensures CorrectEnd(options, turns, v22)
    ensures trace != [] && (options.maximumFailures >= 1 ==> Grammatical(options, trace))
    ensures options.maximumFailures >= 1 ==>
      match v22
      case Running(n) => Between(trace[|trace| - 1], n)
      case Finished(_, _) => trace[|trace| - 1].state == Stopping
      case Fallback(_) => trace[|trace| - 1].state == SafeMode
  {
    hide Grammatical, TraceOf, FailuresInARow, RestartBackoff, IsWindow, MayFollow;
    var recent;
    v11, sleeps11 := RunSupervisorV11(options, turns);
    v22, trace, sleeps22, recent := RunSupervisorV22(options, turns);
    CorrectEndUnique(options, turns, v11, v22);
    TraceOfRun(options, turns, v22);
  }

  lemma TraceOfRun(options: Options, turns: seq<Turn>, end: End)
    requires CorrectEnd(options, turns, end)
    ensures var trace := TraceOf(options, if end.Running? then turns else turns[..end.turn + 1]);
      && trace != []
      && (options.maximumFailures >= 1 ==>
            && Grammatical(options, trace)
            && match end
               case Running(n) => Between(trace[|trace| - 1], n)
               case Finished(_, _) => trace[|trace| - 1].state == Stopping
               case Fallback(_) => trace[|trace| - 1].state == SafeMode)
  {
    hide Grammatical, FailuresInARow;
    var seen := if end.Running? then turns else turns[..end.turn + 1];
    hide TraceOf;
    TraceNotEmpty(options, seen);
    if options.maximumFailures >= 1 {
      forall i | 0 <= i < |seen| ensures EndsAt(options, seen, i) == EndsAt(options, turns, i) {
        assert seen[..i + 1] == turns[..i + 1];
      }
      TraceGrammar(options, seen);
    }
  }

  lemma {:induction false} TraceNotEmpty(options: Options, turns: seq<Turn>)
    ensures TraceOf(options, turns) != []
  {
    if turns != [] {
      TraceNotEmpty(options, turns[..|turns| - 1]);
    }
  }

  // ---------------------------------------------------------------------------
  // What the trace tells of the turns
  // ---------------------------------------------------------------------------

  /** How many entries have one of these states. */
  function Entries(trace: seq<Entry>, states: set<State>): nat {
    if trace == [] then 0
    else Entries(trace[..|trace| - 1], states) + if trace[|trace| - 1].state in states then 1 else 0
  }

  function Tally(turns: seq<Turn>, each: Turn -> nat): nat {
    if turns == [] then 0 else Tally(turns[..|turns| - 1], each) + each(turns[|turns| - 1])
  }

  lemma {:induction false} EntriesAppend(a: seq<Entry>, b: seq<Entry>, states: set<State>)
    ensures Entries(a + b, states) == Entries(a, states) + Entries(b, states)
  {
    if b == [] {
      assert a + b == a;
    } else {
      var n := |b| - 1;
      EntriesAppend(a, b[..n], states);
      assert (a + b)[..|a + b| - 1] == a + b[..n];
    }
  }

  lemma {:induction false} TraceTallies(options: Options, turns: seq<Turn>, states: set<State>, each: Turn -> nat)
    requires forall turn, before: nat :: Entries(TurnEntries(options, turn, before), states) == each(turn)
    ensures Entries(TraceOf(options, turns), states) == (if Starting in states then 1 else 0) + Tally(turns, each)
  {
    hide TurnEntries;
    if turns == [] {
      var first := [Entry(Starting, 0, 0, 0, false)];
      assert first[..0] == [];
    } else {
      var n := |turns| - 1;
      TraceTallies(options, turns[..n], states, each);
      EntriesAppend(TraceOf(options, turns[..n]), TurnEntries(options, turns[n], FailuresInARow(turns[..n])), states);
    }
  }

  function One(b: bool): nat { if b then 1 else 0 }

  lemma EntriesOf(trace: seq<Entry>, states: set<State>)
    requires 1 <= |trace| <= 3
    ensures Entries(trace, states) == One(trace[0].state in states)
         + (if |trace| > 1 then One(trace[1].state in states) else 0)
         + (if |trace| > 2 then One(trace[2].state in states) else 0)
  {
    var one := trace[..1];
    assert one[..0] == [] && Entries(one, states) == One(trace[0].state in states);
    if |trace| > 1 {
      var two := trace[..2];
      assert two[..1] == one && Entries(two, states) == Entries(one, states) + One(trace[1].state in states);
      assert |trace| == 2 ==> trace == two;
    } else {
      assert trace == one;
    }
  }

  predicate GotReady(turn: Turn) { turn.Launched? && turn.outcome.Ready? }

  /** How many entries with one of these states a turn must leave before its failure is counted. */
  function Marks(turn: Turn, probe: bool, states: set<State>): nat {
    (if Starting in states then One(turn.Launched?) else 0)
    + (if Healthy in states then One(GotReady(turn) && turn.jobAssigned) else 0)
    + (if Stopping in states then One(!Failing(turn, probe)) else 0)
    + (if Degraded in states then Troubles(turn, probe) else 0)
  }

  /** No launch or no readiness; no job; no heartbeat. */
  function Troubles(turn: Turn, probe: bool): nat {
    One(!GotReady(turn) && Failing(turn, probe)) + One(GotReady(turn) && !turn.jobAssigned)
    + One(GotReady(turn) && !probe && turn.outcome.monitored.MonitorStale?)
  }

  lemma ObservedTallies(options: Options, turn: Turn, before: nat, states: set<State>)
    ensures Entries(Observed(options, turn, before), states) == Marks(turn, options.probeReadyOnce, states)
  {
    EntriesOf(Observed(options, turn, before), states);
  }

  lemma TurnTallies(options: Options, turn: Turn, before: nat, states: set<State>)
    requires Restarting in states <==> SafeMode in states
    requires CrashLoop !in states
    ensures Entries(TurnEntries(options, turn, before), states) == Marks(turn, options.probeReadyOnce, states)
         + if Restarting in states then One(Failing(turn, options.probeReadyOnce)) else 0
  {
    hide Observed, Entries, Marks;
    ObservedTallies(options, turn, before, states);
    var added := FailureEntries(options, CountAfter(turn, before), LastCode(turn));
    assert turn.Final(options.probeReadyOnce) <==> !Failing(turn, options.probeReadyOnce);
    EntriesOf(added, states);
    EntriesAppend(Observed(options, turn, before), added, states);
    assert Observed(options, turn, before) + [] == Observed(options, turn, before);
  }

  /** What the trace of any run tells: one STARTING for the supervisor and one for every launched shell,
      HEALTHY for each that got ready and has a job, STOPPING for a turn at which the supervisor leaves,
      one RESTARTING or SAFE_MODE for each failure, and DEGRADED for every trouble seen - no launch or no
      readiness, no job, no heartbeat. */
  lemma TraceTells(options: Options, turns: seq<Turn>)
    ensures var trace, probe := TraceOf(options, turns), options.probeReadyOnce;
      && Entries(trace, {Starting}) == 1 + Tally(turns, (t: Turn) => One(t.Launched?))
      && Entries(trace, {Healthy}) == Tally(turns, (t: Turn) => One(GotReady(t) && t.jobAssigned))
      && Entries(trace, {Stopping}) == Tally(turns, (t: Turn) => One(!Failing(t, probe)))
      && Entries(trace, {Restarting, SafeMode}) == Tally(turns, (t: Turn) => One(Failing(t, probe)))
      && Entries(trace, {Degraded}) == Tally(turns, (t: Turn) => Troubles(t, probe))
  {
    hide TurnEntries, Entries, Tally, TraceOf;
    var probe := options.probeReadyOnce;
    forall turn, before: nat
      ensures Entries(TurnEntries(options, turn, before), {Starting}) == One(turn.Launched?)
    {
      TurnTallies(options, turn, before, {Starting});
    }
    TraceTallies(options, turns, {Starting}, (t: Turn) => One(t.Launched?));
    forall turn, before: nat
      ensures Entries(TurnEntries(options, turn, before), {Healthy}) == One(GotReady(turn) && turn.jobAssigned)
    {
      TurnTallies(options, turn, before, {Healthy});
    }
    TraceTallies(options, turns, {Healthy}, (t: Turn) => One(GotReady(t) && t.jobAssigned));
    forall turn, before: nat
      ensures Entries(TurnEntries(options, turn, before), {Stopping}) == One(!Failing(turn, probe))
    {
      TurnTallies(options, turn, before, {Stopping});
    }
    TraceTallies(options, turns, {Stopping}, (t: Turn) => One(!Failing(t, probe)));
    forall turn, before: nat
      ensures Entries(TurnEntries(options, turn, before), {Restarting, SafeMode}) == One(Failing(turn, probe))
    {
      TurnTallies(options, turn, before, {Restarting, SafeMode});
    }
    TraceTallies(options, turns, {Restarting, SafeMode}, (t: Turn) => One(Failing(t, probe)));
    forall turn, before: nat
      ensures Entries(TurnEntries(options, turn, before), {Degraded}) == Troubles(turn, probe)
    {
      TurnTallies(options, turn, before, {Degraded});
    }
    TraceTallies(options, turns, {Degraded}, (t: Turn) => Troubles(t, probe));
  }

  /** The processes that the STARTING entries name. */
  function StartedPids(trace: seq<Entry>): seq<nat> {
    if trace == [] then []
    else
      var last := trace[|trace| - 1];
      StartedPids(trace[..|trace| - 1]) + if last.state == Starting then [last.pid] else []
  }

  function LaunchedPids(turns: seq<Turn>): seq<nat> {
    if turns == [] then []
    else
      var last := turns[|turns| - 1];
      LaunchedPids(turns[..|turns| - 1]) + if last.Launched? then [last.pid] else []
  }

  lemma {:induction false} StartedPidsAppend(a: seq<Entry>, b: seq<Entry>)
    ensures StartedPids(a + b) == StartedPids(a) + StartedPids(b)
  {
    if b == [] {
      assert a + b == a;
    } else {
      var n := |b| - 1;
      StartedPidsAppend(a, b[..n]);
      assert (a + b)[..|a + b| - 1] == a + b[..n];
    }
  }

  lemma StartedPidsOf(trace: seq<Entry>)
    requires trace != [] && forall i :: 1 <= i < |trace| ==> trace[i].state != Starting
    ensures StartedPids(trace) == if trace[0].state == Starting then [trace[0].pid] else []
  {
    if |trace| == 1 {
      assert trace[..0] == [];
    } else {
      StartedPidsOf(trace[..|trace| - 1]);
    }
  }

  lemma TurnPids(options: Options, turn: Turn, before: nat)
    ensures StartedPids(TurnEntries(options, turn, before)) == if turn.Launched? then [turn.pid] else []
  {
    hide StartedPids;
    StartedPidsOf(TurnEntries(options, turn, before));
  }

  /** The trace names the launched processes, in order, after the supervisor's own first entry. */
  lemma {:induction false} TraceNamesProcesses(options: Options, turns: seq<Turn>)
    ensures StartedPids(TraceOf(options, turns)) == [0] + LaunchedPids(turns)
  {
    hide StartedPids, TurnEntries;
    if turns == [] {
      StartedPidsOf([Entry(Starting, 0, 0, 0, false)]);
    } else {
      var n := |turns| - 1;
      TraceNamesProcesses(options, turns[..n]);
      TurnPids(options, turns[n], FailuresInARow(turns[..n]));
      StartedPidsAppend(TraceOf(options, turns[..n]), TurnEntries(options, turns[n], FailuresInARow(turns[..n])));
    }
  }

  /** A failure is closed by an entry with the number of failures in a row and the exit code: what
      the launch reported, what the shell left, or 0xC0000409 for a shell that hung. */
  lemma ClosingEntry(options: Options, turns: seq<Turn>)
    requires turns != [] && Failing(turns[|turns| - 1], options.probeReadyOnce)
    ensures var trace, last := TraceOf(options, turns), turns[|turns| - 1];
      && trace != []
      && var closing := trace[|trace| - 1];
         && closing.state == (if FailuresInARow(turns) < options.maximumFailures then Restarting else SafeMode)
         && closing.pid == 0 && closing.failureCount == FailuresInARow(turns)
         && closing.exitCode ==
              match last
              case LaunchFailed(error, _) => error
              case Launched(_, _, _, outcome, _, _) =>
                match outcome
                case NormalExitBeforeReady => 0
                case ReadyTimeout => 0xC000_0409
                case FailedBeforeReady(code) => code
                case Ready(_, monitored, code) => if monitored == MonitorStale then 0xC000_0409 else code
  {
    hide Observed;
  }
}
