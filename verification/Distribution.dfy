/** Distribution channels: a saved state with the confirmed and the pending channel, and the steps
    that move it - opening the update window, checking, applying, rolling back, and the first
    stable run of a new version. */
module Distribution {
  import opened Common

  // ---------------------------------------------------------------------------
  // Channel names
  // ---------------------------------------------------------------------------

  function TrimStart(s: string): string {
    if s != [] && WhiteSpace(s[0]) then TrimStart(s[1..]) else s
  }

  function TrimEnd(s: string): string {
    if s != [] && WhiteSpace(s[|s| - 1]) then TrimEnd(s[..|s| - 1]) else s
  }

  /** Trim and ToLowerInvariant. */
  function NormalName(channel: string): string {
    Lower(TrimEnd(TrimStart(channel)))
  }

  datatype Policy = Policy(channels: set<string>, transitions: seq<(string, string)>) {

    function Normalize(channel: string): Option<string> {
      if NormalName(channel) in channels then Some(NormalName(channel)) else None
    }

    predicate IsTransitionAllowed(from: string, to: string) {
      exists i :: 0 <= i < |transitions|
               && SameIgnoringCase(transitions[i].0, from) && SameIgnoringCase(transitions[i].1, to)
    }

    predicate AssertTransition(current: string, target: string, explicitChange: bool) {
      (SameIgnoringCase(current, target) || explicitChange) && IsTransitionAllowed(current, target)
    }
  }

  lemma {:induction false} TrimStartTrims(s: string)
    ensures TrimStart(s) == [] || !WhiteSpace(TrimStart(s)[0])
    ensures exists k :: 0 <= k <= |s| && TrimStart(s) == s[k..]
  {
    if s != [] && WhiteSpace(s[0]) {
      TrimStartTrims(s[1..]);
      var k :| 0 <= k <= |s| - 1 && TrimStart(s[1..]) == s[1..][k..];
      assert s[1..][k..] == s[k + 1..];
    } else {
      assert s == s[0..];
    }
  }

  lemma {:induction false} TrimEndTrims(s: string)
    ensures var t := TrimEnd(s); t == [] || (!WhiteSpace(t[|t| - 1]) && t[0] == s[0] && s != [])
  {
    if s != [] && WhiteSpace(s[|s| - 1]) {
      TrimEndTrims(s[..|s| - 1]);
    }
  }

  /** Normalizing twice is normalizing once. */
  lemma NormalizeIsNormal(channel: string)
    ensures NormalName(NormalName(channel)) == NormalName(channel)
  {
    hide TrimStart, TrimEnd;
    var t := TrimEnd(TrimStart(channel));
    var n := Lower(t);
    TrimStartTrims(channel);
    TrimEndTrims(TrimStart(channel));
    assert n != [] ==> n[0] == Fold(t[0]) && n[|n| - 1] == Fold(t[|t| - 1]);
    Untrimmed(n);
    assert Lower(n) == n;
  }

  lemma Untrimmed(s: string)
    requires s == [] || (!WhiteSpace(s[0]) && !WhiteSpace(s[|s| - 1]))
    ensures TrimEnd(TrimStart(s)) == s
  {
  }

  /** A name as Normalize leaves it, and not empty. */
  predicate Name(c: string) {
    c != [] && NormalName(c) == c
  }

  /** A normalized name is blank only if it is empty. */
  lemma NameNotBlank(c: string)
    requires Name(c)
    ensures !Blank(Some(c))
  {
    hide TrimStart, TrimEnd;
    var t := TrimEnd(TrimStart(c));
    TrimStartTrims(c);
    TrimEndTrims(TrimStart(c));
    assert c == Lower(t);
    assert c[0] == Fold(t[0]) && !WhiteSpace(c[0]);
  }

  lemma NormalizedIsName(policy: Policy, channel: string)
    requires [] !in policy.channels && policy.Normalize(channel).Some?
    ensures Name(policy.Normalize(channel).value)
  {
    NormalizeIsNormal(channel);
  }

  lemma SameNames(a: string, b: string)
    requires Name(a) && Name(b)
    ensures SameIgnoringCase(a, b) <==> a == b
  {
    LowerTwice(TrimEnd(TrimStart(a)));
    LowerTwice(TrimEnd(TrimStart(b)));
  }

  lemma LowerTwice(s: string)
    ensures Lower(Lower(s)) == Lower(s)
  {
  }

  // ---------------------------------------------------------------------------
  // The saved state
  // ---------------------------------------------------------------------------

  datatype State = State(
    currentVersion: Option<string>,
    previousVersion: Option<string>,
    pendingVersion: Option<string>,
    pendingSource: Option<string>,
    pendingChannel: Option<string>,
    confirmedChannel: Option<string>,
    healthyVersion: Option<string>)

  const EMPTY: State := State(None, None, None, None, None, None, None)

  datatype Update = Update(version: string, currentVersion: Option<string>, source: string, channel: string)

  predicate CanRollback(s: State) {
    !Blank(s.previousVersion) && !Blank(s.pendingSource) && !Blank(s.pendingChannel)
  }

  function Prepared(s: State, u: Update): State {
    var current := if !Blank(u.currentVersion) then u.currentVersion else s.currentVersion;
    s.(currentVersion := current, previousVersion := current, pendingVersion := Some(u.version),
       pendingSource := Some(u.source), pendingChannel := Some(u.channel))
  }

  function Healthy(s: State, version: string): State {
    var current :=
      if !Blank(s.pendingVersion) then s.pendingVersion
      else if !Blank(Some(version)) then Some(version) else s.currentVersion;
    s.(currentVersion := current, healthyVersion := current,
       confirmedChannel := if !Blank(s.pendingChannel) then s.pendingChannel else s.confirmedChannel,
       pendingVersion := None, pendingSource := None, pendingChannel := None)
  }

  /** AssertPackageChannel: the state it leaves, or None where it throws. */
  function Opened(policy: Policy, s: State, productChannel: string): Option<State> {
    match policy.Normalize(productChannel)
    case None => None
    case Some(normalized) =>
      if Blank(s.confirmedChannel) then Some(s.(confirmedChannel := Some(normalized)))
      else
        match policy.Normalize(s.confirmedChannel.value)
        case None => None
        case Some(confirmed) =>
          if SameIgnoringCase(confirmed, normalized) then Some(s)
          else if Blank(s.pendingChannel) then None
          else
            match policy.Normalize(s.pendingChannel.value)
            case None => None
            case Some(pending) => if SameIgnoringCase(pending, normalized) then Some(s) else None
  }

  /** The channel that CheckAsync settles on, or None where it throws. */
  function CheckedChannel(policy: Policy, s: State, requested: Option<string>, productChannel: string): Option<string> {
    match policy.Normalize(if s.confirmedChannel.Some? then s.confirmedChannel.value else productChannel)
    case None => None
    case Some(current) =>
      match policy.Normalize(if requested.Some? then requested.value else productChannel)
      case None => None
      case Some(channel) =>
        if policy.AssertTransition(current, channel, !Blank(requested)) then Some(channel) else None
  }

  class Store {
    var state: State

    constructor ()
      ensures state == EMPTY
    {
      state := EMPTY;
    }

    method AssertPackageChannel(policy: Policy, productChannel: string) returns (ok: bool)
      modifies this
      ensures ok == Opened(policy, old(state), productChannel).Some?
      ensures state == if ok then Opened(policy, old(state), productChannel).value else old(state)
    {
      var normalized := policy.Normalize(productChannel);
      if normalized.None? { return false; }
      if Blank(state.confirmedChannel) {
        state := state.(confirmedChannel := normalized);
        return true;
      }
      var confirmed := policy.Normalize(state.confirmedChannel.value);
      if confirmed.None? { return false; }
      if SameIgnoringCase(confirmed.value, normalized.value) { return true; }
      if !Blank(state.pendingChannel) {
        var pending := policy.Normalize(state.pendingChannel.value);
        if pending.None? { return false; }
        if SameIgnoringCase(pending.value, normalized.value) { return true; }
      }
      return false;
    }

    method RecordPrepared(u: Update)
      modifies this
      ensures state == Prepared(old(state), u)
    {
      if !Blank(u.currentVersion) { state := state.(currentVersion := u.currentVersion); }
      state := state.(previousVersion := state.currentVersion);
      state := state.(pendingVersion := Some(u.version));
      state := state.(pendingSource := Some(u.source));
      state := state.(pendingChannel := Some(u.channel));
    }

    method MarkHealthy(version: string)
      modifies this
      ensures state == Healthy(old(state), version)
    {
      if !Blank(state.pendingVersion) { state := state.(currentVersion := state.pendingVersion); }
      else if !Blank(Some(version)) { state := state.(currentVersion := Some(version)); }
      if !Blank(state.pendingChannel) { state := state.(confirmedChannel := state.pendingChannel); }
      state := state.(healthyVersion := state.currentVersion);
      state := state.(pendingVersion := None, pendingSource := None, pendingChannel := None);
    }
  }

  // ---------------------------------------------------------------------------
  // Runs
  // ---------------------------------------------------------------------------

  /** The text of a semantic version. */
  type Version = v: string | IsVersion(v) witness "0"

  predicate IsVersion(v: string) {
    v != [] && '0' <= v[0] <= '9'
  }

  /** An update that a check has produced, with the policy it was checked against and whether its
      channel was asked for by name. */
  datatype Offer = Offer(update: Update, policy: Policy, explicit: bool)

  /** A change of the confirmed channel, with the policy in force at the check that led to it. */
  datatype Change = Change(from: string, to: string, policy: Policy, explicit: bool)

  datatype System = System(
    running: string,             // the version that is installed
    state: State,
    window: Option<string>,      // the product channel of the process that shows the update window
    offer: Option<Offer>,
    grounds: Option<(Policy, bool)>,  // the policy and the request behind what is pending
    applied: bool,               // an update or a rollback was recorded since the last healthy run
    stuck: bool,                 // applying the newest of them threw
    changes: seq<Change>)

  /** Every step that reads the policy finds one of its own: an update may replace it. The update
      manager reports the installed version, or none; an apply restarts the product, or throws. */
  datatype Step =
    | OpenWindow(policy: Policy, productChannel: string)
    | CloseWindow
    | Check(policy: Policy, requested: Option<string>, version: Version, reports: bool, source: string)
    | Apply(restarts: bool)
    | Rollback(policy: Policy, reports: bool, restarts: bool)
    | StableRun

  /** Notes a change of a channel that was confirmed before. */
  function Noted(s: System, after: State, policy: Policy, explicit: bool): seq<Change> {
    var from, to := s.state.confirmedChannel, after.confirmedChannel;
    if from.Some? && to.Some? && from != to then s.changes + [Change(from.value, to.value, policy, explicit)]
    else s.changes
  }

  function Open(policy: Policy, s: System, productChannel: string): System {
    match Opened(policy, s.state, productChannel)
    case None => s
    case Some(state) =>
      s.(state := state, window := Some(productChannel), offer := None, changes := Noted(s, state, policy, false))
  }

  function Reported(s: System, reports: bool): Option<string> {
    if reports then Some(s.running) else None
  }

  function Offered(policy: Policy, s: System, requested: Option<string>, u: Update): System
    requires s.window.Some?
  {
    match CheckedChannel(policy, s.state, requested, s.window.value)
    case None => s.(offer := None)
    case Some(channel) => s.(offer := Some(Offer(u.(channel := channel), policy, !Blank(requested))))
  }

  /** ApplyAndRestart: the update is recorded first; if applying it throws, the record stays. */
  function Applied(s: System, u: Update, restarts: bool): System {
    s.(state := Prepared(s.state, u), applied := true, stuck := !restarts,
       running := if restarts then u.version else s.running)
  }

  function RolledBack(s: System, step: Step): System
    requires step.Rollback? && CanRollback(s.state)
  {
    match step.policy.Normalize(s.state.pendingChannel.value)
    case None => s
    case Some(channel) =>
      var target := s.state.previousVersion.value;
      Applied(s, Update(target, Reported(s, step.reports), s.state.pendingSource.value, channel), step.restarts)
  }

  /** One process shows either the update window or the host; a guard keeps a second one out. A step
      that is refused changes nothing. What else CheckAsync and PrepareSpecificVersionAsync may
      refuse for is left to the environment, which need not take the step. A window stays open if
      applying its update throws. */
  function Do(s: System, step: Step): System {
    match step
    case OpenWindow(policy, productChannel) => if s.window.Some? then s else Open(policy, s, productChannel)
    case CloseWindow => s.(window := None, offer := None)
    case Check(policy, requested, version, reports, source) =>
      if s.window.None? then s
      else Offered(policy, s, requested, Update(version, Reported(s, reports), source, []))
    case Apply(restarts) =>
      if s.window.None? || s.offer.None? then s
      else
        var offer := s.offer.value;
        var t := Applied(s, offer.update, restarts).(grounds := Some((offer.policy, offer.explicit)));
        if restarts then t.(window := None, offer := None) else t
    case Rollback(_, _, _) =>
      if s.window.Some? || !CanRollback(s.state) then s else RolledBack(s, step)
    case StableRun =>
      if s.window.Some? then s
      else
        var after := Healthy(s.state, s.running);
        var t := s.(state := after, applied := false, stuck := false);
        if s.grounds.None? then t else t.(changes := Noted(s, after, s.grounds.value.0, s.grounds.value.1))
  }

  function Run(installed: Version, steps: seq<Step>): System {
    if steps == [] then System(installed, EMPTY, None, None, None, false, false, [])
    else Do(Run(installed, steps[..|steps| - 1]), steps[|steps| - 1])
  }

  lemma RunSnoc(installed: Version, steps: seq<Step>, step: Step)
    ensures Run(installed, steps + [step]) == Do(Run(installed, steps), step)
  {
    assert (steps + [step])[..|steps|] == steps;
  }

  /** The matrix of the policy has a row from the one channel to the other. */
  ghost predicate InTable(policy: Policy, from: string, to: string) {
    exists k :: 0 <= k < |policy.transitions|
             && Lower(policy.transitions[k].0) == from && Lower(policy.transitions[k].1) == to
  }

  /** From the confirmed channel to this one is a row of the policy, by request if they differ. */
  ghost predicate Reachable(policy: Policy, s: State, channel: string, explicit: bool) {
    && Name(channel)
    && s.confirmedChannel.Some?
    && InTable(policy, s.confirmedChannel.value, channel)
    && (s.confirmedChannel.value != channel ==> explicit)
  }

  ghost predicate Inv(s: System) {
    && (s.state.confirmedChannel.Some? ==> Name(s.state.confirmedChannel.value))
    && (s.window.Some? ==> s.state.confirmedChannel.Some?)
    && (s.state.pendingChannel.Some? ==>
          && s.grounds.Some?
          && Reachable(s.grounds.value.0, s.state, s.state.pendingChannel.value, s.grounds.value.1))
    && (s.offer.Some? ==>
          && s.window.Some?
          && Reachable(s.offer.value.policy, s.state, s.offer.value.update.channel, s.offer.value.explicit))
    && (forall i :: 0 <= i < |s.changes| ==> ChangeOk(s.changes[i]))
  }

  ghost predicate ChangeOk(c: Change) {
    c.explicit && InTable(c.policy, c.from, c.to)
  }

  /** The step reads no policy, or one without an empty channel name. */
  predicate NoEmptyName(step: Step) {
    (step.OpenWindow? || step.Check? || step.Rollback?) ==> [] !in step.policy.channels
  }

  // ---------------------------------------------------------------------------
  // Every step keeps the invariant
  // ---------------------------------------------------------------------------

  lemma NoneIsBlank()
    ensures Blank(None)
  {
  }

  /** Names as they are compared are those of the matrix, in lower case. */
  lemma AllowedIsInTable(policy: Policy, from: string, to: string)
    requires Name(from) && Name(to)
    ensures policy.IsTransitionAllowed(from, to) <==> InTable(policy, from, to)
  {
    LowerTwice(TrimEnd(TrimStart(from)));
    LowerTwice(TrimEnd(TrimStart(to)));
  }

  lemma OpenKeeps(policy: Policy, s: System, productChannel: string)
    requires [] !in policy.channels && Inv(s) && s.window.None?
    ensures Inv(Open(policy, s, productChannel))
  {
    hide Blank, NormalName, InTable, SameIgnoringCase;
    NoneIsBlank();
    NormalizeIsNormal(productChannel);
    if s.state.confirmedChannel.Some? {
      NameNotBlank(s.state.confirmedChannel.value);
    }
  }

  lemma CheckKeeps(policy: Policy, s: System, requested: Option<string>, u: Update)
    requires [] !in policy.channels && Inv(s) && s.window.Some?
    ensures Inv(Offered(policy, s, requested, u))
  {
    hide Blank, InTable, Policy.IsTransitionAllowed, SameIgnoringCase, NormalName;
    var confirmed := s.state.confirmedChannel.value;
    var wanted := if requested.Some? then requested.value else s.window.value;
    NormalizeIsNormal(wanted);
    if policy.Normalize(wanted).Some? {
      SameNames(confirmed, policy.Normalize(wanted).value);
      AllowedIsInTable(policy, confirmed, policy.Normalize(wanted).value);
    }
  }

  lemma StableKeeps(s: System)
    requires Inv(s) && s.window.None?
    ensures Inv(Do(s, StableRun))
  {
    hide Blank, NormalName, InTable;
    NoneIsBlank();
    if s.state.pendingChannel.Some? {
      NameNotBlank(s.state.pendingChannel.value);
    }
  }

  lemma RollbackKeeps(s: System, step: Step)
    requires Inv(s) && step.Rollback?
    ensures Inv(Do(s, step))
  {
    hide Blank, NormalName, InTable;
    NoneIsBlank();
  }

  lemma StepKeeps(s: System, step: Step)
    requires Inv(s) && NoEmptyName(step)
    ensures Inv(Do(s, step))
  {
    hide Blank, NormalName, InTable, Open, Offered, RolledBack;
    match step
    case OpenWindow(policy, productChannel) => if s.window.None? { OpenKeeps(policy, s, productChannel); }
    case Check(policy, requested, version, reports, source) =>
      if s.window.Some? { CheckKeeps(policy, s, requested, Update(version, Reported(s, reports), source, [])); }
    case StableRun => if s.window.None? { StableKeeps(s); }
    case CloseWindow =>
    case Apply(_) =>
    case Rollback(_, _, _) => RollbackKeeps(s, step);
  }

  lemma {:induction false} RunKeeps(installed: Version, steps: seq<Step>)
    requires forall i :: 0 <= i < |steps| ==> NoEmptyName(steps[i])
    ensures Inv(Run(installed, steps))
  {
    if steps != [] {
      hide Do, Inv;
      RunKeeps(installed, steps[..|steps| - 1]);
      StepKeeps(Run(installed, steps[..|steps| - 1]), steps[|steps| - 1]);
    }
  }

  ghost predicate ChangesOk(installed: Version, steps: seq<Step>) {
    forall i :: 0 <= i < |Run(installed, steps).changes| ==> ChangeOk(Run(installed, steps).changes[i])
  }

  /** The policies that the steps read are among these. */
  ghost predicate Uses(policies: set<Policy>, steps: seq<Step>) {
    forall i :: 0 <= i < |steps| && (steps[i].OpenWindow? || steps[i].Check? || steps[i].Rollback?) ==>
      steps[i].policy in policies
  }

  /** Along every run from an empty store, in which any of these policies may be in force at any step,
      each change of a confirmed channel is a row of the policy it was checked against and was
      asked for by name - unless one of them has a channel with an empty name, which counts as not
      confirmed and lets the next package take over. */
  lemma ChannelsChangeByRequest(policies: set<Policy>, installed: Version)
    requires forall p :: p in policies ==> "development" in p.channels
    ensures (forall steps :: Uses(policies, steps) ==> ChangesOk(installed, steps))
      <==> forall p :: p in policies ==> [] !in p.channels
  {
    if p :| p in policies && [] in p.channels {
      var steps := [OpenWindow(p, []), CloseWindow, OpenWindow(p, "development")];
      EmptyNameSwitches(p, installed);
      assert Uses(policies, steps);
    } else {
      forall steps | Uses(policies, steps) ensures ChangesOk(installed, steps) {
        RunKeeps(installed, steps);
      }
    }
  }

  lemma EmptyNameSwitches(policy: Policy, installed: Version)
    requires [] in policy.channels && "development" in policy.channels
    ensures !ChangesOk(installed, [OpenWindow(policy, []), CloseWindow, OpenWindow(policy, "development")])
  {
    var first, second, third := OpenWindow(policy, []), CloseWindow, OpenWindow(policy, "development");
    assert Lower([]) == [] && Lower("development") == "development";
    Untrimmed("development");
    assert policy.Normalize([]) == Some([]) && policy.Normalize("development") == Some("development");
    var steps := [first, second, third];
    assert steps[..2] == [first, second] && [first, second][..1] == [first] && [first][..0] == [];
    var s0 := Run(installed, []);
    var s1 := Do(s0, first);
    assert Run(installed, [first]) == s1 && s1.state.confirmedChannel == Some([]);
    var s2 := Do(s1, second);
    assert Run(installed, [first, second]) == s2;
    var s3 := Do(s2, third);
    assert Run(installed, steps) == s3 && s3.changes == [Change([], "development", policy, false)];
    assert !ChangeOk(s3.changes[0]);
  }

  // ---------------------------------------------------------------------------
  // What the steps do with channels, by the matrix
  // ---------------------------------------------------------------------------

  /** Some character of the request is not white space. */
  ghost predicate Asked(requested: Option<string>) {
    requested.Some? && exists i :: 0 <= i < |requested.value| && !WhiteSpace(requested.value[i])
  }

  /** In every run, a check makes an offer if and only if both channels exist, they are the same or
      the other one was asked for, and the matrix has the row; and it offers just that channel. */
  lemma CheckOffersExactly(installed: Version, steps: seq<Step>, check: Step)
    requires check.Check? && (forall i :: 0 <= i < |steps| ==> NoEmptyName(steps[i])) && NoEmptyName(check)
    requires Run(installed, steps).window.Some?
    ensures Run(installed, steps).state.confirmedChannel.Some?
    ensures var s, t := Run(installed, steps), Run(installed, steps + [check]);
      var from := s.state.confirmedChannel.value;
      var to := NormalName(if check.requested.Some? then check.requested.value else s.window.value);
      && t.state == s.state && t.window == s.window
      && (t.offer.Some? <==>
            && from in check.policy.channels && to in check.policy.channels
            && (from == to || Asked(check.requested)) && InTable(check.policy, from, to))
      && (t.offer.Some? ==>
            && t.offer.value.update.version == check.version && t.offer.value.update.channel == to
            && t.offer.value.update.source == check.source && t.offer.value.policy == check.policy)
  {
    hide Run, NormalName, InTable, Policy.IsTransitionAllowed, SameIgnoringCase;
    RunKeeps(installed, steps);
    RunSnoc(installed, steps, check);
    var s := Run(installed, steps);
    var from := s.state.confirmedChannel.value;
    var wanted := if check.requested.Some? then check.requested.value else s.window.value;
    NormalizeIsNormal(wanted);
    if check.policy.Normalize(wanted).Some? {
      SameNames(from, NormalName(wanted));
      AllowedIsInTable(check.policy, from, NormalName(wanted));
    }
  }

  /** In every run, the update window opens if and only if the package's channel exists and, once a
      channel is confirmed, that one exists and is the same, or what is pending is. Opening confirms
      the channel of the first package and changes nothing else. */
  lemma WindowOpensExactly(installed: Version, steps: seq<Step>, open: Step)
    requires open.OpenWindow? && (forall i :: 0 <= i < |steps| ==> NoEmptyName(steps[i])) && NoEmptyName(open)
    requires Run(installed, steps).window.None?
    ensures var s, t := Run(installed, steps), Run(installed, steps + [open]);
      var channel := NormalName(open.productChannel);
      && (t.window.Some? <==>
            && channel in open.policy.channels
            && (s.state.confirmedChannel.Some? ==>
                  && s.state.confirmedChannel.value in open.policy.channels
                  && (channel == s.state.confirmedChannel.value || Some(channel) == s.state.pendingChannel)))
      && t.state == (if t.window.Some? && s.state.confirmedChannel.None?
                     then s.state.(confirmedChannel := Some(channel)) else s.state)
  {
    hide Run, NormalName, InTable, SameIgnoringCase, Blank;
    RunKeeps(installed, steps);
    RunSnoc(installed, steps, open);
    var s := Run(installed, steps);
    var channel := NormalName(open.productChannel);
    NoneIsBlank();
    NormalizeIsNormal(open.productChannel);
    if s.state.confirmedChannel.Some? {
      NameNotBlank(s.state.confirmedChannel.value);
      if channel != [] {
        SameNames(s.state.confirmedChannel.value, channel);
      }
    }
    if s.state.pendingChannel.Some? {
      NameNotBlank(s.state.pendingChannel.value);
      if channel != [] {
        SameNames(s.state.pendingChannel.value, channel);
      }
    }
  }

  /** In every run, a channel that is asked for and that the matrix allows is the confirmed one after
      the update was applied and ran stably. */
  lemma RequestedChannelArrives(installed: Version, steps: seq<Step>, check: Step)
    requires check.Check? && (forall i :: 0 <= i < |steps| ==> NoEmptyName(steps[i])) && NoEmptyName(check)
    requires Run(installed, steps).window.Some? && Asked(check.requested)
    requires var s := Run(installed, steps);
      && s.state.confirmedChannel.Some? && s.state.confirmedChannel.value in check.policy.channels
      && NormalName(check.requested.value) in check.policy.channels
      && InTable(check.policy, s.state.confirmedChannel.value, NormalName(check.requested.value))
    ensures var t := Run(installed, steps + [check] + [Apply(true)] + [StableRun]);
      && t.state.confirmedChannel == Some(NormalName(check.requested.value))
      && t.running == check.version && t.state.healthyVersion == Some(check.version)
    ensures var pending := Run(installed, steps + [check] + [Apply(true)]).state;
      && pending.pendingSource == Some(check.source) && pending.pendingVersion == Some(check.version)
      && pending.pendingChannel == Some(NormalName(check.requested.value))
  {
    hide Run, NormalName, InTable, Blank, CheckedChannel, IsVersion;
    CheckOffersExactly(installed, steps, check);
    var offered := Run(installed, steps + [check]);
    NormalizedIsName(check.policy, check.requested.value);
    NameNotBlank(NormalName(check.requested.value));
    VersionNotBlank(check.version);
    RunSnoc(installed, steps + [check], Apply(true));
    RunSnoc(installed, steps + [check] + [Apply(true)], StableRun);
  }

  // ---------------------------------------------------------------------------
  // Versions
  // ---------------------------------------------------------------------------

  predicate VersionOrNone(v: Option<string>) {
    v.Some? ==> IsVersion(v.value)
  }

  lemma VersionNotBlank(v: string)
    requires IsVersion(v)
    ensures !Blank(Some(v))
  {
    assert !WhiteSpace(v[0]);
  }

  ghost predicate VersionsOk(s: System) {
    && IsVersion(s.running)
    && VersionOrNone(s.state.currentVersion) && VersionOrNone(s.state.previousVersion)
    && VersionOrNone(s.state.pendingVersion)
    && (s.offer.Some? ==> IsVersion(s.offer.value.update.version) && VersionOrNone(s.offer.value.update.currentVersion))
  }

  /** Between the record of an update and the next healthy run something is pending, and a rollback
      would lead to the version that counts as current; and what is pending is what runs, unless
      applying it threw. */
  ghost predicate PendingOk(s: System) {
    && (s.state.pendingChannel.Some? <==> s.applied)
    && (s.state.pendingVersion.Some? <==> s.applied)
    && (s.applied ==> s.state.previousVersion == s.state.currentVersion)
    && (s.applied && !s.stuck ==> s.state.pendingVersion == Some(s.running))
    && (s.stuck ==> s.applied)
  }

  lemma PreparedVersions(s: System, u: Update, restarts: bool)
    requires VersionsOk(s) && PendingOk(s) && IsVersion(u.version) && VersionOrNone(u.currentVersion)
    ensures VersionsOk(Applied(s, u, restarts)) && PendingOk(Applied(s, u, restarts))
  {
    hide Blank;
  }

  lemma StepVersions(s: System, step: Step)
    requires VersionsOk(s) && PendingOk(s)
    ensures VersionsOk(Do(s, step)) && PendingOk(Do(s, step))
  {
    hide Blank, Policy.Normalize, CheckedChannel, Applied, IsVersion;
    NoneIsBlank();
    match step
    case Apply(restarts) => if s.offer.Some? { PreparedVersions(s, s.offer.value.update, restarts); }
    case Rollback(policy, reports, restarts) =>
      if CanRollback(s.state) && policy.Normalize(s.state.pendingChannel.value).Some? {
        var channel := policy.Normalize(s.state.pendingChannel.value).value;
        assert s.state.previousVersion.Some? && s.state.pendingSource.Some?;
        PreparedVersions(s, Update(s.state.previousVersion.value, Reported(s, reports),
                                   s.state.pendingSource.value, channel), restarts);
      }
    case _ =>
  }

  lemma {:induction false} RunVersions(installed: Version, steps: seq<Step>)
    ensures VersionsOk(Run(installed, steps)) && PendingOk(Run(installed, steps))
  {
    if steps != [] {
      hide Do, VersionsOk, PendingOk;
      RunVersions(installed, steps[..|steps| - 1]);
      StepVersions(Run(installed, steps[..|steps| - 1]), steps[|steps| - 1]);
    }
  }

  /** A stable run marks the version that ran if and only if that is what is pending, or applying what
      is pending did not throw: a version that never ran is marked exactly if its apply threw, nothing
      was recorded after it, and another version went on to run. */
  lemma HealthyIsWhatRan(installed: Version, steps: seq<Step>)
    requires Run(installed, steps).window.None?
    ensures var s, t := Run(installed, steps), Run(installed, steps + [StableRun]);
      && t.running == s.running
      && (t.state.healthyVersion == Some(s.running) <==> !s.stuck || s.state.pendingVersion == Some(s.running))
      && (s.stuck ==> t.state.healthyVersion == s.state.pendingVersion)
  {
    hide Run, Blank, IsVersion;
    var s := Run(installed, steps);
    RunVersions(installed, steps);
    RunSnoc(installed, steps, StableRun);
    NoneIsBlank();
    VersionNotBlank(s.running);
    if s.state.pendingVersion.Some? {
      VersionNotBlank(s.state.pendingVersion.value);
    }
  }

  // ---------------------------------------------------------------------------
  // Rolling back
  // ---------------------------------------------------------------------------

  /** A rollback is on offer only between an apply, or a rollback, and the next healthy run. */
  lemma {:induction false} RollbackOnlyWhilePending(installed: Version, steps: seq<Step>)
    ensures CanRollback(Run(installed, steps).state) ==> Run(installed, steps).applied
    ensures !CanRollback(Healthy(Run(installed, steps).state, Run(installed, steps).running))
  {
    RunVersions(installed, steps);
  }

  /** The state lets a rollback happen: it is on offer and the policy in force has its channel. */
  predicate CanTake(policy: Policy, s: System) {
    s.window.None? && CanRollback(s.state) && policy.Normalize(s.state.pendingChannel.value).Some?
  }

  /** Steps that do not touch what is pending. */
  predicate Browsing(step: Step) {
    step.OpenWindow? || step.CloseWindow? || step.Check?
  }

  predicate SamePending(s: System, t: System) {
    t.state == s.state.(confirmedChannel := t.state.confirmedChannel) && t.running == s.running && t.stuck == s.stuck
  }

  lemma {:induction false} BrowsingKeeps(installed: Version, steps: seq<Step>, more: seq<Step>)
    requires forall i :: 0 <= i < |more| ==> Browsing(more[i])
    ensures SamePending(Run(installed, steps), Run(installed, steps + more))
  {
    hide Blank, Policy.Normalize, CheckedChannel, Run;
    if more == [] {
      assert steps + [] == steps;
    } else {
      var n := |more| - 1;
      BrowsingKeeps(installed, steps, more[..n]);
      assert steps + more == (steps + more[..n]) + [more[n]];
      RunSnoc(installed, steps + more[..n], more[n]);
    }
  }

  /** Trimming removes nothing but white space. */
  lemma NormalNotBlank(c: string)
    requires !Blank(Some(c))
    ensures !Blank(Some(NormalName(c)))
  {
    hide TrimStart, TrimEnd;
    TrimStartKeeps(c);
    TrimEndKeeps(TrimStart(c));
    var t := TrimEnd(TrimStart(c));
    var i :| 0 <= i < |t| && !WhiteSpace(t[i]);
    assert Lower(t)[i] == Fold(t[i]);
  }

  lemma {:induction false} TrimStartKeeps(s: string)
    requires !Blank(Some(s))
    ensures !Blank(Some(TrimStart(s)))
  {
    if WhiteSpace(s[0]) {
      var i :| 0 <= i < |s| && !WhiteSpace(s[i]);
      assert s[1..][i - 1] == s[i];
      TrimStartKeeps(s[1..]);
    }
  }

  lemma {:induction false} TrimEndKeeps(s: string)
    requires !Blank(Some(s))
    ensures !Blank(Some(TrimEnd(s)))
  {
    if WhiteSpace(s[|s| - 1]) {
      var i :| 0 <= i < |s| && !WhiteSpace(s[i]);
      assert s[..|s| - 1][i] == s[i];
      TrimEndKeeps(s[..|s| - 1]);
    }
  }

  /** What a rollback that is taken in a run leaves pending, and where the next one would lead; and
      the next one is on offer again, for every policy that has the channel. */
  lemma RollbackStep(installed: Version, steps: seq<Step>, step: Step)
    requires step.Rollback? && CanTake(step.policy, Run(installed, steps))
    ensures var s, t := Run(installed, steps), Run(installed, steps + [step]);
      && t.window.None? && CanRollback(t.state)
      && t.state.pendingChannel == Some(NormalName(s.state.pendingChannel.value))
      && t.state.pendingVersion == s.state.previousVersion && t.state.pendingSource == s.state.pendingSource
      && t.state.previousVersion == (if step.reports then Some(s.running) else s.state.previousVersion)
      && t.stuck == !step.restarts
  {
    hide Blank, NormalName, Run, IsVersion;
    var s := Run(installed, steps);
    NoneIsBlank();
    RunVersions(installed, steps);
    RunSnoc(installed, steps, step);
    VersionNotBlank(s.running);
    assert s.state.pendingSource.Some?;
    NormalNotBlank(s.state.pendingChannel.value);
  }

  /** Two rollbacks of a run with no healthy run between them, each under a policy of its own. The
      second one can be taken if and only if its policy has the channel. It returns to the version
      that ran at the first one if and only if the manager reported that version then, or the first
      one led there already; without a report it leads where the first one led. */
  lemma SecondRollback(installed: Version, steps: seq<Step>, first: Step, between: seq<Step>, second: Step)
    requires first.Rollback? && second.Rollback? && CanTake(first.policy, Run(installed, steps))
    requires forall i :: 0 <= i < |between| ==> Browsing(between[i])
    requires Run(installed, steps + [first] + between).window.None?
    ensures CanTake(second.policy, Run(installed, steps + [first] + between))
      <==> NormalName(Run(installed, steps).state.pendingChannel.value) in second.policy.channels
    ensures CanTake(second.policy, Run(installed, steps + [first] + between)) ==>
      var ran := Some(Run(installed, steps).running);
      var once := Run(installed, steps + [first]).state.pendingVersion;
      var twice := Run(installed, steps + [first] + between + [second]).state.pendingVersion;
      (twice == ran <==> first.reports || once == ran) && (!first.reports ==> twice == once)
  {
    hide Blank, NormalName, Run;
    NoneIsBlank();
    RollbackStep(installed, steps, first);
    BrowsingKeeps(installed, steps + [first], between);
    NormalizeIsNormal(Run(installed, steps).state.pendingChannel.value);
    if CanTake(second.policy, Run(installed, steps + [first] + between)) {
      RollbackStep(installed, steps + [first] + between, second);
    }
  }

  function Rollbacks(policy: Policy, n: nat): (all: seq<Step>) {
    seq(n, _ => Rollback(policy, true, true))
  }

  /** While no run is healthy, rollbacks go back and forth between the same two versions for ever. */
  lemma {:induction false} RollbacksAlternate(installed: Version, steps: seq<Step>, policy: Policy, n: nat)
    requires CanTake(policy, Run(installed, steps)) && !Run(installed, steps).stuck
    ensures var s, t := Run(installed, steps), Run(installed, steps + Rollbacks(policy, n));
      && CanTake(policy, t) && !t.stuck
      && Some(t.running) == t.state.pendingVersion
      && t.state.pendingVersion == (if n % 2 == 0 then s.state.pendingVersion else s.state.previousVersion)
      && t.state.previousVersion == (if n % 2 == 0 then s.state.previousVersion else s.state.pendingVersion)
  {
    hide Run, Do, Blank, NormalName;
    NoneIsBlank();
    if n == 0 {
      assert steps + Rollbacks(policy, 0) == steps;
      RunVersions(installed, steps);
      CanTakePending(installed, steps, policy);
    } else {
      RollbacksAlternate(installed, steps, policy, n - 1);
      var before, last := steps + Rollbacks(policy, n - 1), Rollback(policy, true, true);
      assert steps + Rollbacks(policy, n) == before + [last];
      RollbackStep(installed, before, last);
      NormalizeIsNormal(Run(installed, before).state.pendingChannel.value);
      RunVersions(installed, before + [last]);
      CanTakePending(installed, before + [last], policy);
    }
  }

  /** While a rollback is on offer, what is pending runs, unless applying it threw. */
  lemma CanTakePending(installed: Version, steps: seq<Step>, policy: Policy)
    requires CanTake(policy, Run(installed, steps)) && !Run(installed, steps).stuck
    ensures Run(installed, steps).state.pendingVersion == Some(Run(installed, steps).running)
  {
    hide Run;
    RunVersions(installed, steps);
  }

  // ---------------------------------------------------------------------------
  // Three runs
  // ---------------------------------------------------------------------------

  const ONE_CHANNEL: Policy := Policy({"development"}, [("development", "development")])

  /** Version 1 shows the window and finds version 2. */
  const FOUND: seq<Step> :=
    [OpenWindow(ONE_CHANNEL, "development"), Check(ONE_CHANNEL, None, "2", true, "source")]

  lemma FoundVersionTwo()
    ensures var s := Run("1", FOUND);
      && s.running == "1" && s.window.Some?
      && s.state == EMPTY.(confirmedChannel := Some("development"))
      && s.offer == Some(Offer(Update("2", Some("1"), "source", "development"), ONE_CHANNEL, false))
    ensures ONE_CHANNEL.Normalize("development") == Some("development")
  {
    var dev := "development";
    assert Lower(dev) == dev;
    Untrimmed(dev);
    assert ONE_CHANNEL.transitions[0] == (dev, dev);
    RunSnoc("1", [], FOUND[0]);
    assert [] + [FOUND[0]] == [FOUND[0]];
    RunSnoc("1", [FOUND[0]], FOUND[1]);
    assert [FOUND[0]] + [FOUND[1]] == FOUND;
  }

  lemma AppliedVersionTwo(restarts: bool)
    ensures var s := Run("1", FOUND + [Apply(restarts), CloseWindow]);
      && CanTake(ONE_CHANNEL, s) && s.running == (if restarts then "2" else "1") && s.stuck == !restarts
      && s.state.pendingVersion == Some("2") && s.state.previousVersion == Some("1")
  {
    hide Run, Policy.Normalize;
    FoundVersionTwo();
    RunSnoc("1", FOUND, Apply(restarts));
    RunSnoc("1", FOUND + [Apply(restarts)], CloseWindow);
    assert FOUND + [Apply(restarts)] + [CloseWindow] == FOUND + [Apply(restarts), CloseWindow];
    assert "development"[0] == 'd' && "source"[0] == 's' && "1"[0] == '1';
  }

  /** Version 2 fails and is rolled back, version 1 fails too: the next rollback installs version 2
      again if version 2 was reported at the first one, and version 1 once more if none was. */
  lemma RollbackReturnsOrRepeats(reports: bool)
    ensures var rollback := Rollback(ONE_CHANNEL, reports, true);
      Run("1", FOUND + [Apply(true), CloseWindow] + [rollback] + [rollback]).running == if reports then "2" else "1"
  {
    hide Run, NormalName;
    var applied, rollback := FOUND + [Apply(true), CloseWindow], Rollback(ONE_CHANNEL, reports, true);
    AppliedVersionTwo(true);
    RollbackStep("1", applied, rollback);
    NormalizeIsNormal(Run("1", applied).state.pendingChannel.value);
    RollbackStep("1", applied + [rollback], rollback);
    NormalizeIsNormal(Run("1", applied + [rollback]).state.pendingChannel.value);
    CanTakePending("1", applied + [rollback] + [rollback], ONE_CHANNEL);
  }

  /** Applying version 2 throws and version 1 goes on to run stably: version 2 is marked healthy. */
  lemma OtherVersionMarkedHealthy()
    ensures var s := Run("1", FOUND + [Apply(false), CloseWindow] + [StableRun]);
      s.running == "1" && s.state.healthyVersion == Some("2")
  {
    hide Run;
    AppliedVersionTwo(false);
    HealthyIsWhatRan("1", FOUND + [Apply(false), CloseWindow]);
  }
}
