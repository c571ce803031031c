/** Every interleaving of registering, preparing, consuming, expiring, completing and disposing.

    A step is what one task does under one lock, or one look at a file, so tasks interleave at
    every point where the source lets them. */
module InstallerRuns {
  import opened Common
  import opened Installer

  /** Where a committed capability is: in the table, taken by a consume that is still running, or
      gone, in one of five ways. */
  datatype Fate = Live | Taken | Consumed | Rejected | Expired | Completed | Disposed

  /** A launch plan that ConsumeAsync returned. */
  datatype Plan = Plan(id: Id, sha256: string, checkedAt: Time, seen: Inspection)

  datatype System = System(
    lifetime: nat,
    catalog: map<string, Artifact>,
    registered: set<Artifact>,                // everything that was ever in the catalog
    preparing: map<nat, (Artifact, bool)>,    // PrepareAsync calls that have read the catalog
    table: Table,
    disposed: bool,
    taken: Table,                             // ConsumeAsync calls between lock and verdict
    issued: Table,                            // everything that was ever in the table
    fates: map<Id, Fate>,
    doomed: set<Id>,                          // staging directories about to be deleted
    deleted: set<Id>,                         // staging directories whose deletion was attempted
    staged: set<Id>,                          // staging directories that were made
    abandoned: set<Id>,                       // those that an exception left behind
    plans: seq<Plan>)

  datatype Step =
    | Register(artifact: Artifact)
    | Unregister(artifactId: string)
    | StartPrepare(task: nat, artifactId: string, allowUntrusted: bool)
    | FinishPrepare(task: nat, id: Id, issuedAt: Time, sights: Sights)
    | Take(id: Id, now: Time)
    | Finish(id: Id, now: Time, look: Look, planValid: bool)
    | CompleteCapability(id: Id)
    | ExpireTimer(id: Id, now: Time)
    | DisposeService
    | DeleteStaging(id: Id)

  function Mark(fates: map<Id, Fate>, ids: set<Id>, fate: Fate): map<Id, Fate> {
    map id | id in fates :: if id in ids then fate else fates[id]
  }

  /** PurgeExpiredLocked, which deletes while it holds the lock. */
  function Purge(s: System, now: Time): System {
    var gone := Outdated(s.table, now);
    s.(table := s.table - gone, fates := Mark(s.fates, gone, Expired), deleted := s.deleted + gone)
  }

  function Commit(s: System, id: Id, c: Capability, issuedAt: Time): System {
    var t := Purge(s, issuedAt);
    t.(table := t.table[id := c], issued := t.issued[id := c], fates := t.fates[id := Live])
  }

  /** PrepareAsync once it has made the staging directory. */
  function AfterStaging(s: System, id: Id, p: Preparation, issuedAt: Time): System {
    if p.Abandoned? then s.(abandoned := s.abandoned + {id})
    else if !p.Ready? || s.disposed then s.(deleted := s.deleted + {id})
    else Commit(s, id, Capability(p.origin, issuedAt + s.lifetime), issuedAt)
  }

  /** PrepareAsync once it has read the catalog. */
  function EndPrepare(s: System, task: nat, id: Id, issuedAt: Time, sights: Sights): System
    requires task in s.preparing
  {
    var p := Prepare(s.preparing[task].0, s.preparing[task].1, sights);
    if p.NotReady? || p.Threw? then s.(preparing := s.preparing - {task})
    else AfterStaging(s.(preparing := s.preparing - {task}, staged := s.staged + {id}), id, p, issuedAt)
  }

  function Remove(s: System, id: Id, fate: Fate): System {
    s.(table := s.table - {id}, fates := Mark(s.fates, {id}, fate), doomed := s.doomed + {id})
  }

  /** A step that the state does not allow changes nothing. Where the source tests whether it is
      disposed before it takes the lock, the step may be taken or not. New identifiers are random
      and assumed not to repeat. */
  function Do(s: System, step: Step): System {
    match step
    case Register(a) =>
      if a.kind == Unsupported || a.id in s.catalog then s
      else s.(catalog := WithoutPath(s.catalog, a.path)[a.id := a], registered := s.registered + {a})
    case Unregister(artifactId) => s.(catalog := s.catalog - {artifactId})
    case StartPrepare(task, artifactId, allowUntrusted) =>
      if s.disposed || artifactId !in s.catalog || task in s.preparing then s
      else s.(preparing := s.preparing[task := (s.catalog[artifactId], allowUntrusted)])
    case FinishPrepare(task, id, issuedAt, sights) =>
      if task !in s.preparing || id in s.staged then s else EndPrepare(s, task, id, issuedAt, sights)
    case Take(id, now) =>
      var t := Purge(s, now);
      if id !in t.table then t
      else t.(table := t.table - {id}, taken := t.taken[id := t.table[id]], fates := Mark(t.fates, {id}, Taken))
    case Finish(id, now, look, planValid) =>
      if id !in s.taken then s
      else
        var c := s.taken[id];
        if Approves(c, now, look, planValid) then
          s.(taken := s.taken - {id}, fates := Mark(s.fates, {id}, Consumed),
             plans := s.plans + [Plan(id, c.ExpectedSha256(), now, look.inspection)])
        else
          s.(taken := s.taken - {id}, fates := Mark(s.fates, {id}, Rejected), doomed := s.doomed + {id})
    case CompleteCapability(id) =>
      if id in s.table then Remove(s, id, Completed) else s.(doomed := s.doomed + {id})
    case ExpireTimer(id, now) =>
      if !s.disposed && id in s.table && now >= s.table[id].expiresAt then Remove(s, id, Expired) else s
    case DisposeService =>
      if s.disposed then s
      else s.(disposed := true, table := map[], fates := Mark(s.fates, s.table.Keys, Disposed),
              doomed := s.doomed + s.table.Keys)
    case DeleteStaging(id) =>
      if id in s.doomed then s.(doomed := s.doomed - {id}, deleted := s.deleted + {id}) else s
  }

  function Start(lifetime: nat): System {
    System(lifetime, map[], {}, map[], map[], false, map[], map[], map[], {}, {}, {}, {}, [])
  }

  function Continue(s: System, steps: seq<Step>): System {
    if steps == [] then s else Do(Continue(s, steps[..|steps| - 1]), steps[|steps| - 1])
  }

  function Run(lifetime: nat, steps: seq<Step>): System {
    Continue(Start(lifetime), steps)
  }

  // ---------------------------------------------------------------------------
  // The invariants
  // ---------------------------------------------------------------------------

  predicate Gone(fate: Fate) {
    fate == Rejected || fate == Expired || fate == Completed || fate == Disposed
  }

  /** Every issued capability has one fate, and the table and the running consumes are those with
      the fates that say so. */
  ghost predicate FatesOk(issued: Table, table: Table, taken: Table, fates: map<Id, Fate>) {
    && fates.Keys == issued.Keys
    && (forall id :: id in table <==> id in fates && fates[id] == Live)
    && (forall id :: id in taken <==> id in fates && fates[id] == Taken)
    && (forall id :: id in table ==> table[id] == issued[id])
    && (forall id :: id in taken ==> taken[id] == issued[id])
  }

  /** What left the table other than into a successful consume is deleted, or about to be. */
  ghost predicate NothingForgotten(fates: map<Id, Fate>, doomed: set<Id>, deleted: set<Id>) {
    forall id :: id in fates && Gone(fates[id]) ==> id in doomed || id in deleted
  }

  /** A staging directory was made for each capability that was issued; of the others that were made,
      each was tried to be deleted or is one of those left behind. */
  ghost predicate StagingOk(staged: set<Id>, issued: Table, deleted: set<Id>, abandoned: set<Id>) {
    && issued.Keys + abandoned <= staged <= issued.Keys + deleted + abandoned
    && abandoned !! issued.Keys
  }

  /** Every issued capability stems from a registered artifact and has passed the checks. */
  ghost predicate OriginsOk(issued: Table, registered: set<Artifact>) {
    forall id :: id in issued ==> Checked(issued[id].origin) && issued[id].origin.artifact in registered
  }

  ghost predicate CatalogOk(catalog: map<string, Artifact>, preparing: map<nat, (Artifact, bool)>,
                            registered: set<Artifact>) {
    && (forall k :: k in catalog ==> catalog[k] in registered)
    && (forall t :: t in preparing ==> preparing[t].0 in registered)
    && OnePerPath(catalog)
  }

  /** No two catalog entries describe the same file. */
  ghost predicate OnePerPath(catalog: map<string, Artifact>) {
    forall k, l :: k in catalog && l in catalog && k != l ==> !SameIgnoringCase(catalog[k].path, catalog[l].path)
  }

  /** The digest of a returned plan is the one that was registered and the one just seen; and without
      the user's permission the publisher was trusted at the source, in staging and just now. */
  ghost predicate Justified(p: Plan, c: Capability) {
    && p.checkedAt <= c.expiresAt
    && SameIgnoringCase(p.sha256, c.origin.artifact.sha256)
    && SameIgnoringCase(p.sha256, p.seen.sha256)
    && p.seen.kind == c.origin.artifact.kind
    && (!c.origin.allowUntrusted ==>
          c.origin.source.trust == Trusted && c.origin.staged.trust == Trusted && p.seen.trust == Trusted)
  }

  ghost predicate PlanOk(p: Plan, issued: Table, fates: map<Id, Fate>) {
    p.id in issued && p.id in fates && fates[p.id] == Consumed && Justified(p, issued[p.id])
  }

  /** Every returned plan is justified, and no capability gave two. */
  ghost predicate PlansOk(plans: seq<Plan>, issued: Table, fates: map<Id, Fate>) {
    && (forall i :: 0 <= i < |plans| ==> PlanOk(plans[i], issued, fates))
    && (forall i, j :: 0 <= i < j < |plans| ==> plans[i].id != plans[j].id)
  }

  ghost predicate Inv(s: System) {
    && FatesOk(s.issued, s.table, s.taken, s.fates)
    && NothingForgotten(s.fates, s.doomed, s.deleted)
    && StagingOk(s.staged, s.issued, s.deleted, s.abandoned)
    && OriginsOk(s.issued, s.registered)
    && CatalogOk(s.catalog, s.preparing, s.registered)
    && PlansOk(s.plans, s.issued, s.fates)
  }

  // ---------------------------------------------------------------------------
  // What changes of fate keep
  // ---------------------------------------------------------------------------

  lemma FatesLeave(issued: Table, table: Table, taken: Table, fates: map<Id, Fate>, ids: set<Id>, fate: Fate)
    requires FatesOk(issued, table, taken, fates) && ids <= table.Keys && Gone(fate)
    ensures FatesOk(issued, table - ids, taken, Mark(fates, ids, fate))
  {
  }

  lemma FatesTake(issued: Table, table: Table, taken: Table, fates: map<Id, Fate>, id: Id)
    requires FatesOk(issued, table, taken, fates) && id in table
    ensures FatesOk(issued, table - {id}, taken[id := table[id]], Mark(fates, {id}, Taken))
  {
  }

  lemma FatesFinish(issued: Table, table: Table, taken: Table, fates: map<Id, Fate>, id: Id, fate: Fate)
    requires FatesOk(issued, table, taken, fates) && id in taken && (fate == Consumed || fate == Rejected)
    ensures FatesOk(issued, table, taken - {id}, Mark(fates, {id}, fate))
  {
  }

  lemma FatesCommit(issued: Table, table: Table, taken: Table, fates: map<Id, Fate>, id: Id, c: Capability)
    requires FatesOk(issued, table, taken, fates) && id !in issued
    ensures FatesOk(issued[id := c], table[id := c], taken, fates[id := Live])
  {
  }

  lemma PlansMark(plans: seq<Plan>, issued: Table, table: Table, taken: Table, fates: map<Id, Fate>,
                  ids: set<Id>, fate: Fate)
    requires FatesOk(issued, table, taken, fates) && PlansOk(plans, issued, fates) && ids <= table.Keys + taken.Keys
    ensures PlansOk(plans, issued, Mark(fates, ids, fate))
    ensures forall i :: 0 <= i < |plans| ==> plans[i].id !in ids
  {
    hide Justified;
    forall i | 0 <= i < |plans|
      ensures PlanOk(plans[i], issued, Mark(fates, ids, fate)) && plans[i].id !in ids
    {
      assert PlanOk(plans[i], issued, fates);
    }
  }

  lemma PlansCommit(plans: seq<Plan>, issued: Table, fates: map<Id, Fate>, id: Id, c: Capability)
    requires PlansOk(plans, issued, fates) && id !in issued
    ensures PlansOk(plans, issued[id := c], fates[id := Live])
  {
    hide Justified;
    forall i | 0 <= i < |plans| ensures PlanOk(plans[i], issued[id := c], fates[id := Live]) {
      assert PlanOk(plans[i], issued, fates);
    }
  }

  /** An approved consume returns a justified plan. */
  lemma ApprovedIsJustified(id: Id, c: Capability, now: Time, look: Look, planValid: bool)
    requires Checked(c.origin) && Approves(c, now, look, planValid)
    ensures Justified(Plan(id, c.ExpectedSha256(), now, look.inspection), c)
  {
    SameIsTransitive(look.inspection.sha256, c.ExpectedSha256(), c.origin.artifact.sha256);
    SameIsTransitive(look.inspection.sha256, c.ExpectedSha256(), c.ExpectedSha256());
  }

  lemma PlansFinish(plans: seq<Plan>, issued: Table, table: Table, taken: Table, fates: map<Id, Fate>, p: Plan)
    requires FatesOk(issued, table, taken, fates) && PlansOk(plans, issued, fates)
    requires p.id in taken && Justified(p, issued[p.id])
    ensures PlansOk(plans + [p], issued, Mark(fates, {p.id}, Consumed))
  {
    hide Justified;
    PlansMark(plans, issued, table, taken, fates, {p.id}, Consumed);
    assert PlanOk(p, issued, Mark(fates, {p.id}, Consumed));
  }

  lemma MarkForgets(fates: map<Id, Fate>, doomed: set<Id>, deleted: set<Id>, ids: set<Id>, fate: Fate,
                    doomed': set<Id>, deleted': set<Id>)
    requires NothingForgotten(fates, doomed, deleted)
    requires doomed + deleted <= doomed' + deleted' && (Gone(fate) ==> ids <= doomed' + deleted')
    ensures NothingForgotten(Mark(fates, ids, fate), doomed', deleted')
  {
    forall id | id in fates && Gone(Mark(fates, ids, fate)[id]) ensures id in doomed' || id in deleted' {
      if id in ids {
        assert id in doomed' + deleted';
      } else {
        assert id in doomed + deleted;
        assert id in doomed' + deleted';
      }
    }
  }

  lemma MoreDeleted(fates: map<Id, Fate>, doomed: set<Id>, deleted: set<Id>, doomed': set<Id>, deleted': set<Id>)
    requires NothingForgotten(fates, doomed, deleted) && doomed + deleted <= doomed' + deleted'
    ensures NothingForgotten(fates, doomed', deleted')
  {
    forall id | id in fates && Gone(fates[id]) ensures id in doomed' || id in deleted' {
      assert id in doomed + deleted;
      assert id in doomed' + deleted';
    }
  }

  lemma NewForgets(fates: map<Id, Fate>, doomed: set<Id>, deleted: set<Id>, id: Id)
    requires NothingForgotten(fates, doomed, deleted)
    ensures NothingForgotten(fates[id := Live], doomed, deleted)
  {
  }

  lemma NewOrigin(issued: Table, registered: set<Artifact>, id: Id, c: Capability)
    requires OriginsOk(issued, registered) && Checked(c.origin) && c.origin.artifact in registered
    ensures OriginsOk(issued[id := c], registered)
  {
  }

  lemma MoreRegistered(issued: Table, registered: set<Artifact>, a: Artifact)
    requires OriginsOk(issued, registered)
    ensures OriginsOk(issued, registered + {a})
  {
  }

  lemma TakenIsChecked(s: System, id: Id)
    requires Inv(s) && id in s.taken
    ensures id in s.issued && s.taken[id] == s.issued[id] && Checked(s.issued[id].origin)
  {
    hide Checked, NothingForgotten, CatalogOk, PlansOk;
  }

  lemma PreparingIsRegistered(s: System, task: nat)
    requires Inv(s) && task in s.preparing
    ensures s.preparing[task].0 in s.registered
    ensures CatalogOk(s.catalog, s.preparing - {task}, s.registered)
  {
    hide Checked, NothingForgotten, FatesOk, PlansOk, OriginsOk, OnePerPath;
  }

  // ---------------------------------------------------------------------------
  // Every step keeps the invariants
  // ---------------------------------------------------------------------------

  lemma LeaveKeeps(s: System, t: System, ids: set<Id>, fate: Fate)
    requires Inv(s) && ids <= s.table.Keys && Gone(fate)
    requires t.issued == s.issued && t.taken == s.taken && t.registered == s.registered
    requires t.catalog == s.catalog && t.preparing == s.preparing && t.plans == s.plans
    requires t.staged == s.staged && t.abandoned == s.abandoned && s.deleted <= t.deleted
    requires t.table == s.table - ids && t.fates == Mark(s.fates, ids, fate)
    requires s.doomed + s.deleted <= t.doomed + t.deleted && ids <= t.doomed + t.deleted
    ensures Inv(t)
  {
    hide FatesOk, PlansOk, OriginsOk, CatalogOk, NothingForgotten, Mark;
    FatesLeave(s.issued, s.table, s.taken, s.fates, ids, fate);
    PlansMark(s.plans, s.issued, s.table, s.taken, s.fates, ids, fate);
    MarkForgets(s.fates, s.doomed, s.deleted, ids, fate, t.doomed, t.deleted);
  }

  lemma PurgeKeeps(s: System, now: Time)
    requires Inv(s)
    ensures Inv(Purge(s, now))
  {
    hide Inv;
    LeaveKeeps(s, Purge(s, now), Outdated(s.table, now), Expired);
  }

  lemma CommitKeeps(s: System, id: Id, c: Capability, issuedAt: Time)
    requires Inv(s) && id !in s.staged
    requires Checked(c.origin) && c.origin.artifact in s.registered
    ensures Inv(Commit(s.(staged := s.staged + {id}), id, c, issuedAt))
  {
    hide FatesOk, PlansOk, OriginsOk, CatalogOk, NothingForgotten, Mark, Checked;
    PurgeKeeps(s, issuedAt);
    var t := Purge(s, issuedAt);
    FatesCommit(t.issued, t.table, t.taken, t.fates, id, c);
    PlansCommit(t.plans, t.issued, t.fates, id, c);
    NewForgets(t.fates, t.doomed, t.deleted, id);
    NewOrigin(t.issued, t.registered, id, c);
  }

  lemma TakeKeeps(s: System, id: Id, now: Time)
    requires Inv(s)
    ensures Inv(Do(s, Take(id, now)))
  {
    hide FatesOk, PlansOk, OriginsOk, CatalogOk, NothingForgotten, Mark;
    PurgeKeeps(s, now);
    var t := Purge(s, now);
    if id in t.table {
      FatesTake(t.issued, t.table, t.taken, t.fates, id);
      PlansMark(t.plans, t.issued, t.table, t.taken, t.fates, {id}, Taken);
      MarkForgets(t.fates, t.doomed, t.deleted, {id}, Taken, t.doomed, t.deleted);
    }
  }

  lemma FinishKeeps(s: System, id: Id, now: Time, look: Look, planValid: bool)
    requires Inv(s)
    ensures Inv(Do(s, Finish(id, now, look, planValid)))
  {
    hide FatesOk, PlansOk, OriginsOk, CatalogOk, NothingForgotten, Mark, Approves, Checked, Justified;
    if id in s.taken {
      TakenIsChecked(s, id);
      var c := s.taken[id];
      if Approves(c, now, look, planValid) {
        SawSomething(c, now, look, planValid);
        FatesFinish(s.issued, s.table, s.taken, s.fates, id, Consumed);
        ApprovedIsJustified(id, c, now, look, planValid);
        PlansFinish(s.plans, s.issued, s.table, s.taken, s.fates, Plan(id, c.ExpectedSha256(), now, look.inspection));
        MarkForgets(s.fates, s.doomed, s.deleted, {id}, Consumed, s.doomed, s.deleted);
      } else {
        FatesFinish(s.issued, s.table, s.taken, s.fates, id, Rejected);
        PlansMark(s.plans, s.issued, s.table, s.taken, s.fates, {id}, Rejected);
        MarkForgets(s.fates, s.doomed, s.deleted, {id}, Rejected, s.doomed + {id}, s.deleted);
      }
    }
  }

  lemma SawSomething(c: Capability, now: Time, look: Look, planValid: bool)
    requires Approves(c, now, look, planValid)
    ensures look.Saw?
  {
  }

  lemma PrepareKeeps(s: System, task: nat, id: Id, issuedAt: Time, sights: Sights)
    requires Inv(s)
    ensures Inv(Do(s, FinishPrepare(task, id, issuedAt, sights)))
  {
    hide FatesOk, PlansOk, OriginsOk, CatalogOk, NothingForgotten, Prepare, Checked, Commit;
    if task in s.preparing && id !in s.staged {
      PreparingIsRegistered(s, task);
      var (a, allow) := s.preparing[task];
      var t := s.(preparing := s.preparing - {task});
      var p := Prepare(a, allow, sights);
      if p.Ready? && !s.disposed {
        PreparedIsChecked(a, allow, sights);
        CommitKeeps(t, id, Capability(p.origin, issuedAt + s.lifetime), issuedAt);
      } else {
        MoreDeleted(s.fates, s.doomed, s.deleted, s.doomed, s.deleted + {id});
      }
    }
  }

  /** PrepareAsync leaves the staging of a new id behind, neither issued nor tried to be deleted, exactly
      if all checks on the source have passed, the directory was made, and that for logs was not. */
  lemma LeftBehind(s: System, task: nat, id: Id, issuedAt: Time, sights: Sights)
    requires Inv(s) && task in s.preparing && id !in s.staged && id !in s.deleted
    ensures var t := Do(s, FinishPrepare(task, id, issuedAt, sights));
      var p := Prepare(s.preparing[task].0, s.preparing[task].1, sights.(logsMade := true));
      id in t.staged && id !in t.issued && id !in t.deleted
      <==> !p.NotReady? && !p.Threw? && !sights.logsMade
  {
    hide Inv, AfterStaging, Intact, Matches;
    NewIsNotIssued(s, id);
    var p := Prepare(s.preparing[task].0, s.preparing[task].1, sights);
    StagingAfter(s.(preparing := s.preparing - {task}, staged := s.staged + {id}), id, p, issuedAt);
  }

  lemma NewIsNotIssued(s: System, id: Id)
    requires Inv(s) && id !in s.staged
    ensures id !in s.issued && id !in s.table
  {
    hide PlansOk, OriginsOk, CatalogOk, NothingForgotten;
  }

  lemma StagingAfter(s: System, id: Id, p: Preparation, issuedAt: Time)
    requires id in s.staged && id !in s.issued && id !in s.deleted && id !in s.table
    ensures var t := AfterStaging(s, id, p, issuedAt);
      id in t.staged && (p.Abandoned? <==> id !in t.issued && id !in t.deleted)
  {
    hide Mark;
  }

  lemma RegisterKeeps(s: System, a: Artifact)
    requires Inv(s)
    ensures Inv(Do(s, Register(a)))
  {
    hide FatesOk, PlansOk, NothingForgotten, OriginsOk, CatalogOk, WithoutPath;
    if a.kind != Unsupported && a.id !in s.catalog {
      MoreRegistered(s.issued, s.registered, a);
      CatalogRegister(s.catalog, s.preparing, s.registered, a);
    }
  }

  lemma CatalogRegister(catalog: map<string, Artifact>, preparing: map<nat, (Artifact, bool)>,
                        registered: set<Artifact>, a: Artifact)
    requires CatalogOk(catalog, preparing, registered)
    ensures CatalogOk(WithoutPath(catalog, a.path)[a.id := a], preparing, registered + {a})
  {
    var after := WithoutPath(catalog, a.path)[a.id := a];
    forall k, l | k in after && l in after && k != l ensures !SameIgnoringCase(after[k].path, after[l].path) {
      if k == a.id && SameIgnoringCase(a.path, after[l].path) {
        SameIsSymmetric(a.path, after[l].path);
        assert false;
      }
    }
  }

  lemma SameIsSymmetric(a: string, b: string)
    requires SameIgnoringCase(a, b)
    ensures SameIgnoringCase(b, a)
  {
  }

  lemma CatalogShrinks(s: System, step: Step)
    requires Inv(s) && (step.Unregister? || step.StartPrepare?)
    ensures Inv(Do(s, step))
  {
    hide FatesOk, PlansOk, NothingForgotten, OriginsOk;
  }

  lemma CompleteKeeps(s: System, id: Id)
    requires Inv(s)
    ensures Inv(Do(s, CompleteCapability(id)))
  {
    hide Inv, Mark;
    var t := Do(s, CompleteCapability(id));
    if id in s.table {
      LeaveKeeps(s, t, {id}, Completed);
    } else {
      OnlyDeletions(s, t);
    }
  }

  lemma OnlyDeletions(s: System, t: System)
    requires Inv(s) && t.table == s.table && t.fates == s.fates
    requires t.issued == s.issued && t.taken == s.taken && t.registered == s.registered
    requires t.catalog == s.catalog && t.preparing == s.preparing && t.plans == s.plans
    requires t.staged == s.staged && t.abandoned == s.abandoned && s.deleted <= t.deleted
    requires s.doomed + s.deleted <= t.doomed + t.deleted
    ensures Inv(t)
  {
    hide FatesOk, PlansOk, OriginsOk, CatalogOk, NothingForgotten;
    MoreDeleted(s.fates, s.doomed, s.deleted, t.doomed, t.deleted);
  }

  lemma ExpireKeeps(s: System, id: Id, now: Time)
    requires Inv(s)
    ensures Inv(Do(s, ExpireTimer(id, now)))
  {
    hide Inv, Mark;
    if !s.disposed && id in s.table && now >= s.table[id].expiresAt {
      LeaveKeeps(s, Do(s, ExpireTimer(id, now)), {id}, Expired);
    }
  }

  lemma DisposeKeeps(s: System)
    requires Inv(s)
    ensures Inv(Do(s, DisposeService))
  {
    hide Inv, Mark;
    if !s.disposed {
      assert s.table - s.table.Keys == map[];
      LeaveKeeps(s, Do(s, DisposeService), s.table.Keys, Disposed);
    }
  }

  lemma DeleteKeeps(s: System, id: Id)
    requires Inv(s)
    ensures Inv(Do(s, DeleteStaging(id)))
  {
    hide Inv;
    if id in s.doomed {
      MovedIsKept(s.doomed, s.deleted, id);
      OnlyDeletions(s, s.(doomed := s.doomed - {id}, deleted := s.deleted + {id}));
    }
  }

  lemma MovedIsKept(doomed: set<Id>, deleted: set<Id>, id: Id)
    requires id in doomed
    ensures doomed + deleted <= (doomed - {id}) + (deleted + {id})
  {
  }

  lemma StepKeeps(s: System, step: Step)
    requires Inv(s)
    ensures Inv(Do(s, step))
  {
    hide Inv, Do;
    match step
    case Register(a) => RegisterKeeps(s, a);
    case Unregister(_) => CatalogShrinks(s, step);
    case StartPrepare(_, _, _) => CatalogShrinks(s, step);
    case FinishPrepare(task, id, issuedAt, sights) => PrepareKeeps(s, task, id, issuedAt, sights);
    case Take(id, now) => TakeKeeps(s, id, now);
    case Finish(id, now, look, planValid) => FinishKeeps(s, id, now, look, planValid);
    case CompleteCapability(id) => CompleteKeeps(s, id);
    case ExpireTimer(id, now) => ExpireKeeps(s, id, now);
    case DisposeService => DisposeKeeps(s);
    case DeleteStaging(id) => DeleteKeeps(s, id);
  }

  // ---------------------------------------------------------------------------
  // Every run
  // ---------------------------------------------------------------------------

  lemma {:induction false} ContinueKeeps(s: System, steps: seq<Step>)
    requires Inv(s)
    ensures Inv(Continue(s, steps))
  {
    hide Inv, Do;
    if steps != [] {
      ContinueKeeps(s, steps[..|steps| - 1]);
      StepKeeps(Continue(s, steps[..|steps| - 1]), steps[|steps| - 1]);
    }
  }

  lemma RunKeeps(lifetime: nat, steps: seq<Step>)
    ensures Inv(Run(lifetime, steps))
  {
    ContinueKeeps(Start(lifetime), steps);
  }

  /** In every run: an issued capability is live, taken, consumed or gone, and at most one consume of
      it returns a plan; and the staging directory of each that left the table, other than by a
      consume that succeeded or still runs, was tried to be deleted or is about to be. Of all staging
      directories ever made the others are those left behind, and nobody has named them since. */
  lemma OneShot(lifetime: nat, steps: seq<Step>)
    ensures var s := Run(lifetime, steps);
      && s.fates.Keys == s.issued.Keys
      && s.table.Keys == (set id | id in s.fates && s.fates[id] == Live)
      && (forall i, j :: 0 <= i < j < |s.plans| ==> s.plans[i].id != s.plans[j].id)
      && (forall i :: 0 <= i < |s.plans| ==>
            && s.plans[i].id in s.issued && s.fates[s.plans[i].id] == Consumed
            && s.plans[i].checkedAt <= s.issued[s.plans[i].id].expiresAt)
      && (forall id :: id in s.issued ==>
            id in s.table || id in s.taken || s.fates[id] == Consumed || id in s.doomed || id in s.deleted)
      && (forall id :: id in s.staged && id !in s.doomed && id !in s.deleted ==>
            (id in s.abandoned <==> !(id in s.issued && (id in s.table || id in s.taken || s.fates[id] == Consumed))))
  {
    RunKeeps(lifetime, steps);
    var s := Run(lifetime, steps);
    hide Run;
    forall i | 0 <= i < |s.plans| ensures PlanOk(s.plans[i], s.issued, s.fates) {}
  }

  /** In every run: a returned plan carries the digest of a registered artifact, which is also what
      was just seen; and its publisher was trusted at every look unless the user allowed otherwise. */
  lemma PlansAreJustified(lifetime: nat, steps: seq<Step>, p: Plan)
    requires p in Run(lifetime, steps).plans
    ensures var s := Run(lifetime, steps);
      && p.id in s.issued && Justified(p, s.issued[p.id])
      && s.issued[p.id].origin.artifact in s.registered
  {
    RunKeeps(lifetime, steps);
    var s := Run(lifetime, steps);
    hide Run, Justified;
    var i :| 0 <= i < |s.plans| && s.plans[i] == p;
    assert PlanOk(s.plans[i], s.issued, s.fates);
  }

  /** A fate that is final stays. */
  lemma FinalFatesStay(s: System, step: Step, id: Id)
    requires Inv(s) && id in s.fates && s.fates[id] != Live && s.fates[id] != Taken
    ensures id in Do(s, step).fates && Do(s, step).fates[id] == s.fates[id]
  {
    hide Inv, Do;
    FinalIsNotHeld(s, id);
    match step {
      case Take(taken, now) => TakeStays(s, taken, now, id);
      case FinishPrepare(_, _, _, _) => PrepareStays(s, step, id);
      case _ => OtherStays(s, step, id);
    }
  }

  lemma TakeStays(s: System, taken: Id, now: Time, id: Id)
    requires id in s.fates && id !in s.table
    ensures var t := Do(s, Take(taken, now)); id in t.fates && t.fates[id] == s.fates[id]
  {
    hide Purge;
    PurgeStays(s, now, id);
  }

  lemma PrepareStays(s: System, step: Step, id: Id)
    requires step.FinishPrepare? && id in s.fates && id in s.staged && id !in s.table
    ensures id in Do(s, step).fates && Do(s, step).fates[id] == s.fates[id]
  {
    hide AfterStaging, Prepare;
    if step.task in s.preparing && step.id != id {
      var p := Prepare(s.preparing[step.task].0, s.preparing[step.task].1, step.sights);
      var u := s.(preparing := s.preparing - {step.task}, staged := s.staged + {step.id});
      AfterStagingStays(u, step.id, p, step.issuedAt, id);
    }
  }

  lemma AfterStagingStays(s: System, staged: Id, p: Preparation, issuedAt: Time, id: Id)
    requires id in s.fates && id !in s.table && id != staged
    ensures var t := AfterStaging(s, staged, p, issuedAt); id in t.fates && t.fates[id] == s.fates[id]
  {
    hide Purge;
    PurgeStays(s, issuedAt, id);
  }

  lemma OtherStays(s: System, step: Step, id: Id)
    requires !step.Take? && !step.FinishPrepare?
    requires id in s.fates && id !in s.table && id !in s.taken
    ensures id in Do(s, step).fates && Do(s, step).fates[id] == s.fates[id]
  {
    hide Approves, WithoutPath, Prepare, Commit, Purge, Mark;
    match step {
      case Finish(other, _, _, _) =>
        if other in s.taken {
          MarkElsewhere(s.fates, {other}, Consumed, id);
          MarkElsewhere(s.fates, {other}, Rejected, id);
        }
      case CompleteCapability(other) => if other in s.table { MarkElsewhere(s.fates, {other}, Completed, id); }
      case ExpireTimer(other, _) => if other in s.table { MarkElsewhere(s.fates, {other}, Expired, id); }
      case DisposeService => MarkElsewhere(s.fates, s.table.Keys, Disposed, id);
      case _ =>
    }
  }

  lemma MarkElsewhere(fates: map<Id, Fate>, ids: set<Id>, fate: Fate, id: Id)
    requires id in fates && id !in ids
    ensures id in Mark(fates, ids, fate) && Mark(fates, ids, fate)[id] == fates[id]
  {
  }

  lemma PurgeStays(s: System, now: Time, id: Id)
    requires id in s.fates && id !in s.table
    ensures var t := Purge(s, now); id in t.fates && t.fates[id] == s.fates[id] && id !in t.table
  {
  }

  lemma FinalIsNotHeld(s: System, id: Id)
    requires Inv(s) && id in s.fates && s.fates[id] != Live && s.fates[id] != Taken
    ensures id in s.staged && id !in s.table && id !in s.taken
  {
    hide PlansOk, OriginsOk, CatalogOk, NothingForgotten;
  }

  lemma OnlyConsumeGivesPlans(s: System, step: Step)
    requires !step.Finish?
    ensures Do(s, step).plans == s.plans
  {
    hide EndPrepare, WithoutPath, Purge, Mark;
    match step {
      case Take(_, now) => PurgePlans(s, now);
      case FinishPrepare(task, id, issuedAt, sights) =>
        if task in s.preparing { EndPreparePlans(s, task, id, issuedAt, sights); }
      case _ =>
    }
  }

  lemma EndPreparePlans(s: System, task: nat, id: Id, issuedAt: Time, sights: Sights)
    requires task in s.preparing
    ensures EndPrepare(s, task, id, issuedAt, sights).plans == s.plans
    ensures EndPrepare(s, task, id, issuedAt, sights).lifetime == s.lifetime
    ensures EndPrepare(s, task, id, issuedAt, sights).registered == s.registered
  {
    hide Prepare, AfterStaging;
    var p := Prepare(s.preparing[task].0, s.preparing[task].1, sights);
    AfterStagingPlans(s.(preparing := s.preparing - {task}, staged := s.staged + {id}), id, p, issuedAt);
  }

  lemma AfterStagingPlans(s: System, id: Id, p: Preparation, issuedAt: Time)
    ensures AfterStaging(s, id, p, issuedAt).plans == s.plans
    ensures AfterStaging(s, id, p, issuedAt).lifetime == s.lifetime
    ensures AfterStaging(s, id, p, issuedAt).registered == s.registered
  {
    hide Purge;
    PurgePlans(s, issuedAt);
  }

  lemma PurgePlans(s: System, now: Time)
    ensures Purge(s, now).plans == s.plans && Purge(s, now).lifetime == s.lifetime
    ensures Purge(s, now).registered == s.registered
  {
  }

  lemma NoPlanAfterEnd(s: System, step: Step, id: Id)
    requires Inv(s) && id in s.fates && s.fates[id] != Live && s.fates[id] != Taken
    ensures forall p :: p in Do(s, step).plans && p.id == id ==> p in s.plans
  {
    hide Inv, Do;
    FinalIsNotHeld(s, id);
    match step {
      case Finish(taken, now, look, planValid) => FinishGivesOwnPlan(s, taken, now, look, planValid);
      case _ => OnlyConsumeGivesPlans(s, step);
    }
  }

  lemma FinishGivesOwnPlan(s: System, id: Id, now: Time, look: Look, planValid: bool)
    ensures forall p :: p in Do(s, Finish(id, now, look, planValid)).plans ==>
      p in s.plans || (id in s.taken && p.id == id)
  {
    hide Mark;
  }

  /** Whatever happens after a capability was consumed, rejected, expired, completed or disposed: that
      stays its fate, and no further plan is returned for it. */
  lemma {:induction false} EndIsFinal(s: System, more: seq<Step>, id: Id)
    requires Inv(s) && id in s.fates && s.fates[id] != Live && s.fates[id] != Taken
    ensures var t := Continue(s, more);
      && id in t.fates && t.fates[id] == s.fates[id]
      && forall p :: p in t.plans && p.id == id ==> p in s.plans
  {
    hide Do, Inv;
    if more != [] {
      var n := |more| - 1;
      EndIsFinal(s, more[..n], id);
      ContinueKeeps(s, more[..n]);
      FinalFatesStay(Continue(s, more[..n]), more[n], id);
      NoPlanAfterEnd(Continue(s, more[..n]), more[n], id);
    }
  }

  /** No plan was returned for this capability and none ever will be. */
  ghost predicate NeverPlanned(s: System, id: Id) {
    forall more, p :: p in Continue(s, more).plans ==> p.id != id
  }

  /** A capability that is gone never gives a plan, whatever the tasks still do. */
  lemma GoneForGood(s: System, id: Id)
    requires Inv(s) && id in s.fates && Gone(s.fates[id])
    ensures NeverPlanned(s, id)
  {
    hide Inv, Continue;
    forall more, p | p in Continue(s, more).plans ensures p.id != id {
      EndIsFinal(s, more, id);
      if p.id == id {
        PlannedIsConsumed(s, p);
      }
    }
  }

  lemma PlannedIsConsumed(s: System, p: Plan)
    requires Inv(s) && p in s.plans
    ensures p.id in s.fates && s.fates[p.id] == Consumed
  {
    hide Justified, FatesOk, NothingForgotten, OriginsOk, CatalogOk;
    var i :| 0 <= i < |s.plans| && s.plans[i] == p;
    assert PlanOk(s.plans[i], s.issued, s.fates);
  }

  lemma RunSnoc(lifetime: nat, steps: seq<Step>, step: Step)
    ensures Run(lifetime, steps + [step]) == Do(Run(lifetime, steps), step)
  {
    assert (steps + [step])[..|steps|] == steps;
  }

  /** Nothing but supported installers is ever registered. */
  lemma {:induction false} RegisteredIsSupported(lifetime: nat, steps: seq<Step>, a: Artifact)
    requires a in Run(lifetime, steps).registered
    ensures a.kind != Unsupported
  {
    if steps != [] {
      var s, step := Run(lifetime, steps[..|steps| - 1]), steps[|steps| - 1];
      RegisteredGrows(s, step);
      if a in s.registered {
        RegisteredIsSupported(lifetime, steps[..|steps| - 1], a);
      }
    }
  }

  lemma RegisteredGrows(s: System, step: Step)
    ensures forall a :: a in Do(s, step).registered && a !in s.registered ==>
      step.Register? && a == step.artifact && a.kind != Unsupported
  {
    hide EndPrepare, WithoutPath, Purge, Mark, Approves;
    match step {
      case Take(_, now) => PurgePlans(s, now);
      case FinishPrepare(task, id, issuedAt, sights) =>
        if task in s.preparing { EndPreparePlans(s, task, id, issuedAt, sights); }
      case _ =>
    }
  }

  /** After disposal no capability is issued or live any more, and no new preparation begins. */
  lemma {:induction false} DisposedForGood(s: System, more: seq<Step>)
    requires s.disposed && s.table == map[]
    ensures var t := Continue(s, more);
      t.disposed && t.table == map[] && t.issued == s.issued && t.preparing.Keys <= s.preparing.Keys
  {
    if more != [] {
      var n := |more| - 1;
      DisposedForGood(s, more[..n]);
      DisposedStep(Continue(s, more[..n]), more[n]);
    }
  }

  lemma DisposedStep(s: System, step: Step)
    requires s.disposed && s.table == map[]
    ensures var t := Do(s, step);
      t.disposed && t.table == map[] && t.issued == s.issued && t.preparing.Keys <= s.preparing.Keys
  {
    hide EndPrepare, WithoutPath, Purge, Mark, Approves;
    match step {
      case Take(_, now) => PurgeOfNone(s, now);
      case FinishPrepare(task, id, issuedAt, sights) =>
        if task in s.preparing { DisposedPrepare(s, task, id, issuedAt, sights); }
      case _ =>
    }
  }

  lemma PurgeOfNone(s: System, now: Time)
    requires s.table == map[]
    ensures var t := Purge(s, now);
      t.table == map[] && t.disposed == s.disposed && t.issued == s.issued && t.preparing == s.preparing
  {
  }

  lemma DisposedPrepare(s: System, task: nat, id: Id, issuedAt: Time, sights: Sights)
    requires s.disposed && s.table == map[] && task in s.preparing
    ensures var t := EndPrepare(s, task, id, issuedAt, sights);
      t.disposed && t.table == map[] && t.issued == s.issued && t.preparing == s.preparing - {task}
  {
    hide Prepare, Commit;
  }

  // ---------------------------------------------------------------------------
  // A plan is returned when it should be
  // ---------------------------------------------------------------------------

  /** Every look of PrepareAsync shows the artifact, the user allows it or it is trusted, and nothing
      fails on the way. */
  predicate GoodSights(a: Artifact, allowUntrusted: bool, s: Sights) {
    && s.exists_ && s.stagingMade && s.logsMade && s.planBuilds
    && s.integrity.Some? && s.integrity.value.0 == a.size && Lower(s.integrity.value.1) == Lower(a.sha256)
    && (a.kind == WindowsExecutable || a.kind == WindowsInstallerPackage)
    && s.source.Saw? && Shows(s.source.inspection, a) && s.staged.Saw? && Shows(s.staged.inspection, a)
    && (allowUntrusted || s.source.inspection.trust == Trusted)
    && (s.source.inspection.trust == Trusted ==> s.staged.inspection.trust == Trusted)
  }

  lemma RegisteredIsPrepared(s: System, a: Artifact, task: nat, allowUntrusted: bool)
    requires !s.disposed && a.kind != Unsupported && a.id !in s.catalog && task !in s.preparing
    ensures var t := Do(Do(s, Register(a)), StartPrepare(task, a.id, allowUntrusted));
      && task in t.preparing && t.preparing[task] == (a, allowUntrusted)
      && !t.disposed && t.lifetime == s.lifetime && t.plans == s.plans && t.staged == s.staged && t.taken == s.taken
  {
    hide WithoutPath;
  }

  lemma PreparedIsIssued(s: System, task: nat, id: Id, issuedAt: Time, sights: Sights)
    requires task in s.preparing && GoodSights(s.preparing[task].0, s.preparing[task].1, sights)
    requires !s.disposed && id !in s.staged
    ensures var t := Do(s, FinishPrepare(task, id, issuedAt, sights));
      var (a, allowUntrusted) := s.preparing[task];
      && id in t.table
      && t.table[id] == Capability(Origin(a, allowUntrusted, sights.source.inspection, sights.staged.inspection),
                                   issuedAt + s.lifetime)
      && t.plans == s.plans && t.taken == s.taken
  {
    hide Prepare, Shows, Mark, Lower;
    ReadyExactly(s.preparing[task].0, s.preparing[task].1, sights);
  }

  lemma TakenIfInTime(s: System, id: Id, now: Time)
    requires id in s.table && id !in s.taken
    ensures var t := Do(s, Take(id, now));
      && t.plans == s.plans
      && (id in t.taken <==> now <= s.table[id].expiresAt)
      && (id in t.taken ==> t.taken[id] == s.table[id])
  {
    hide Mark;
  }

  lemma FinishedIfSame(s: System, id: Id, now: Time, look: Look, planValid: bool)
    ensures Do(s, Finish(id, now, look, planValid)).plans == s.plans +
      if id in s.taken && now <= s.taken[id].expiresAt && planValid && look.Saw?
         && Lower(look.inspection.sha256) == Lower(s.taken[id].origin.staged.sha256)
         && look.inspection.kind == s.taken[id].origin.staged.kind
         && (s.taken[id].origin.source.trust == Trusted ==> look.inspection.trust == Trusted)
      then [Plan(id, s.taken[id].origin.staged.sha256, now, look.inspection)] else []
  {
    hide Mark, Lower, Approves, EndPrepare, Purge, WithoutPath;
    if id in s.taken {
      ApprovesExactly(s.taken[id], now, look, planValid);
    }
  }

  lemma ApprovesExactly(c: Capability, now: Time, look: Look, planValid: bool)
    ensures Approves(c, now, look, planValid) <==>
      && now <= c.expiresAt && planValid && look.Saw?
      && Lower(look.inspection.sha256) == Lower(c.origin.staged.sha256)
      && look.inspection.kind == c.origin.staged.kind
      && (c.origin.source.trust == Trusted ==> look.inspection.trust == Trusted)
  {
    hide Lower;
  }

  /** From any state that a run reaches: an artifact that is registered, prepared as it should be, and
      consumed gives exactly one plan, with the registered digest, if and only if it is taken and
      checked before its lifetime is over, the look at it still shows the registered digest and kind,
      its publisher is trusted if it was at the source, and the plan is valid. */
  lemma ConsumeReturnsPlan(lifetime: nat, steps: seq<Step>, a: Artifact, task: nat, allowUntrusted: bool, id: Id,
                           issuedAt: Time, sights: Sights, takenAt: Time, now: Time, look: Look, planValid: bool)
    requires var s := Run(lifetime, steps);
      !s.disposed && a.id !in s.catalog && task !in s.preparing && id !in s.staged
    requires GoodSights(a, allowUntrusted, sights)
    ensures var s := Run(lifetime, steps);
      var t := Run(lifetime, steps + [Register(a)] + [StartPrepare(task, a.id, allowUntrusted)]
                             + [FinishPrepare(task, id, issuedAt, sights)] + [Take(id, takenAt)]
                             + [Finish(id, now, look, planValid)]);
      if takenAt <= issuedAt + lifetime && now <= issuedAt + lifetime && planValid
         && look.Saw? && Lower(look.inspection.sha256) == Lower(a.sha256) && look.inspection.kind == a.kind
         && (sights.source.inspection.trust == Trusted ==> look.inspection.trust == Trusted)
      then
        && |t.plans| == |s.plans| + 1 && t.plans[..|s.plans|] == s.plans
        && var plan := t.plans[|s.plans|];
           plan.id == id && Lower(plan.sha256) == Lower(a.sha256) && plan.seen == look.inspection
      else t.plans == s.plans
  {
    hide Run, Do, Inv, Lower;
    var s0 := steps + [Register(a)];
    var s1 := s0 + [StartPrepare(task, a.id, allowUntrusted)];
    var s2 := s1 + [FinishPrepare(task, id, issuedAt, sights)];
    var s3 := s2 + [Take(id, takenAt)];
    RunSnoc(lifetime, steps, Register(a));
    RunSnoc(lifetime, s0, StartPrepare(task, a.id, allowUntrusted));
    RunSnoc(lifetime, s1, FinishPrepare(task, id, issuedAt, sights));
    RunSnoc(lifetime, s2, Take(id, takenAt));
    RunSnoc(lifetime, s3, Finish(id, now, look, planValid));
    RunKeeps(lifetime, steps);
    LifetimeStays(lifetime, steps);
    NewIsNotTaken(Run(lifetime, steps), id);
    RegisteredIsPrepared(Run(lifetime, steps), a, task, allowUntrusted);
    PreparedIsIssued(Run(lifetime, s1), task, id, issuedAt, sights);
    TakenIfInTime(Run(lifetime, s2), id, takenAt);
    FinishedIfSame(Run(lifetime, s3), id, now, look, planValid);
  }

  lemma NewIsNotTaken(s: System, id: Id)
    requires Inv(s) && id !in s.staged
    ensures id !in s.taken
  {
    hide PlansOk, OriginsOk, CatalogOk, NothingForgotten;
  }

  lemma {:induction false} LifetimeStays(lifetime: nat, steps: seq<Step>)
    ensures Run(lifetime, steps).lifetime == lifetime
  {
    if steps != [] {
      LifetimeStays(lifetime, steps[..|steps| - 1]);
      SameLifetime(Run(lifetime, steps[..|steps| - 1]), steps[|steps| - 1]);
    }
  }

  lemma SameLifetime(s: System, step: Step)
    ensures Do(s, step).lifetime == s.lifetime
  {
    hide EndPrepare, WithoutPath, Purge, Mark, Approves;
    match step {
      case Take(_, now) => PurgePlans(s, now);
      case FinishPrepare(task, id, issuedAt, sights) =>
        if task in s.preparing { EndPreparePlans(s, task, id, issuedAt, sights); }
      case _ =>
    }
  }
}
