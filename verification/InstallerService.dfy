/** The objects behind InstallerRuns: the catalog and the capability service with the fields that
    they update under their locks. Each method carries out one step of a run on these fields and is
    proved to reach the state that the step leads to, so every theorem about runs is one about
    these objects. */
module InstallerService {
  import opened Common
  import opened Installer
  import opened InstallerRuns

  /** The mutable part of InstallerCatalog. */
  class Catalog {
    var artifacts: map<string, Artifact>

    constructor ()
      ensures artifacts == map[]
    {
      artifacts := map[];
    }

    /** The locked section of RegisterManagedDownloadAsync: older entries for the same file go. */
    method Add(a: Artifact)
      requires a.id !in artifacts
      modifies this
      ensures artifacts == WithoutPath(old(artifacts), a.path)[a.id := a]
      // the records of other files stay as they are
      ensures forall k :: k in old(artifacts) ==>
        (k in artifacts <==> Lower(old(artifacts)[k].path) != Lower(a.path))
        && (k in artifacts ==> artifacts[k] == old(artifacts)[k])
    {
      var stale := set k | k in artifacts && SameIgnoringCase(artifacts[k].path, a.path);
      ghost var removed: set<string> := {};
      ghost var all := stale;
      while stale != {}
        invariant stale + removed == all && stale !! removed
        invariant artifacts == old(artifacts) - removed
        decreases stale
      {
        var k :| k in stale;
        artifacts := artifacts - {k};
        stale, removed := stale - {k}, removed + {k};
      }
      artifacts := artifacts[a.id := a];
    }

    method Remove(id: string)
      modifies this
      ensures artifacts == old(artifacts) - {id}
    {
      artifacts := artifacts - {id};
    }

    method GetRequired(id: string) returns (a: Option<Artifact>)
      ensures a == if id in artifacts then Some(artifacts[id]) else None
    {
      if id !in artifacts { return None; }
      a := Some(artifacts[id]);
    }
  }

  /** The mutable part of InstallerCapabilityService. The last five fields are what the source keeps
      in the local variables of its tasks, and in the file system: the records that running calls of
      PrepareAsync have read, the capabilities that running calls of ConsumeAsync have taken, the
      staging directories that were made, those that some task is about to delete, and those it has
      tried to. */
  class CapabilityService {
    const catalog: Catalog
    const lifetime: nat
    var capabilities: Table
    var disposed: bool
    var preparing: map<nat, (Artifact, bool)>
    var taken: Table
    var staging: set<Id>
    var outstanding: set<Id>
    var deletions: set<Id>

    constructor (catalog: Catalog, lifetime: nat)
      requires catalog.artifacts == map[]
      ensures this.catalog == catalog && this.lifetime == lifetime
      ensures Represents(Start(lifetime))
    {
      this.catalog, this.lifetime := catalog, lifetime;
      capabilities, disposed, preparing := map[], false, map[];
      taken, staging, outstanding, deletions := map[], {}, {}, {};
    }

    /** The objects are in the state `s` of a run. */
    ghost predicate Represents(s: System)
      reads this, catalog
    {
      && catalog.artifacts == s.catalog && lifetime == s.lifetime
      && capabilities == s.table && disposed == s.disposed
      && preparing == s.preparing && taken == s.taken
      && staging == s.staged && outstanding == s.doomed && deletions == s.deleted
    }

    method PurgeExpiredLocked(now: Time, ghost s: System)
      requires Represents(s)
      modifies this`capabilities, this`deletions
      ensures Represents(Purge(s, now))
      ensures forall id :: id in s.table ==> (id in capabilities <==> now <= s.table[id].expiresAt)
    {
      var pending := Outdated(capabilities, now);
      ghost var removed: set<Id> := {};
      while pending != {}
        invariant pending + removed == Outdated(old(capabilities), now) && pending !! removed
        invariant capabilities == old(capabilities) - removed
        invariant deletions == old(deletions) + removed
        decreases pending
      {
        var id :| id in pending;
        capabilities := capabilities - {id};
        deletions := deletions + {id};
        pending, removed := pending - {id}, removed + {id};
      }
    }

    /** RegisterManagedDownloadAsync on the service's catalog; the new id is random. */
    method Register(a: Artifact, ghost s: System)
      requires Represents(s) && a.id !in catalog.artifacts
      modifies catalog
      ensures Represents(Do(s, Step.Register(a)))
    {
      hide WithoutPath;
      if a.kind == Unsupported { return; }
      catalog.Add(a);
    }

    method Unregister(artifactId: string, ghost s: System)
      requires Represents(s)
      modifies catalog
      ensures Represents(Do(s, Step.Unregister(artifactId)))
    {
      catalog.Remove(artifactId);
    }

    /** PrepareAsync up to the point where it has read the catalog. */
    method StartPrepare(task: nat, artifactId: string, allowUntrusted: bool, ghost s: System)
      requires Represents(s) && Inv(s) && task !in preparing
      modifies this`preparing
      ensures Represents(Do(s, Step.StartPrepare(task, artifactId, allowUntrusted)))
    {
      if disposed { return; }
      var a := catalog.GetRequired(artifactId);
      if a.None? { return; }
      preparing := preparing[task := (a.value, allowUntrusted)];
    }

    /** The locked section of PrepareAsync. */
    method Commit(id: Id, c: Capability, issuedAt: Time, ghost s: System)
      requires Represents(s)
      modifies this`capabilities, this`deletions
      ensures Represents(InstallerRuns.Commit(s, id, c, issuedAt))
      ensures id in capabilities && capabilities[id] == c
    {
      PurgeExpiredLocked(issuedAt, s);
      capabilities := capabilities[id := c];
    }

    /** The rest of PrepareAsync: a capability that it hands out comes from a registered artifact, has
        passed every check, and is live. What becomes of the staging says `LeftBehind`. */
    method FinishPrepare(task: nat, id: Id, issuedAt: Time, sights: Sights, ghost s: System)
      returns (issued: Option<Capability>)
      requires Represents(s) && Inv(s) && task in preparing && id !in s.staged
      modifies this`preparing, this`capabilities, this`staging, this`deletions
      ensures Represents(Do(s, Step.FinishPrepare(task, id, issuedAt, sights)))
      ensures issued.Some? ==>
        && id in capabilities && capabilities[id] == issued.value
        && Checked(issued.value.origin) && issued.value.origin.artifact in s.registered
    {
      hide Do, Prepare, Checked, Inv, AfterStaging;
      DoPrepare(s, task, id, issuedAt, sights);
      var (a, allowUntrusted) := preparing[task];
      var p := Prepare(a, allowUntrusted, sights);
      if p.Ready? {
        PreparedIsChecked(a, allowUntrusted, sights);
        PreparingIsRegistered(s, task);
      }
      preparing := preparing - {task};
      if p.NotReady? || p.Threw? { return None; }
      staging := staging + {id};
      issued := FinishStaged(id, p, issuedAt, s.(preparing := s.preparing - {task}, staged := s.staged + {id}));
    }

    /** PrepareAsync once it has made the staging directory. */
    method FinishStaged(id: Id, p: Preparation, issuedAt: Time, ghost s: System) returns (issued: Option<Capability>)
      requires Represents(s) && !p.NotReady? && !p.Threw?
      modifies this`capabilities, this`deletions
      ensures Represents(AfterStaging(s, id, p, issuedAt))
      ensures issued.Some? ==>
        && p.Ready? && issued.value.origin == p.origin && id in capabilities && capabilities[id] == issued.value
    {
      hide InstallerRuns.Commit;
      if p.Abandoned? { return None; }
      if p.Discarded? || disposed {
        deletions := deletions + {id};
        return None;
      }
      var c := Capability(p.origin, issuedAt + lifetime);
      Commit(id, c, issuedAt, s);
      issued := Some(c);
    }

    /** The locked section of ConsumeAsync: it takes a capability exactly if it is live and due. */
    method TakeForConsume(id: Id, now: Time, ghost s: System) returns (ok: bool)
      requires Represents(s)
      modifies this`capabilities, this`deletions, this`taken
      ensures Represents(Do(s, Take(id, now)))
      ensures ok <==> id in s.table && now <= s.table[id].expiresAt
    {
      PurgeExpiredLocked(now, s);
      if id !in capabilities { return false; }
      taken := taken[id := capabilities[id]];
      capabilities := capabilities - {id};
      ok := true;
    }

    /** The rest of ConsumeAsync: a plan that is justified by what was registered and by what was
        just seen, the first one for this capability; or an exception after which the staging
        directory is deleted. */
    method FinishConsume(id: Id, now: Time, look: Look, planValid: bool, ghost s: System)
      returns (plan: Option<Plan>)
      requires Represents(s) && Inv(s) && id in taken
      modifies this`taken, this`outstanding
      ensures Represents(Do(s, Finish(id, now, look, planValid)))
      ensures Do(s, Finish(id, now, look, planValid)).plans == s.plans + if plan.Some? then [plan.value] else []
      ensures plan.Some? ==>
        && plan.value.id == id && id in s.issued && Justified(plan.value, s.issued[id])
        && s.issued[id].origin.artifact in s.registered
        && forall p :: p in s.plans ==> p.id != id
      ensures plan.None? ==> id in outstanding
    {
      hide Checked, Justified, Inv, Mark, WithoutPath, Prepare, InstallerRuns.Commit, Purge;
      TakenHasNoPlan(s, id);
      var c := taken[id];
      taken := taken - {id};
      if now > c.expiresAt
        || !look.Saw?
        || !SameIgnoringCase(look.inspection.sha256, c.ExpectedSha256())
        || look.inspection.kind != c.origin.staged.kind
        || (c.RequiresTrust() && look.inspection.trust != Trusted)
        || !planValid
      {
        outstanding := outstanding + {id};
        return None;
      }
      ApprovedIsJustified(id, c, now, look, planValid);
      plan := Some(Plan(id, c.ExpectedSha256(), now, look.inspection));
    }

    /** A live capability is gone for good: no task will ever get a plan for it. */
    method Complete(id: Id, ghost s: System)
      requires Represents(s) && Inv(s)
      modifies this`capabilities, this`outstanding
      ensures Represents(Do(s, CompleteCapability(id)))
      ensures id in s.table ==> NeverPlanned(Do(s, CompleteCapability(id)), id)
      ensures id !in capabilities && id in outstanding
    {
      hide Mark, Inv, NeverPlanned;
      RemovedForGood(s, CompleteCapability(id), id);
      if id !in capabilities {
        assert capabilities - {id} == capabilities;
      }
      capabilities := capabilities - {id};
      outstanding := outstanding + {id};
    }

    /** ExpireCapabilityAsync when its delay is over: a capability that is due is gone for good. */
    method Expire(id: Id, now: Time, ghost s: System)
      requires Represents(s) && Inv(s)
      modifies this`capabilities, this`outstanding
      ensures Represents(Do(s, ExpireTimer(id, now)))
      ensures id in s.table ==> (id !in capabilities <==> !s.disposed && now >= s.table[id].expiresAt)
      ensures id in s.table && id !in capabilities ==>
        NeverPlanned(Do(s, ExpireTimer(id, now)), id) && id in outstanding
    {
      hide Mark, Inv, NeverPlanned;
      RemovedForGood(s, ExpireTimer(id, now), id);
      if disposed { return; }
      if id in capabilities && now >= capabilities[id].expiresAt {
        capabilities := capabilities - {id};
        outstanding := outstanding + {id};
      }
    }

    /** Every capability that was still live is gone for good. */
    method Dispose(ghost s: System)
      requires Represents(s) && Inv(s)
      modifies this`capabilities, this`disposed, this`outstanding
      ensures Represents(Do(s, DisposeService)) && disposed
      ensures !s.disposed ==> capabilities == map[]
      ensures !s.disposed ==>
        forall id :: id in s.table ==> NeverPlanned(Do(s, DisposeService), id) && id in outstanding
    {
      hide Mark, Inv, NeverPlanned;
      forall id | id in s.table && !s.disposed ensures NeverPlanned(Do(s, DisposeService), id) {
        RemovedForGood(s, DisposeService, id);
      }
      if disposed { return; }
      disposed := true;
      var states := capabilities.Keys;
      capabilities := map[];
      outstanding := outstanding + states;
    }

    method TryDeleteDirectory(id: Id, ghost s: System)
      requires Represents(s) && id in outstanding
      modifies this`outstanding, this`deletions
      ensures Represents(Do(s, DeleteStaging(id)))
    {
      outstanding := outstanding - {id};
      deletions := deletions + {id};
    }
  }

  lemma DoPrepare(s: System, task: nat, id: Id, issuedAt: Time, sights: Sights)
    requires task in s.preparing && id !in s.staged
    ensures Do(s, Step.FinishPrepare(task, id, issuedAt, sights)) == EndPrepare(s, task, id, issuedAt, sights)
  {
    hide EndPrepare;
  }

  /** What these steps remove from the table never gives a plan. */
  lemma RemovedForGood(s: System, step: Step, id: Id)
    requires Inv(s) && (step.CompleteCapability? || step.ExpireTimer? || step.DisposeService?)
    ensures id in s.table && id !in Do(s, step).table ==> NeverPlanned(Do(s, step), id)
  {
    hide Inv, NeverPlanned;
    StepKeeps(s, step);
    if id in s.table && id !in Do(s, step).table {
      LiveHasFate(s, id);
      GoneForGood(Do(s, step), id);
    }
  }

  lemma LiveHasFate(s: System, id: Id)
    requires Inv(s) && id in s.table
    ensures id in s.fates
  {
    hide NothingForgotten, OriginsOk, CatalogOk, PlansOk;
  }

  lemma TakenHasNoPlan(s: System, id: Id)
    requires Inv(s) && id in s.taken
    ensures id in s.issued && s.taken[id] == s.issued[id]
    ensures Checked(s.issued[id].origin) && s.issued[id].origin.artifact in s.registered
    ensures forall p :: p in s.plans ==> p.id != id
  {
    hide Checked, NothingForgotten, CatalogOk, Justified;
    forall p | p in s.plans ensures p.id != id {
      var i :| 0 <= i < |s.plans| && s.plans[i] == p;
      assert PlanOk(s.plans[i], s.issued, s.fates);
    }
  }

  /** Capability ids are random: none is drawn that was drawn before. */
  ghost predicate FreshIds(lifetime: nat, steps: seq<Step>) {
    forall i :: 0 <= i < |steps| && steps[i].FinishPrepare? ==> steps[i].id !in Run(lifetime, steps[..i]).staged
  }

  /** One step of some task on the objects. */
  method Perform(service: CapabilityService, step: Step, ghost s: System) returns (plan: Option<Plan>)
    requires service.Represents(s) && Inv(s)
    requires step.FinishPrepare? ==> step.id !in s.staged
    modifies service, service.catalog
    ensures service.Represents(Do(s, step))
    ensures Do(s, step).plans == s.plans + if plan.Some? then [plan.value] else []
  {
    hide Inv, Do, Justified;
    plan := None;
    if Idle(s, step) {
      IdleChangesNothing(s, step);
    } else if !step.Finish? {
      OnlyConsumeGivesPlans(s, step);
    }
    match step
    case Register(a) =>
      if a.id !in service.catalog.artifacts { service.Register(a, s); }
    case Unregister(artifactId) => service.Unregister(artifactId, s);
    case StartPrepare(task, artifactId, allowUntrusted) =>
      if task !in service.preparing { service.StartPrepare(task, artifactId, allowUntrusted, s); }
    case FinishPrepare(task, id, issuedAt, sights) =>
      if task in service.preparing {
        var _ := service.FinishPrepare(task, id, issuedAt, sights, s);
      }
    case Take(id, now) =>
      var _ := service.TakeForConsume(id, now, s);
    case Finish(id, now, look, planValid) =>
      if id in service.taken { plan := service.FinishConsume(id, now, look, planValid, s); }
    case CompleteCapability(id) => service.Complete(id, s);
    case ExpireTimer(id, now) => service.Expire(id, now, s);
    case DisposeService => service.Dispose(s);
    case DeleteStaging(id) =>
      if id in service.outstanding { service.TryDeleteDirectory(id, s); }
  }

  /** There is no task, record or directory that the step could be about. */
  ghost predicate Idle(s: System, step: Step) {
    match step
    case Register(a) => a.id in s.catalog
    case StartPrepare(task, _, _) => task in s.preparing
    case FinishPrepare(task, _, _, _) => task !in s.preparing
    case Finish(id, _, _, _) => id !in s.taken
    case DeleteStaging(id) => id !in s.doomed
    case _ => false
  }

  lemma IdleChangesNothing(s: System, step: Step)
    requires Idle(s, step)
    ensures Do(s, step) == s
  {
  }

  /** Any interleaving of tasks on the objects themselves: they end up in the state of the run, and
      the plans they have returned are justified and for different capabilities. */
  method Execute(service: CapabilityService, steps: seq<Step>) returns (plans: seq<Plan>)
    requires service.Represents(Start(service.lifetime)) && FreshIds(service.lifetime, steps)
    modifies service, service.catalog
    ensures service.Represents(Run(service.lifetime, steps)) && plans == Run(service.lifetime, steps).plans
    ensures var issued := Run(service.lifetime, steps).issued;
      forall i :: 0 <= i < |plans| ==> plans[i].id in issued && Justified(plans[i], issued[plans[i].id])
    ensures forall i, j :: 0 <= i < j < |plans| ==> plans[i].id != plans[j].id
  {
    hide Run, Do, Inv, Justified;
    plans := [];
    NothingDone(service.lifetime);
    assert steps[..0] == [];
    for i := 0 to |steps|
      invariant service.Represents(Run(service.lifetime, steps[..i]))
      invariant plans == Run(service.lifetime, steps[..i]).plans
    {
      ghost var s := Run(service.lifetime, steps[..i]);
      InstallerRuns.RunKeeps(service.lifetime, steps[..i]);
      var plan := Perform(service, steps[i], s);
      RunSnoc(service.lifetime, steps[..i], steps[i]);
      assert steps[..i] + [steps[i]] == steps[..i + 1];
      if plan.Some? { plans := plans + [plan.value]; }
    }
    assert steps[..|steps|] == steps;
    OneShot(service.lifetime, steps);
    forall i | 0 <= i < |plans|
      ensures var issued := Run(service.lifetime, steps).issued;
        plans[i].id in issued && Justified(plans[i], issued[plans[i].id])
    {
      PlansAreJustified(service.lifetime, steps, plans[i]);
    }
  }

  lemma NothingDone(lifetime: nat)
    ensures Run(lifetime, []) == Start(lifetime) && Start(lifetime).plans == []
  {
  }
}
