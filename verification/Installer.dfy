/** Installer artifacts, the one-shot capabilities to launch them, and the checks on both.

    The files that are inspected belong to the environment, which may change them between any two
    looks; every look is therefore a parameter with an arbitrary value. */
module Installer {
  import opened Common

  type Id = string
  type Time = int

  datatype Kind = WindowsExecutable | WindowsInstallerPackage | MsixPackage | AppxPackage | Unsupported
  datatype Trust = Trusted | Unsigned | Untrusted | VerificationUnavailable

  datatype Inspection = Inspection(kind: Kind, sha256: string, size: int, trust: Trust)

  datatype Artifact = Artifact(id: string, path: string, kind: Kind, sha256: string, size: int, trust: Trust)

  // ---------------------------------------------------------------------------
  // Preparing a capability
  // ---------------------------------------------------------------------------

  datatype Look = Missing | Failed | Saw(inspection: Inspection)

  /** What one PrepareAsync gets to see: whether the file exists; its length and digest, if it can be
      read; its inspection; whether the staging directory and the directory for logs can be made; the
      inspection of the staged copy; and whether a launch plan can be built. */
  datatype Sights = Sights(exists_: bool, integrity: Option<(int, string)>, source: Look, stagingMade: bool,
                           logsMade: bool, staged: Look, planBuilds: bool)

  /** ValidateIntegrityAsync: the length and the digest of the file, if it can be read, are registered. */
  predicate Intact(a: Artifact, integrity: Option<(int, string)>) {
    integrity.Some? && integrity.value.0 == a.size && SameIgnoringCase(integrity.value.1, a.sha256)
  }

  datatype Blocked = ArtifactMissing | ArtifactChanged | UnsupportedFormat | BlockedByPolicy

  /** Where a capability comes from: the catalog's record, the user's permission, and what was seen. */
  datatype Origin = Origin(artifact: Artifact, allowUntrusted: bool, source: Inspection, staged: Inspection)

  /** How PrepareAsync ends before it takes the lock. `Threw` is an exception before the staging
      directory was made. `Abandoned` is one right behind that point, where nothing deletes the
      directory yet; after a later one, `Discarded`, it is deleted. */
  datatype Preparation = NotReady(reason: Blocked) | Threw | Abandoned | Discarded | Ready(origin: Origin)

  predicate Matches(kind: Kind, size: int, sha256: string, seen: Inspection) {
    seen.kind == kind && seen.size == size && SameIgnoringCase(seen.sha256, sha256)
  }

  predicate Launchable(kind: Kind) {
    kind == WindowsExecutable || kind == WindowsInstallerPackage
  }

  function Prepare(a: Artifact, allowUntrusted: bool, s: Sights): Preparation {
    if !s.exists_ then NotReady(ArtifactMissing)
    else if !Intact(a, s.integrity) then NotReady(ArtifactChanged)
    else if s.source.Missing? then NotReady(ArtifactMissing)
    else if s.source.Failed? then Threw
    else
      var current := s.source.inspection;
      if !Matches(a.kind, a.size, a.sha256, current) then NotReady(ArtifactChanged)
      else if !Launchable(current.kind) then NotReady(UnsupportedFormat)
      else if current.trust != Trusted && !allowUntrusted then NotReady(BlockedByPolicy)
      else if !s.stagingMade then Threw
      else if !s.logsMade then Abandoned
      else if !s.staged.Saw? then Discarded
      else
        var staged := s.staged.inspection;
        if !Matches(current.kind, current.size, current.sha256, staged) then Discarded
        else if current.trust == Trusted && staged.trust != Trusted then Discarded
        else if !s.planBuilds then Discarded
        else Ready(Origin(a, allowUntrusted, current, staged))
  }

  /** The chain of checks that every issued capability has passed. */
  ghost predicate Checked(o: Origin) {
    && Matches(o.artifact.kind, o.artifact.size, o.artifact.sha256, o.source)
    && Matches(o.artifact.kind, o.artifact.size, o.artifact.sha256, o.staged)
    && Launchable(o.staged.kind)
    && (o.source.trust == Trusted ==> o.staged.trust == Trusted)
    && (!o.allowUntrusted ==> o.source.trust == Trusted)
  }

  lemma SameIsTransitive(a: string, b: string, c: string)
    requires SameIgnoringCase(a, b) && SameIgnoringCase(b, c)
    ensures SameIgnoringCase(a, c) && SameIgnoringCase(b, a)
  {
  }

  lemma PreparedIsChecked(a: Artifact, allowUntrusted: bool, s: Sights)
    requires Prepare(a, allowUntrusted, s).Ready?
    ensures Checked(Prepare(a, allowUntrusted, s).origin)
    ensures Prepare(a, allowUntrusted, s).origin.artifact == a
    ensures Prepare(a, allowUntrusted, s).origin.allowUntrusted == allowUntrusted
  {
    var o := Prepare(a, allowUntrusted, s).origin;
    SameIsTransitive(o.staged.sha256, o.source.sha256, a.sha256);
  }

  /** The inspection shows what was registered: kind, size and, in whatever case, digest. */
  predicate Shows(seen: Inspection, a: Artifact) {
    seen.kind == a.kind && seen.size == a.size && Lower(seen.sha256) == Lower(a.sha256)
  }

  /** A capability can be issued if and only if every look shows what was registered, it is a program
      or an installer package, its publisher is trusted or the user allows it - and stays trusted in
      staging if it was at the source - and nothing fails on the way. */
  lemma ReadyExactly(a: Artifact, allowUntrusted: bool, s: Sights)
    ensures Prepare(a, allowUntrusted, s).Ready? <==>
      && s.exists_ && s.stagingMade && s.logsMade && s.planBuilds
      && s.integrity.Some? && s.integrity.value.0 == a.size && Lower(s.integrity.value.1) == Lower(a.sha256)
      && (a.kind == WindowsExecutable || a.kind == WindowsInstallerPackage)
      && s.source.Saw? && Shows(s.source.inspection, a)
      && s.staged.Saw? && Shows(s.staged.inspection, a)
      && (allowUntrusted || s.source.inspection.trust == Trusted)
      && (s.source.inspection.trust == Trusted ==> s.staged.inspection.trust == Trusted)
    ensures Prepare(a, allowUntrusted, s).Ready? ==>
      Prepare(a, allowUntrusted, s).origin == Origin(a, allowUntrusted, s.source.inspection, s.staged.inspection)
  {
    hide Lower;
  }

  /** The length and the digest of the file are those that were registered. */
  predicate SameFile(a: Artifact, integrity: Option<(int, string)>) {
    integrity.Some? && integrity.value.0 == a.size && Lower(integrity.value.1) == Lower(a.sha256)
  }

  /** What the user is told when nothing is prepared: the file is gone; it is not what was registered;
      it is, but of a kind that cannot be launched; it is launchable, but not trusted and not allowed. */
  lemma BlockedExactly(a: Artifact, allowUntrusted: bool, s: Sights)
    ensures var p, intact := Prepare(a, allowUntrusted, s), SameFile(a, s.integrity);
      var launchable := a.kind == WindowsExecutable || a.kind == WindowsInstallerPackage;
      && (p == NotReady(ArtifactMissing) <==> !s.exists_ || (intact && s.source.Missing?))
      && (p == NotReady(ArtifactChanged) <==>
            s.exists_ && (!intact || (s.source.Saw? && !Shows(s.source.inspection, a))))
      && (p == NotReady(UnsupportedFormat) <==>
            s.exists_ && intact && s.source.Saw? && Shows(s.source.inspection, a) && !launchable)
      && (p == NotReady(BlockedByPolicy) <==>
            && s.exists_ && intact && s.source.Saw? && Shows(s.source.inspection, a) && launchable
            && s.source.inspection.trust != Trusted && !allowUntrusted)
  {
    hide Lower;
  }

  // ---------------------------------------------------------------------------
  // The table of capabilities
  // ---------------------------------------------------------------------------

  datatype Capability = Capability(origin: Origin, expiresAt: Time) {
    function ExpectedSha256(): string { origin.staged.sha256 }
    predicate RequiresTrust() { origin.source.trust == Trusted }
  }

  type Table = map<Id, Capability>

  function Outdated(table: Table, now: Time): set<Id> {
    set id | id in table && now > table[id].expiresAt
  }

  /** ConsumeAsync after it has taken the capability out of the table. */
  predicate Approves(c: Capability, now: Time, look: Look, planValid: bool) {
    && now <= c.expiresAt
    && look.Saw?
    && SameIgnoringCase(look.inspection.sha256, c.ExpectedSha256())
    && look.inspection.kind == c.origin.staged.kind
    && (c.RequiresTrust() ==> look.inspection.trust == Trusted)
    && planValid
  }

  // ---------------------------------------------------------------------------
  // The catalog
  // ---------------------------------------------------------------------------

  /** The catalog without the records of one file. */
  function WithoutPath(catalog: map<string, Artifact>, path: string): map<string, Artifact> {
    map k | k in catalog && !SameIgnoringCase(catalog[k].path, path) :: catalog[k]
  }
}
