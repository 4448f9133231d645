/** When the library's operations and revoking go through, and exactly what they leave, in terms of the tables alone. */
module CapabilityOperations {
  import opened Prelude
  import opened Strings
  import opened Bundles
  import opened SemanticVersions
  import opened VersionTexts
  import opened Library
  import opened InstallPlan
  import opened Capabilities
  import opened CapabilityInvariants
  import opened CapabilityRuns
  import opened CapabilityReviews

  // ---------------------------------------------------------------------------
  // Publishing
  // ---------------------------------------------------------------------------

  /** Rows `i` and `j` carry one version of one package. */
  predicate SameRelease(cat: Catalog, i: nat, id: Identity) {
    i < |cat| && cat[i].manifest.id.stableId == id.stableId && cat[i].manifest.id.version == id.version
  }

  ghost predicate OneManifestEach(cat: Catalog) {
    forall i, j :: 0 <= i < j < |cat| ==> !SameRelease(cat, i, cat[j].manifest.id)
  }

  /** Some available row is what the dependency pins, supports at least these profiles, and allows its scopes. */
  ghost predicate Satisfied(cat: Catalog, dep: Dependency, profiles: set<string>) {
    exists j :: 0 <= j < |cat| && Satisfies(cat, dep, profiles, j)
  }

  predicate Satisfies(cat: Catalog, dep: Dependency, profiles: set<string>, j: nat) {
    && j < |cat| && cat[j].status == Available && cat[j].manifest.id == dep.id
    && profiles <= cat[j].manifest.profiles && dep.scopes <= cat[j].manifest.scopes
  }

  lemma SatisfiedIff(cat: Catalog, dep: Dependency, profiles: set<string>)
    requires UniqueIdentities(cat)
    ensures Satisfied(cat, dep, profiles) <==>
            var row := FindAvailable(cat, dep.id);
            row.Some? && profiles <= cat[row.value].manifest.profiles && dep.scopes <= cat[row.value].manifest.scopes
  {
    var row := FindAvailable(cat, dep.id);
    if Satisfied(cat, dep, profiles) {
      var j :| 0 <= j < |cat| && Satisfies(cat, dep, profiles, j);
      assert row.Some? && row.value == j;
    }
    if row.Some? && profiles <= cat[row.value].manifest.profiles && dep.scopes <= cat[row.value].manifest.scopes {
      assert Satisfies(cat, dep, profiles, row.value);
    }
  }

  lemma {:induction false} NoObjectionIff(cat: Catalog, m: Manifest, d: nat)
    requires UniqueIdentities(cat) && d <= |m.dependencies|
    ensures PinObjection(cat, m, d).None? <==>
            forall e :: d <= e < |m.dependencies| ==> Satisfied(cat, m.dependencies[e], m.profiles)
    decreases |m.dependencies| - d
  {
    if d < |m.dependencies| {
      NoObjectionIff(cat, m, d + 1);
      SatisfiedIff(cat, m.dependencies[d], m.profiles);
    }
  }

  /** What a manifest must be in itself: a version, profiles each with a bundle, and no pin of its own package. */
  predicate WellMade(m: Manifest) {
    && IsVersion(m.id.version) && m.profiles != {} && m.profiles <= m.bundles.Keys
    && forall d :: 0 <= d < |m.dependencies| ==> m.dependencies[d].id.stableId != m.id.stableId
  }

  /** A manifest whose version is new is published, available, exactly when it is well made and its pins satisfied. */
  lemma PublishNewIff(s: State, m: Manifest)
    requires LibraryHolds(s.library) && forall i :: 0 <= i < |s.library| ==> !SameRelease(s.library, i, m.id)
    ensures var r := Outcome(s, DoPublish(m));
            && (r.Ok? <==>
                  && WellMade(m)
                  && forall d :: 0 <= d < |m.dependencies| ==> Satisfied(s.library, m.dependencies[d], m.profiles))
            && (r.Ok? ==> r.value == s.(library := s.library + [Row(m, Available)]))
  {
    NoObjectionIff(s.library, m, 0);
    var found := SameVersion(s.library, m.id);
    if found.Some? {
      assert SameRelease(s.library, found.value, m.id);
      assert false;
    }
    assert Acceptable(m) <==> WellMade(m);
  }

  lemma ReleasesApart(cat: Catalog, i: nat, j: nat)
    requires OneManifestEach(cat) && i < j < |cat|
    ensures !SameRelease(cat, i, cat[j].manifest.id)
  {
  }

  lemma FoundRelease(cat: Catalog, i: nat, id: Identity)
    requires OneManifestEach(cat) && SameRelease(cat, i, id)
    ensures SameVersion(cat, id) == Some(i)
  {
    var found := SameVersion(cat, id);
    assert SameRelease(cat, found.value, id);
    if i < found.value { ReleasesApart(cat, i, found.value); }
    if found.value < i { ReleasesApart(cat, found.value, i); }
  }

  /** One already published is accepted again exactly when it is the same, and then nothing changes. */
  lemma PublishAgainIff(s: State, m: Manifest, i: nat)
    requires LibraryHolds(s.library) && OneManifestEach(s.library) && SameRelease(s.library, i, m.id)
    ensures var r := Outcome(s, DoPublish(m));
            && (r.Ok? <==> s.library[i].manifest == m)
            && (r.Ok? ==> r.value == s)
  {
    FoundRelease(s.library, i, m.id);
    assert Acceptable(s.library[i].manifest);
  }

  /** However a catalog came about, it holds one manifest per package and version. */
  lemma {:induction false} ReleasesUnique(states: seq<State>, events: seq<Event>, n: nat)
    requires Reachable(states, events) && n < |states|
    ensures OneManifestEach(states[n].library)
  {
    if n > 0 {
      ReleasesUnique(states, events, n - 1);
      assert Step(states[n - 1], events[n - 1], states[n]);
      StepKeepsReleases(states[n - 1], events[n - 1]);
    }
  }

  lemma StepKeepsReleases(s: State, e: Event)
    requires OneManifestEach(s.library)
    ensures OneManifestEach(Next(s, e).library)
  {
    var t := Tick(s, e);
    if Outcome(t, e.op).Ok? {
      match e.op
      case DoPublish(m) =>
        if SameVersion(s.library, m.id).None? { PublishKeepsReleases(s.library, m); }
      case DoSetStatus(lib, _, _) => StatusKeepsReleases(s.library, Outcome(t, e.op).value.library);
      case DoConfirm(change, tenant, owner, token, ready) =>
        var _ := ConfirmIs(t, change, tenant, owner, token, ready);
      case _ =>
    }
  }

  lemma PublishKeepsReleases(cat: Catalog, m: Manifest)
    requires OneManifestEach(cat) && SameVersion(cat, m.id).None?
    ensures OneManifestEach(cat + [Row(m, Available)])
  {
    var after := cat + [Row(m, Available)];
    forall i, j | 0 <= i < j < |after| ensures !SameRelease(after, i, after[j].manifest.id) {
      if j < |cat| { assert !SameRelease(cat, i, cat[j].manifest.id); }
    }
  }

  lemma StatusKeepsReleases(cat: Catalog, after: Catalog)
    requires OneManifestEach(cat) && |after| == |cat|
    requires forall i :: 0 <= i < |cat| ==> after[i].manifest == cat[i].manifest
    ensures OneManifestEach(after)
  {
    forall i, j | 0 <= i < j < |after| ensures !SameRelease(after, i, after[j].manifest.id) {
      assert !SameRelease(cat, i, cat[j].manifest.id);
    }
  }

  // ---------------------------------------------------------------------------
  // Status changes
  // ---------------------------------------------------------------------------

  lemma {:induction false} TrimStartBlank(s: string)
    ensures TrimStart(s) == "" <==> forall i :: 0 <= i < |s| ==> IsSpace(s[i])
  {
    if s != "" && IsSpace(s[0]) {
      TrimStartBlank(s[1..]);
      assert forall i :: 1 <= i < |s| ==> s[i] == s[1..][i - 1];
    }
  }

  /** A text is blank exactly when white space is all it holds. */
  lemma BlankIff(s: string)
    ensures Trim(s) == "" <==> forall i :: 0 <= i < |s| ==> IsSpace(s[i])
  {
    TrimStartBlank(s);
    TrimStartSpec(s);
    var front := TrimStart(s);
    if front != "" { TrimEndKeepsFirst(front); }
  }

  lemma {:induction false} TrimEndKeepsFirst(s: string)
    requires s != "" && !IsSpace(s[0])
    ensures TrimEnd(s) != ""
  {
    if IsSpace(s[|s| - 1]) { TrimEndKeepsFirst(s[..|s| - 1]); }
  }

  /** Everything the row pins is available. */
  ghost predicate PinsAvailable(cat: Catalog, lib: nat)
    requires lib < |cat|
  {
    var pins := cat[lib].manifest.dependencies;
    forall d :: 0 <= d < |pins| ==> IdentityAvailable(cat, pins[d].id)
  }

  ghost predicate IdentityAvailable(cat: Catalog, id: Identity) {
    exists j :: 0 <= j < |cat| && cat[j].status == Available && cat[j].manifest.id == id
  }

  /** No active grant is of the row, and no other available row pins it. */
  ghost predicate Unused(s: State, lib: nat)
    requires lib < |s.library|
  {
    && (forall i :: 0 <= i < |s.grants| && s.grants[i].lib == lib ==> s.grants[i].revokedAt.Some?)
    && forall i :: 0 <= i < |s.library| && i != lib && s.library[i].status == Available ==>
         !(exists d :: 0 <= d < |s.library[i].manifest.dependencies|
                       && s.library[i].manifest.dependencies[d].id == s.library[lib].manifest.id)
  }

  /**
   * A row's status is set exactly when a reason is given unless it is made available, a removed row stays removed, it
   * is made available only with all its pins, and taken back only unused; nothing but that status changes.
   */
  lemma SetStatusIff(s: State, lib: nat, status: Library.Status, reason: string)
    requires LibraryHolds(s.library)
    ensures var r := Outcome(s, DoSetStatus(lib, status, reason));
            && (r.Ok? <==>
                  && (status == Available || exists i :: 0 <= i < |reason| && !IsSpace(reason[i]))
                  && lib < |s.library|
                  && (s.library[lib].status == Removed ==> status == Removed)
                  && (s.library[lib].status == status
                      || if status == Available then PinsAvailable(s.library, lib) else Unused(s, lib)))
            && (r.Ok? ==> r.value == s.(library := s.library[lib := Row(s.library[lib].manifest, status)]))
  {
    BlankIff(reason);
    if lib < |s.library| {
      PinsAvailableIff(s.library, lib);
      UnusedIff(s, lib);
      if s.library[lib].status == status {
        assert s.library[lib := Row(s.library[lib].manifest, status)] == s.library;
      }
    }
  }

  lemma PinsAvailableIff(cat: Catalog, lib: nat)
    requires LibraryHolds(cat) && lib < |cat|
    ensures PinsAvailable(cat, lib) <==> RestoreAllowed(cat, cat[lib].manifest.dependencies, {})
  {
    var deps := cat[lib].manifest.dependencies;
    RestoreAllowedIff(cat, deps, {});
    forall d | 0 <= d < |deps|
      ensures IdentityAvailable(cat, deps[d].id) <==> FindAvailable(cat, deps[d].id).Some?
    {
      var found := FindAvailable(cat, deps[d].id);
      if found.Some? { assert cat[found.value].manifest.id == deps[d].id; }
    }
  }

  lemma UnusedIff(s: State, lib: nat)
    requires lib < |s.library|
    ensures Unused(s, lib) <==> !Granted(s.grants, lib) && !RequiredByOther(s.library, lib)
  {
  }

  // ---------------------------------------------------------------------------
  // Revoking
  // ---------------------------------------------------------------------------

  /**
   * A grant is revoked exactly when it is the workspace's last active one and the bundle is as it left it; the bundle
   * from before it comes back, and the row is marked with the time.
   */
  lemma RevokeIff(s: State, ws: Workspace, g: nat)
    requires Holds(s)
    ensures var r := Outcome(s, DoRevoke(ws, g));
            && (r.Ok? <==>
                  && g < |s.grants| && s.grants[g].ws == ws && s.grants[g].revokedAt.None?
                  && LastActive(s.grants, ws, g)
                  && ws in s.workers && s.workers[ws].bundle == s.grants[g].applied)
            && (r.Ok? ==>
                  r.value == s.(workers := s.workers[ws := s.workers[ws].(bundle := s.grants[g].prior)],
                                grants := s.grants[g := s.grants[g].(revokedAt := Some(s.clock))]))
  {
    if g < |s.grants| && s.grants[g].lib < |s.library| { ReplaceableIff(s, ws, g, s.grants[g].lib); }
    if g < |s.grants| { assert GrantHolds(s, s.grants[g]); }
  }

  /** An enable confirmed, then revoked: the grant stays on record, and the workspace is as before. */
  lemma EnableThenRevoke(s: State, op: Op, elapsed: nat)
    requires Holds(s) && op.DoConfirm? && Outcome(s, op).Ok? && s.changes[op.change].kind.Enable?
    ensures var ws, t := s.changes[op.change].ws, Outcome(s, op).value;
            var e := Event(DoRevoke(ws, |s.grants|), elapsed);
            && Succeeds(t, e)
            && Next(t, e).workers == s.workers
            && Next(t, e).library == s.library
  {
    EnableConfirmedIff(s, op);
    OutcomeKeeps(s, op);
    var ws, t := s.changes[op.change].ws, Outcome(s, op).value;
    var e := Event(DoRevoke(ws, |s.grants|), elapsed);
    var u := Tick(t, e);
    ClockKeeps(t, u.clock);
    RevokeIff(u, ws, |s.grants|);
    assert s.workers[ws].(bundle := s.workers[ws].bundle) == s.workers[ws];
    assert Next(t, e).workers == s.workers;
  }

  // ---------------------------------------------------------------------------
  // Newer
  // ---------------------------------------------------------------------------

  /** A row is newer than another exactly when its version is higher, unless a number is spelled twice. */
  lemma NewerIsHigher(cat: Catalog, lib: nat, other: nat, v: Spelled, w: Spelled)
    requires lib < |cat| && other < |cat| && Spellable(v) && Spellable(w) && !SpelledTwice(v, w)
    requires cat[lib].manifest.id.version == Spell(v) && cat[other].manifest.id.version == Spell(w)
    ensures IsNewer(cat, lib, other) <==> Lower(w, v)
  {
    SpelledPrecedenceIff(v, w);
    SpelledReads(v);
    SpelledReads(w);
    CompareOppositeIff(Spell(v), Spell(w));
  }
}
