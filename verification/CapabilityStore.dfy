/** The control-plane store as written: tables updated in place, each method one transaction. */
module CapabilityStore {
  import opened Prelude
  import opened Strings
  import opened Bundles
  import opened Library
  import opened InstallPlan
  import opened Capabilities

  /** The request was carried out as specified, or refused with nothing but the clock moved. */
  ghost predicate Served(before: State, after: State, op: Op, now: nat, failure: Option<Refusal>) {
    match Outcome(before.(clock := now), op)
    case Ok(t) => failure == None && after == t
    case Err(e) => failure == Some(e) && after == before.(clock := now)
  }

  class ControlPlaneStore {
    var library: Catalog
    var workers: map<Workspace, Worker>
    var grants: seq<Grant>
    var changes: seq<Change>
    var clock: nat

    constructor ()
      ensures Tables() == Empty
    {
      library, workers, grants, changes, clock := [], map[], [], [], 0;
    }

    ghost function Tables(): State
      reads this
    {
      State(library, workers, grants, changes, clock)
    }

    // -------------------------------------------------------------------------
    // Queries
    // -------------------------------------------------------------------------

    method FindVersion(id: Identity) returns (r: Option<nat>)
      ensures r == SameVersion(library, id)
    {
      r := None;
      for i := 0 to |library|
        invariant r == SameVersion(library[..i], id)
      {
        assert library[..i + 1][..i] == library[..i];
        if library[i].manifest.id.stableId == id.stableId && library[i].manifest.id.version == id.version {
          r := Some(i);
        }
      }
      assert library[..|library|] == library;
    }

    method NewestGrant(ws: Workspace) returns (r: Option<nat>)
      ensures r == Newest(grants, ws)
    {
      r := None;
      for i := 0 to |grants|
        invariant r == Newest(grants[..i], ws)
      {
        assert grants[..i + 1][..i] == grants[..i];
        if Active(grants[i], ws) && (r.None? || grants[r.value].createdAt <= grants[i].createdAt) {
          r := Some(i);
        }
      }
      assert grants[..|grants|] == grants;
    }

    method HasPackage(ws: Workspace, stableId: string) returns (found: bool)
      ensures found == StableEnabled(library, grants, ws, stableId)
    {
      found := false;
      for i := 0 to |grants|
        invariant !found
        invariant forall j :: 0 <= j < i ==>
          !(Active(grants[j], ws) && grants[j].lib < |library| &&
            library[grants[j].lib].manifest.id.stableId == stableId)
      {
        if Active(grants[i], ws) && grants[i].lib < |library| &&
          library[grants[i].lib].manifest.id.stableId == stableId {
          return true;
        }
      }
    }

    /** The restore loop: a queue of pins, every one of which must resolve to an available row. */
    method DependenciesRestored(dependencies: seq<Dependency>) returns (ok: bool)
      ensures ok == RestoreAllowed(library, dependencies, {})
    {
      var pending, restored := dependencies, {};
      while pending != []
        invariant RestoreAllowed(library, dependencies, {}) == RestoreAllowed(library, pending, restored)
        decreases Identities(library) - restored, |pending|
      {
        var dependency := pending[0];
        pending := pending[1..];
        if dependency.id in restored { continue; }
        var row := FindAvailable(library, dependency.id);
        if row.None? { return false; }
        assert dependency.id in Identities(library);
        restored := restored + {dependency.id};
        pending := pending + library[row.value].manifest.dependencies;
      }
      return true;
    }

    method HasDependents(lib: nat) returns (found: bool)
      requires lib < |library|
      ensures found == RequiredByOther(library, lib)
    {
      for i := 0 to |library|
        invariant forall j, d ::
          (0 <= j < i && j != lib && library[j].status == Available
            && 0 <= d < |library[j].manifest.dependencies|) ==>
            library[j].manifest.dependencies[d].id != library[lib].manifest.id
      {
        if i != lib && library[i].status == Available {
          var dependencies := library[i].manifest.dependencies;
          for d := 0 to |dependencies|
            invariant forall e :: 0 <= e < d ==> dependencies[e].id != library[lib].manifest.id
          {
            if dependencies[d].id == library[lib].manifest.id { return true; }
          }
        }
      }
      return false;
    }

    /** The activation loop of a confirmation: merge, then probe what is merged so far. */
    method Activate(profile: string, base: Bundle, plan: seq<PlanItem>) returns (r: Result<Bundle, Refusal>)
      requires InTable(library, plan)
      ensures r == Install(library, profile, base, plan)
    {
      var merged := base;
      for k := 0 to |plan|
        invariant Install(library, profile, base, plan[..k]) == Ok(merged)
      {
        assert plan[..k + 1][..k] == plan[..k];
        var m := library[plan[k].lib].manifest;
        if profile !in m.bundles {
          InstallFails(library, profile, base, plan, k + 1);
          return Err(ProbeFailed);
        }
        var next := MergeBootstrap(merged, m.bundles[profile]);
        if !ProbePasses(m.probe, profile, next) {
          InstallFails(library, profile, base, plan, k + 1);
          return Err(ProbeFailed);
        }
        merged := next;
      }
      assert plan[..|plan|] == plan;
      return Ok(merged);
    }

    // -------------------------------------------------------------------------
    // Library
    // -------------------------------------------------------------------------

    method PublishManifest(m: Manifest, now: nat) returns (failure: Option<Refusal>)
      requires clock <= now
      modifies this
      ensures Served(old(Tables()), Tables(), DoPublish(m), now, failure)
    {
      clock := now;
      if !Acceptable(m) { return Some(InvalidManifest); }
      var existing := FindVersion(m.id);
      if existing.Some? {
        if library[existing.value].manifest != m { return Some(PublishedDifferently); }
        return None;
      }
      var d := 0;
      while d < |m.dependencies|
        invariant d <= |m.dependencies| && PinObjection(library, m, 0) == PinObjection(library, m, d)
      {
        var row := FindAvailable(library, m.dependencies[d].id);
        if row.None? { return Some(DependencyMissing); }
        if !(m.profiles <= library[row.value].manifest.profiles) { return Some(DependencyProfiles); }
        if !(m.dependencies[d].scopes <= library[row.value].manifest.scopes) { return Some(DependencyScopes); }
        d := d + 1;
      }
      library := library + [Row(m, Available)];
      return None;
    }

    method UpdateStatus(lib: nat, status: Status, reason: string, now: nat) returns (failure: Option<Refusal>)
      requires clock <= now
      modifies this
      ensures Served(old(Tables()), Tables(), DoSetStatus(lib, status, reason), now, failure)
    {
      clock := now;
      if status != Available && Trim(reason) == "" { return Some(ReasonRequired); }
      if lib >= |library| { return Some(NoSuchItem); }
      var row := library[lib];
      if row.status == Removed && status != Removed { return Some(RemovedIsFinal); }
      if row.status == status { return None; }
      if status == Available {
        var ok := DependenciesRestored(row.manifest.dependencies);
        if !ok { return Some(DependencyMissing); }
      } else {
        if Granted(grants, lib) { return Some(StillGranted); }
        var required := HasDependents(lib);
        if required { return Some(RequiredByDependent); }
      }
      library := library[lib := row.(status := status)];
      return None;
    }

    // -------------------------------------------------------------------------
    // Review, confirm, revoke
    // -------------------------------------------------------------------------

    method PrepareChange(ws: Workspace, kind: Kind, lib: nat, requested: set<string>, ttl: int, token: string, now: nat)
      returns (failure: Option<Refusal>)
      requires clock <= now && !kind.SwitchAccount?
      modifies this
      ensures Served(old(Tables()), Tables(), DoPrepare(ws, kind, lib, requested, ttl, token), now, failure)
    {
      clock := now;
      if ws !in workers { return Some(NoSuchWorkspace); }
      var worker := workers[ws];
      var planned := InstallPlanFor(library, worker.profile, lib);
      if planned.Err? { return Some(CannotPlan(planned.error)); }
      var manifest := library[lib].manifest;
      if kind.Enable? {
        var installed := HasPackage(ws, manifest.id.stableId);
        if installed { return Some(AlreadyEnabled); }
      }
      var resolved := RequestedScopes(worker, lib, manifest.scopes, requested);
      if resolved.Err? { return Some(resolved.error); }
      var plan := WithRootScopes(planned.value, resolved.value);
      if kind.Upgrade? {
        var target := TargetObjection(State(library, workers, grants, changes, clock), ws, kind.current, lib);
        if target.Some? { return target; }
        if !IsNewer(library, lib, grants[kind.current].lib) { return Some(NotNewer); }
        var newest := NewestGrant(ws);
        if newest != Some(kind.current) { return Some(NotNewest); }
        var widening := WideningObjection(grants[kind.current], resolved.value, plan);
        if widening.Some? { return widening; }
      }
      changes := changes +
        [Change(ws, kind, lib, resolved.value, Snapshot(library, plan), token, now + Lifetime(ttl), false)];
      return None;
    }

    method PrepareAccountSwitch(ws: Workspace, selection: Json, ttl: int, token: string, now: nat)
        returns (failure: Option<Refusal>)
      requires clock <= now
      modifies this
      ensures Served(old(Tables()), Tables(), DoPrepareSwitch(ws, selection, ttl, token), now, failure)
    {
      clock := now;
      if ws !in workers { return Some(NoSuchWorkspace); }
      changes := changes + [Change(ws, SwitchAccount(selection), 0, {}, [], token, now + Lifetime(ttl), false)];
      return None;
    }

    method ConfirmChange(change: nat, tenant: string, owner: string, token: string, accountReady: bool, now: nat)
      returns (failure: Option<Refusal>)
      requires clock <= now
      modifies this
      ensures Served(old(Tables()), Tables(), DoConfirm(change, tenant, owner, token, accountReady), now, failure)
    {
      clock := now;
      if change >= |changes| || changes[change].ws.tenant != tenant || changes[change].ws.owner != owner {
        return Some(NoSuchChange);
      }
      var c := changes[change];
      if c.confirmed { return Some(AlreadyResolved); }
      if c.expiresAt <= now { return Some(Expired); } // the row marked expired is rolled back with the raise
      if token == "" || token != c.token { return Some(BadToken); }
      if c.kind.SwitchAccount? {
        if c.ws !in workers { return Some(NoSuchWorkspace); }
        if !accountReady { return Some(AccountNotReady); }
        var worker := workers[c.ws];
        workers := workers[c.ws := worker.(bundle := worker.bundle[ACCOUNT := c.kind.selection])];
      } else {
        failure := InstallReviewed(c, now);
        if failure.Some? { return; }
      }
      changes := changes[change := c.(confirmed := true)];
      return None;
    }

    /** The library branch of a confirmation. */
    method InstallReviewed(c: Change, now: nat) returns (failure: Option<Refusal>)
      requires clock == now && !c.kind.SwitchAccount?
      modifies this`workers, this`grants
      ensures match ApplyLibrary(old(Tables()), c, now)
              case Ok(t) => failure == None && Tables() == t
              case Err(e) => failure == Some(e) && Tables() == old(Tables())
    {
      if c.ws !in workers { return Some(NoSuchWorkspace); }
      var worker := workers[c.ws];
      var planned := InstallPlanFor(library, worker.profile, c.lib);
      if planned.Err? { return Some(CannotPlan(planned.error)); }
      var manifest := library[c.lib].manifest;
      var scopes := if c.scopes == {} then manifest.scopes else c.scopes;
      var plan := WithRootScopes(planned.value, scopes);
      if Snapshot(library, plan) != c.plan { return Some(ReviewStale); }
      if c.kind.Enable? {
        var installed := HasPackage(c.ws, manifest.id.stableId);
        if installed { return Some(AlreadyEnabled); }
      }
      if !(scopes <= manifest.scopes) { return Some(ScopesTooWide); }
      var base := worker.bundle;
      if c.kind.Upgrade? {
        var target := TargetObjection(State(library, workers, grants, changes, clock), c.ws, c.kind.current, c.lib);
        if target.Some? { return target; }
        var newest := NewestGrant(c.ws);
        if newest != Some(c.kind.current) { return Some(NotNewest); }
        var replacedGrant := grants[c.kind.current];
        if worker.bundle != replacedGrant.applied { return Some(EditedSince); }
        var widening := WideningObjection(replacedGrant, scopes, plan);
        if widening.Some? { return widening; }
        base := replacedGrant.prior;
      }
      var merged := Activate(worker.profile, base, plan);
      if merged.Err? { return Some(merged.error); }
      workers := workers[c.ws := worker.(bundle := merged.value)];
      if c.kind.Upgrade? {
        grants := Revoked(grants, c.kind.current, now);
      }
      grants := grants +
        [Grant(c.ws, c.lib, scopes, base, merged.value, plan, if c.kind.Upgrade? then Some(c.kind.current)
          else None, now, None)];
      return None;
    }

    method RevokeGrant(ws: Workspace, g: nat, now: nat) returns (failure: Option<Refusal>)
      requires clock <= now
      modifies this
      ensures Served(old(Tables()), Tables(), DoRevoke(ws, g), now, failure)
    {
      clock := now;
      if g >= |grants| || !Active(grants[g], ws) { return Some(NoSuchGrant); }
      var newest := NewestGrant(ws);
      if newest != Some(g) { return Some(NotNewest); }
      if ws !in workers { return Some(NoSuchWorkspace); }
      if workers[ws].bundle != grants[g].applied { return Some(EditedSince); }
      workers := workers[ws := workers[ws].(bundle := grants[g].prior)];
      grants := Revoked(grants, g, now);
      return None;
    }
  }

  /** Once a prefix of the plan fails to install, so does the plan. */
  lemma {:induction false} InstallFails(cat: Catalog, profile: string, base: Bundle, plan: seq<PlanItem>, k: nat)
    requires InTable(cat, plan) && k <= |plan|
    requires Install(cat, profile, base, plan[..k]) == Err(ProbeFailed)
    ensures Install(cat, profile, base, plan) == Err(ProbeFailed)
    decreases |plan| - k
  {
    if k < |plan| {
      assert plan[..k + 1][..k] == plan[..k];
      InstallFails(cat, profile, base, plan, k + 1);
    } else {
      assert plan[..k] == plan;
    }
  }

  /** What the store serves is a step of a run. */
  lemma ServedIsStep(before: State, after: State, op: Op, now: nat, failure: Option<Refusal>)
    requires before.clock <= now && Served(before, after, op, now, failure)
    ensures Step(before, Event(op, now - before.clock), after)
  {
  }
}
