/** When a change is reviewed and when it is confirmed, and what each leaves, in terms of the tables alone. */
module CapabilityReviews {
  import opened Prelude
  import opened Bundles
  import opened SemanticVersions
  import opened Library
  import opened InstallPlan
  import opened Capabilities
  import opened CapabilityInvariants
  import opened CapabilityRuns
  import opened CapabilityStacks

  // ---------------------------------------------------------------------------
  // Plans and probes
  // ---------------------------------------------------------------------------

  /** Every item's probe passes on the bundles merged up to and including its own. */
  ghost predicate ProbesPass(cat: Catalog, profile: string, bundle: Bundle, plan: seq<PlanItem>)
    requires InTable(cat, plan)
  {
    forall k :: 0 <= k < |plan| ==> PassesAt(cat, profile, bundle, plan, k)
  }

  ghost predicate PassesAt(cat: Catalog, profile: string, bundle: Bundle, plan: seq<PlanItem>, k: nat)
    requires InTable(cat, plan) && k < |plan|
  {
    ProbePasses(cat[plan[k].lib].manifest.probe, profile, MergePlan(cat, profile, bundle, plan[..k + 1]))
  }

  /** Every planned row has a bundle for the profile. */
  ghost predicate Activates(cat: Catalog, profile: string, plan: seq<PlanItem>) {
    forall k :: 0 <= k < |plan| ==> plan[k].lib < |cat| && profile in cat[plan[k].lib].manifest.bundles
  }

  lemma PrefixPasses(cat: Catalog, profile: string, bundle: Bundle, plan: seq<PlanItem>, n: nat)
    requires InTable(cat, plan) && n + 1 == |plan|
    ensures ProbesPass(cat, profile, bundle, plan) <==>
            ProbesPass(cat, profile, bundle, plan[..n]) && PassesAt(cat, profile, bundle, plan, n)
  {
    forall k | 0 <= k < n
      ensures PassesAt(cat, profile, bundle, plan, k) <==> PassesAt(cat, profile, bundle, plan[..n], k)
    {
      assert plan[..n][..k + 1] == plan[..k + 1];
    }
  }

  lemma LastPasses(cat: Catalog, profile: string, bundle: Bundle, plan: seq<PlanItem>, n: nat)
    requires InTable(cat, plan) && Activates(cat, profile, plan) && n + 1 == |plan|
    ensures PassesAt(cat, profile, bundle, plan, n) <==>
            var m := cat[plan[n].lib].manifest;
            ProbePasses(m.probe, profile, Merge(MergePlan(cat, profile, bundle, plan[..n]), m.bundles[profile]))
  {
    assert plan[..n + 1] == plan;
  }

  /** A plan is installed exactly when every prefix of it, merged, passes the probe of its last item. */
  lemma {:induction false} InstallIff(cat: Catalog, profile: string, bundle: Bundle, plan: seq<PlanItem>)
    requires InTable(cat, plan) && Activates(cat, profile, plan)
    ensures Install(cat, profile, bundle, plan).Ok? <==> ProbesPass(cat, profile, bundle, plan)
  {
    if plan != [] {
      var n := |plan| - 1;
      InstallIff(cat, profile, bundle, plan[..n]);
      PrefixPasses(cat, profile, bundle, plan, n);
      LastPasses(cat, profile, bundle, plan, n);
      if Install(cat, profile, bundle, plan[..n]).Ok? { InstallMerges(cat, profile, bundle, plan[..n]); }
    }
  }

  /** Same rows, whatever the scopes. */
  predicate SameRows(plan: seq<PlanItem>, other: seq<PlanItem>) {
    |plan| == |other| && forall k :: 0 <= k < |plan| ==> plan[k].lib == other[k].lib
  }

  lemma {:induction false} SameRowsMerge(cat: Catalog, profile: string, bundle: Bundle, plan: seq<PlanItem>,
      other: seq<PlanItem>)
    requires InTable(cat, plan) && SameRows(plan, other)
    ensures InTable(cat, other) && MergePlan(cat, profile, bundle, plan) == MergePlan(cat, profile, bundle, other)
  {
    if plan != [] { SameRowsMerge(cat, profile, bundle, plan[..|plan| - 1], other[..|other| - 1]); }
  }

  lemma SameRowsPass(cat: Catalog, profile: string, bundle: Bundle, plan: seq<PlanItem>, other: seq<PlanItem>)
    requires InTable(cat, plan) && SameRows(plan, other)
    ensures InTable(cat, other) && (ProbesPass(cat, profile, bundle, plan) <==> ProbesPass(cat, profile, bundle, other))
  {
    forall k | 0 <= k < |plan|
      ensures PassesAt(cat, profile, bundle, plan, k) <==> PassesAt(cat, profile, bundle, other, k)
    {
      SameRowsMerge(cat, profile, bundle, plan[..k + 1], other[..k + 1]);
    }
  }

  /** The review recorded exactly the planned rows, in order, with their manifests and scopes, the root's as given. */
  ghost predicate AsReviewed(cat: Catalog, plan: seq<PlanItem>, scopes: set<string>, reviewed: seq<Reviewed>) {
    && |reviewed| == |plan|
    && forall k :: 0 <= k < |plan| ==>
         && plan[k].lib < |cat| && reviewed[k].lib == plan[k].lib && reviewed[k].manifest == cat[plan[k].lib].manifest
         && reviewed[k].scopes == if k == |plan| - 1 then scopes else plan[k].scopes
  }

  lemma SnapshotIff(cat: Catalog, plan: seq<PlanItem>, scopes: set<string>, reviewed: seq<Reviewed>)
    requires plan != [] && forall k :: 0 <= k < |plan| ==> plan[k].lib < |cat|
    ensures Snapshot(cat, WithRootScopes(plan, scopes)) == reviewed <==> AsReviewed(cat, plan, scopes, reviewed)
  {
    var snapshot := Snapshot(cat, WithRootScopes(plan, scopes));
    if AsReviewed(cat, plan, scopes, reviewed) {
      forall k | 0 <= k < |plan| ensures snapshot[k] == reviewed[k] {}
    }
  }

  /** A plan's rows are in the table and have bundles for the profile. */
  lemma PlannedActivates(cat: Catalog, profile: string, root: nat)
    requires LibraryHolds(cat) && Plan(cat, profile, root).Ok?
    ensures var plan := Plan(cat, profile, root).value;
            plan != [] && InTable(cat, plan) && Activates(cat, profile, plan) && plan[|plan| - 1].lib == root
  {
    PlanInstallsAll(cat, profile, root);
    var plan := Plan(cat, profile, root).value;
    forall k | 0 <= k < |plan| ensures plan[k].lib < |cat| && profile in cat[plan[k].lib].manifest.bundles {
      assert ItemInstallable(cat, profile, plan, k);
    }
  }

  // ---------------------------------------------------------------------------
  // Confirming an enable
  // ---------------------------------------------------------------------------

  /** An active grant of the workspace, of some version of the package. */
  predicate OfPackage(s: State, g: Grant, ws: Workspace, lib: nat)
    requires lib < |s.library|
  {
    && g.ws == ws && g.revokedAt.None? && g.lib < |s.library|
    && s.library[g.lib].manifest.id.stableId == s.library[lib].manifest.id.stableId
  }

  ghost predicate FirstOfPackage(s: State, ws: Workspace, lib: nat)
    requires lib < |s.library|
  {
    forall i :: 0 <= i < |s.grants| ==> !OfPackage(s, s.grants[i], ws, lib)
  }

  lemma FirstIff(s: State, ws: Workspace, lib: nat)
    requires lib < |s.library|
    ensures FirstOfPackage(s, ws, lib) <==>
            !StableEnabled(s.library, s.grants, ws, s.library[lib].manifest.id.stableId)
  {
    if !FirstOfPackage(s, ws, lib) {
      var i :| 0 <= i < |s.grants| && OfPackage(s, s.grants[i], ws, lib);
      assert Active(s.grants[i], ws);
    }
  }

  /** The request names a pending change, of that owner, in time, with its token. */
  ghost predicate Presented(s: State, op: Op)
    requires op.DoConfirm?
  {
    op.change < |s.changes| &&
    var c := s.changes[op.change];
    && c.ws.tenant == op.tenant && c.ws.owner == op.owner
    && !c.confirmed && s.clock < c.expiresAt
    && op.token != "" && op.token == c.token
  }

  /** Planning again gives what was reviewed. */
  ghost predicate StillReviewed(s: State, c: Change) {
    && c.ws in s.workers
    && Plan(s.library, s.workers[c.ws].profile, c.lib).Ok?
    && AsReviewed(s.library, Plan(s.library, s.workers[c.ws].profile, c.lib).value, c.scopes, c.plan)
  }

  /** The plan's bundles, merged onto a base one by one, pass their probes. */
  ghost predicate PassesOn(s: State, c: Change, base: Bundle)
    requires StillReviewed(s, c)
  {
    var plan := Plan(s.library, s.workers[c.ws].profile, c.lib).value;
    InTable(s.library, plan) && ProbesPass(s.library, s.workers[c.ws].profile, base, plan)
  }

  ghost predicate EnablePossible(s: State, c: Change) {
    && StillReviewed(s, c)
    && c.lib < |s.library| && FirstOfPackage(s, c.ws, c.lib)
    && PassesOn(s, c, s.workers[c.ws].bundle)
  }

  /** One more grant, for what was reviewed, over the base; the bundle is the plan merged onto it. */
  ghost predicate GrantAdded(s: State, t: State, c: Change, base: Bundle, kept: seq<Grant>, replaced: Option<nat>)
    requires StillReviewed(s, c)
  {
    var profile, planned := s.workers[c.ws].profile, Plan(s.library, s.workers[c.ws].profile, c.lib).value;
    && InTable(s.library, planned)
    && var merged := MergePlan(s.library, profile, base, planned);
       && t.library == s.library && t.clock == s.clock
       && t.workers == s.workers[c.ws := s.workers[c.ws].(bundle := merged)]
       && |t.grants| == |kept| + 1 && t.grants[..|kept|] == kept
       && var g := t.grants[|kept|];
          && g.ws == c.ws && g.lib == c.lib && g.scopes == c.scopes
          && g.prior == base && g.applied == merged && g.replaced == replaced
          && g.createdAt == s.clock && g.revokedAt == None
          && AsReviewed(s.library, g.plan, c.scopes, c.plan) && SameRows(g.plan, planned)
  }

  ghost predicate OnlyResolved(s: State, t: State, change: nat)
    requires change < |s.changes|
  {
    t.changes == s.changes[change := s.changes[change].(confirmed := true)]
  }

  lemma ConfirmReduces(s: State, op: Op)
    requires op.DoConfirm?
    ensures Outcome(s, op).Ok? <==>
            Presented(s, op) &&
            var c := s.changes[op.change];
            (if c.kind.SwitchAccount? then ApplySwitch(s, c, op.accountReady) else ApplyLibrary(s, c, s.clock)).Ok?
  {
  }

  lemma ReviewedScopes(s: State, c: Change)
    requires ChangeHolds(s, c) && !c.kind.SwitchAccount?
    ensures (if c.scopes == {} then s.library[c.lib].manifest.scopes else c.scopes) == c.scopes
    ensures c.(scopes := c.scopes) == c && c.scopes <= s.library[c.lib].manifest.scopes
  {
  }

  /** What applying a library change goes through, one guard after the other. */
  lemma ApplyStages(s: State, c: Change)
    requires c.lib < |s.library| && c.scopes <= s.library[c.lib].manifest.scopes
    requires c.scopes == {} ==> s.library[c.lib].manifest.scopes == {}
    ensures ApplyLibrary(s, c, s.clock).Ok? <==>
            && c.ws in s.workers
            && var planned := Plan(s.library, s.workers[c.ws].profile, c.lib);
               && planned.Ok?
               && var plan := WithRootScopes(planned.value, c.scopes);
                  && Snapshot(s.library, plan) == c.plan
                  && (c.kind.Enable? ==>
                    !StableEnabled(s.library, s.grants, c.ws, s.library[c.lib].manifest.id.stableId))
                  && InstallBase(s, c, plan).Ok?
                  && Install(s.library, s.workers[c.ws].profile, InstallBase(s, c, plan).value, plan).Ok?
  {
    assert c.(scopes := c.scopes) == c;
  }

  /** Scopes play no part in installing. */
  lemma RescopedInstalls(cat: Catalog, profile: string, base: Bundle, planned: seq<PlanItem>, scopes: set<string>)
    requires InTable(cat, planned) && Activates(cat, profile, planned) && planned != []
    ensures var plan := WithRootScopes(planned, scopes);
            && InTable(cat, plan)
            && (Install(cat, profile, base, plan).Ok? <==> ProbesPass(cat, profile, base, planned))
            && (ProbesPass(cat, profile, base, planned) ==>
                  Install(cat, profile, base, plan) == Ok(MergePlan(cat, profile, base, planned)))
  {
    var plan := WithRootScopes(planned, scopes);
    assert SameRows(planned, plan);
    SameRowsPass(cat, profile, base, planned, plan);
    SameRowsMerge(cat, profile, base, planned, plan);
    InstallIff(cat, profile, base, plan);
    if Install(cat, profile, base, plan).Ok? { InstallMerges(cat, profile, base, plan); }
  }

  /** Applying a reviewed change: what was reviewed still stands, a base is found, and the plan installs on it. */
  lemma ApplyReduces(s: State, c: Change)
    requires LibraryHolds(s.library) && ChangeHolds(s, c) && !c.kind.SwitchAccount?
    ensures ApplyLibrary(s, c, s.clock).Ok? <==>
            && StillReviewed(s, c)
            && (c.kind.Enable? ==> FirstOfPackage(s, c.ws, c.lib))
            && var plan := WithRootScopes(Plan(s.library, s.workers[c.ws].profile, c.lib).value, c.scopes);
               && InstallBase(s, c, plan).Ok? && PassesOn(s, c, InstallBase(s, c, plan).value)
  {
    ApplyStages(s, c);
    FirstIff(s, c.ws, c.lib);
    if c.ws in s.workers && Plan(s.library, s.workers[c.ws].profile, c.lib).Ok? {
      var profile, planned := s.workers[c.ws].profile, Plan(s.library, s.workers[c.ws].profile, c.lib).value;
      PlannedActivates(s.library, profile, c.lib);
      SnapshotIff(s.library, planned, c.scopes, c.plan);
      var plan := WithRootScopes(planned, c.scopes);
      if InstallBase(s, c, plan).Ok? {
        RescopedInstalls(s.library, profile, InstallBase(s, c, plan).value, planned, c.scopes);
      }
    }
  }

  /** What applying a reviewed change that can be applied leaves, from the base it was installed on. */
  lemma ApplyAdds(s: State, c: Change)
    requires Holds(s) && ChangeHolds(s, c) && !c.kind.SwitchAccount?
    requires StillReviewed(s, c) && ApplyLibrary(s, c, s.clock).Ok?
    ensures var t := ApplyLibrary(s, c, s.clock).value;
            && t.changes == s.changes
            && if c.kind.Upgrade? then
                 && c.kind.current < |s.grants|
                 && GrantAdded(s, t, c, s.grants[c.kind.current].prior, Revoked(s.grants, c.kind.current, s.clock),
                               Some(c.kind.current))
               else GrantAdded(s, t, c, s.workers[c.ws].bundle, s.grants, None)
  {
    var g := ApplyLibraryWrites(s, c);
    ReviewedScopes(s, c);
    assert g.scopes == c.scopes;
    var profile, planned := s.workers[c.ws].profile, Plan(s.library, s.workers[c.ws].profile, c.lib).value;
    PlannedActivates(s.library, profile, c.lib);
    RescopedInstalls(s.library, profile, g.prior, planned, c.scopes);
    UpgradeBase(s, c, g.plan);
    RescopedAsReviewed(s.library, planned, c.scopes, c.plan);
  }

  lemma RescopedAsReviewed(cat: Catalog, planned: seq<PlanItem>, scopes: set<string>, reviewed: seq<Reviewed>)
    requires planned != [] && AsReviewed(cat, planned, scopes, reviewed)
    ensures AsReviewed(cat, WithRootScopes(planned, scopes), scopes, reviewed)
    ensures SameRows(WithRootScopes(planned, scopes), planned)
  {
  }

  /**
   * An enable is confirmed exactly when its owner presents its token in time, planning still gives what was reviewed,
   * no grant of the package is active, and every prefix of the plan passes its probe; it leaves one new grant of it.
   */
  lemma EnableConfirmedIff(s: State, op: Op)
    requires Holds(s) && op.DoConfirm? && op.change < |s.changes| && s.changes[op.change].kind.Enable?
    ensures var c := s.changes[op.change];
            && (Outcome(s, op).Ok? <==> Presented(s, op) && EnablePossible(s, c))
            && (Outcome(s, op).Ok? ==>
                  && StillReviewed(s, c) && OnlyResolved(s, Outcome(s, op).value, op.change)
                  && GrantAdded(s, Outcome(s, op).value, c, s.workers[c.ws].bundle, s.grants, None))
  {
    var c := s.changes[op.change];
    assert ChangeHolds(s, c);
    ConfirmReduces(s, op);
    ApplyReduces(s, c);
    if Outcome(s, op).Ok? { ApplyAdds(s, c); }
  }

  // ---------------------------------------------------------------------------
  // Confirming an upgrade
  // ---------------------------------------------------------------------------

  /** A scope the grant holds itself or through anything it installed. */
  predicate HeldBy(g: Grant, scope: string) {
    scope in g.scopes || exists k :: 0 <= k < |g.plan| && scope in g.plan[k].scopes
  }

  /** Neither the item's scopes nor any dependency's go beyond what the grant holds. */
  predicate Narrows(g: Grant, scopes: set<string>, planned: seq<PlanItem>) {
    && scopes <= g.scopes
    && forall k, x :: 0 <= k < |planned| - 1 && x in planned[k].scopes ==> HeldBy(g, x)
  }

  lemma NarrowsIff(g: Grant, scopes: set<string>, planned: seq<PlanItem>)
    requires planned != []
    ensures WideningObjection(g, scopes, WithRootScopes(planned, scopes)).None? <==> Narrows(g, scopes, planned)
  {
    var plan := WithRootScopes(planned, scopes);
    if scopes <= g.scopes && PlanScopes(plan) <= ScopeUnion(g) {
      forall k, x | 0 <= k < |planned| - 1 && x in planned[k].scopes ensures HeldBy(g, x) {
        assert x in plan[k].scopes;
        assert x in PlanScopes(plan);
      }
    }
    if Narrows(g, scopes, planned) {
      forall x | x in PlanScopes(plan) ensures x in ScopeUnion(g) {
        var k :| 0 <= k < |plan| && x in plan[k].scopes;
        if k < |planned| - 1 { assert x in planned[k].scopes; }
        assert HeldBy(g, x);
      }
    }
  }

  /** An active grant of the workspace and the package, with no active grant of the workspace after it. */
  ghost predicate Replaceable(s: State, ws: Workspace, current: nat, lib: nat)
    requires lib < |s.library|
  {
    && current < |s.grants| && s.grants[current].lib < |s.library|
    && s.grants[current].ws == ws && s.grants[current].revokedAt.None?
    && s.library[s.grants[current].lib].manifest.id.stableId == s.library[lib].manifest.id.stableId
    && LastActive(s.grants, ws, current)
  }

  ghost predicate LastActive(grants: seq<Grant>, ws: Workspace, current: nat) {
    forall i :: current < i < |grants| && grants[i].ws == ws ==> grants[i].revokedAt.Some?
  }

  lemma ReplaceableIff(s: State, ws: Workspace, current: nat, lib: nat)
    requires GrantsHold(s) && lib < |s.library|
    ensures Replaceable(s, ws, current, lib) <==>
            TargetObjection(s, ws, current, lib).None? && Newest(s.grants, ws) == Some(current)
  {
    NewestIsLastActive(s.grants, ws);
    if Replaceable(s, ws, current, lib) { assert Active(s.grants[current], ws); }
    if Newest(s.grants, ws) == Some(current) {
      forall i | current < i < |s.grants| && s.grants[i].ws == ws ensures s.grants[i].revokedAt.Some? {
        assert !Active(s.grants[i], ws);
      }
    }
  }

  ghost predicate UpgradePossible(s: State, c: Change)
    requires c.kind.Upgrade?
  {
    && StillReviewed(s, c)
    && c.lib < |s.library| && Replaceable(s, c.ws, c.kind.current, c.lib)
    && var g := s.grants[c.kind.current];
       && s.workers[c.ws].bundle == g.applied
       && Narrows(g, c.scopes, Plan(s.library, s.workers[c.ws].profile, c.lib).value)
       && PassesOn(s, c, g.prior)
  }

  lemma UpgradeBaseIff(s: State, c: Change, planned: seq<PlanItem>)
    requires GrantsHold(s) && c.kind.Upgrade? && c.ws in s.workers && c.lib < |s.library| && planned != []
    ensures var base := InstallBase(s, c, WithRootScopes(planned, c.scopes));
            && (base.Ok? <==>
                  && Replaceable(s, c.ws, c.kind.current, c.lib)
                  && s.workers[c.ws].bundle == s.grants[c.kind.current].applied
                  && Narrows(s.grants[c.kind.current], c.scopes, planned))
            && (base.Ok? ==> base.value == s.grants[c.kind.current].prior)
  {
    ReplaceableIff(s, c.ws, c.kind.current, c.lib);
    if c.kind.current < |s.grants| { NarrowsIff(s.grants[c.kind.current], c.scopes, planned); }
  }

  /**
   * An upgrade is confirmed exactly when, beside that, its target is the workspace's newest active grant and of the
   * package, the bundle is as the target left it, no scope widens, and the probes pass on the target's rollback state.
   */
  lemma UpgradeConfirmedIff(s: State, op: Op)
    requires Holds(s) && op.DoConfirm? && op.change < |s.changes| && s.changes[op.change].kind.Upgrade?
    ensures var c := s.changes[op.change]; var current := c.kind.current;
            && (Outcome(s, op).Ok? <==> Presented(s, op) && UpgradePossible(s, c))
            && (Outcome(s, op).Ok? ==>
                  && StillReviewed(s, c) && OnlyResolved(s, Outcome(s, op).value, op.change)
                  && current < |s.grants|
                  && GrantAdded(s, Outcome(s, op).value, c, s.grants[current].prior,
                                s.grants[current := s.grants[current].(revokedAt := Some(s.clock))], Some(current)))
  {
    var c := s.changes[op.change];
    assert ChangeHolds(s, c);
    ConfirmReduces(s, op);
    ApplyReduces(s, c);
    if StillReviewed(s, c) {
      var planned := Plan(s.library, s.workers[c.ws].profile, c.lib).value;
      PlannedActivates(s.library, s.workers[c.ws].profile, c.lib);
      UpgradeBaseIff(s, c, planned);
    }
    if Outcome(s, op).Ok? { ApplyAdds(s, c); }
  }

  // ---------------------------------------------------------------------------
  // Confirming an account switch
  // ---------------------------------------------------------------------------

  /** An account switch is confirmed exactly when the account is ready; the selection is all it changes. */
  lemma SwitchConfirmedIff(s: State, op: Op)
    requires Holds(s) && op.DoConfirm? && op.change < |s.changes| && s.changes[op.change].kind.SwitchAccount?
    ensures var c := s.changes[op.change];
            && (Outcome(s, op).Ok? <==> Presented(s, op) && c.ws in s.workers && op.accountReady)
            && (Outcome(s, op).Ok? ==>
                  && var t := Outcome(s, op).value;
                  && OnlyResolved(s, t, op.change)
                  && t.library == s.library && t.grants == s.grants && t.clock == s.clock
                  && t.workers.Keys == s.workers.Keys
                  && (forall ws :: ws in s.workers && ws != c.ws ==> t.workers[ws] == s.workers[ws])
                  && t.workers[c.ws].profile == s.workers[c.ws].profile
                  && t.workers[c.ws].copied == s.workers[c.ws].copied
                  && SwitchedTo(s.workers[c.ws].bundle, t.workers[c.ws].bundle, c.kind.selection))
  {
  }

  /** A switch is reviewed for any workspace there is; the account tables are looked at when it is confirmed. */
  lemma SwitchPreparedIff(s: State, op: Op)
    requires op.DoPrepareSwitch?
    ensures var r := Outcome(s, op);
            && (r.Ok? <==> op.ws in s.workers)
            && (r.Ok? ==>
                  && |r.value.changes| == |s.changes| + 1
                  && var c := r.value.changes[|s.changes|];
                     && r.value == s.(changes := s.changes + [c])
                     && c.ws == op.ws && c.kind == SwitchAccount(op.selection) && c.token == op.token && !c.confirmed
                     && c.expiresAt == s.clock + (if op.ttl < 60 then 60 else if op.ttl > 1800 then 1800 else op.ttl))
  {
  }

  /** The selection under its key, and every other key as it was. */
  ghost predicate SwitchedTo(before: Bundle, after: Bundle, selection: Json) {
    && after.Keys == before.Keys + {"provider_account"} && after["provider_account"] == selection
    && forall k :: k in before && k != "provider_account" ==> after[k] == before[k]
  }

  // ---------------------------------------------------------------------------
  // Preparing a library change
  // ---------------------------------------------------------------------------

  /** The scopes that came along with a copied workspace's review of the row, if any. */
  function CopiedScopes(s: State, ws: Workspace, lib: nat): Option<set<string>> {
    if ws in s.workers && lib in s.workers[ws].copied then Some(s.workers[ws].copied[lib]) else None
  }

  /** The scopes a request is for: the copied ones, else those asked for, else all the manifest allows. */
  function Chosen(copied: Option<set<string>>, requested: set<string>, allowed: set<string>): set<string> {
    if copied.Some? && copied.value != {} then copied.value else if requested != {} then requested else allowed
  }

  /** A copied review must still fit the manifest and be asked for as it is; any other request must fit the manifest. */
  predicate Permitted(copied: Option<set<string>>, requested: set<string>, allowed: set<string>) {
    match copied
    case None => requested <= allowed
    case Some(scopes) => scopes <= allowed && (requested == {} || requested == scopes)
  }

  lemma PermittedIff(worker: Worker, lib: nat, allowed: set<string>, requested: set<string>)
    ensures var copied := if lib in worker.copied then Some(worker.copied[lib]) else None;
            var r := RequestedScopes(worker, lib, allowed, requested);
            && (r.Ok? <==> Permitted(copied, requested, allowed))
            && (r.Ok? ==> r.value == Chosen(copied, requested, allowed))
  {
  }

  /** Planning finds the row, no active grant stands in the way of an enable, and one to replace is there to upgrade. */
  ghost predicate Proposable(s: State, op: Op)
    requires op.DoPrepare?
  {
    && !op.kind.SwitchAccount? && op.ws in s.workers && op.lib < |s.library|
    && Plan(s.library, s.workers[op.ws].profile, op.lib).Ok?
    && (op.kind.Enable? ==> FirstOfPackage(s, op.ws, op.lib))
  }

  /** What only an upgrade is reviewed for: its target is replaceable, older, and no narrower. */
  ghost predicate Improves(s: State, op: Op, scopes: set<string>, planned: seq<PlanItem>)
    requires op.DoPrepare? && op.lib < |s.library|
  {
    op.kind.Upgrade? ==>
      && Replaceable(s, op.ws, op.kind.current, op.lib)
      && IsNewer(s.library, op.lib, s.grants[op.kind.current].lib)
      && Narrows(s.grants[op.kind.current], scopes, planned)
  }

  lemma ImprovesIff(s: State, op: Op, scopes: set<string>, planned: seq<PlanItem>)
    requires GrantsHold(s) && op.DoPrepare? && op.lib < |s.library| && planned != []
    ensures ReviewObjection(s, op.ws, op.kind, op.lib, scopes, WithRootScopes(planned, scopes)).None? <==>
            Improves(s, op, scopes, planned)
  {
    if op.kind.Upgrade? {
      ReplaceableIff(s, op.ws, op.kind.current, op.lib);
      if op.kind.current < |s.grants| { NarrowsIff(s.grants[op.kind.current], scopes, planned); }
    }
  }

  /** The change a request is reviewed as. */
  ghost predicate ReviewedAs(s: State, op: Op, c: Change)
    requires op.DoPrepare? && Proposable(s, op)
  {
    && c.ws == op.ws && c.kind == op.kind && c.lib == op.lib && c.token == op.token && !c.confirmed
    && c.scopes == Chosen(CopiedScopes(s, op.ws, op.lib), op.requested, s.library[op.lib].manifest.scopes)
    && c.expiresAt == s.clock + (if op.ttl < 60 then 60 else if op.ttl > 1800 then 1800 else op.ttl)
    && AsReviewed(s.library, Plan(s.library, s.workers[op.ws].profile, op.lib).value, c.scopes, c.plan)
  }

  /** What preparing goes through once the plan is there, one guard after the other. */
  lemma PrepareStages(s: State, op: Op, planned: seq<PlanItem>)
    requires op.DoPrepare? && !op.kind.SwitchAccount? && op.ws in s.workers && op.lib < |s.library| && planned != []
    requires Plan(s.library, s.workers[op.ws].profile, op.lib) == Ok(planned)
    ensures var scopes := RequestedScopes(s.workers[op.ws], op.lib, s.library[op.lib].manifest.scopes, op.requested);
            if op.kind.Enable? && StableEnabled(s.library, s.grants, op.ws, s.library[op.lib].manifest.id.stableId) then
              Outcome(s, op) == Err(AlreadyEnabled)
            else if scopes.Err? then Outcome(s, op) == Err(scopes.error)
            else
              var plan := WithRootScopes(planned, scopes.value);
              var objection := ReviewObjection(s, op.ws, op.kind, op.lib, scopes.value, plan);
              if objection.Some? then Outcome(s, op) == Err(objection.value)
              else
                Outcome(s, op) == Ok(s.(changes := s.changes + [Change(op.ws, op.kind, op.lib, scopes.value,
                  Snapshot(s.library, plan), op.token, s.clock + Lifetime(op.ttl), false)]))
  {
  }

  lemma ObjectionKinds(s: State, ws: Workspace, kind: Kind, lib: nat, scopes: set<string>, plan: seq<PlanItem>)
    requires lib < |s.library|
    ensures var r := ReviewObjection(s, ws, kind, lib, scopes, plan);
            r.Some? ==> !r.value.CopiedReviewChanged? && !r.value.CopiedReviewExact? && !r.value.ScopesTooWide?
  {
  }

  lemma Unplanned(s: State, op: Op)
    requires op.DoPrepare?
    requires op.kind.SwitchAccount? || op.ws !in s.workers || Plan(s.library, s.workers[op.ws].profile, op.lib).Err?
    ensures Outcome(s, op).Err?
  {
  }

  /** The scopes asked for may be granted, and an upgrade with them is one. */
  ghost predicate Allowable(s: State, op: Op)
    requires op.DoPrepare? && Proposable(s, op)
  {
    var allowed, copied := s.library[op.lib].manifest.scopes, CopiedScopes(s, op.ws, op.lib);
    && Permitted(copied, op.requested, allowed)
    && Improves(s, op, Chosen(copied, op.requested, allowed), Plan(s.library, s.workers[op.ws].profile, op.lib).value)
  }

  lemma PreparedWhenPlanned(s: State, op: Op, planned: seq<PlanItem>)
    requires LibraryHolds(s.library) && GrantsHold(s) && op.DoPrepare? && !op.kind.SwitchAccount? && op.ws in s.workers
    requires Plan(s.library, s.workers[op.ws].profile, op.lib) == Ok(planned)
    ensures Outcome(s, op).Ok? <==> Proposable(s, op) && Allowable(s, op)
  {
    PlannedActivates(s.library, s.workers[op.ws].profile, op.lib);
    PrepareStages(s, op, planned);
    FirstIff(s, op.ws, op.lib);
    var allowed, copied := s.library[op.lib].manifest.scopes, CopiedScopes(s, op.ws, op.lib);
    PermittedIff(s.workers[op.ws], op.lib, allowed, op.requested);
    ImprovesIff(s, op, Chosen(copied, op.requested, allowed), planned);
  }

  lemma PreparedAs(s: State, op: Op, planned: seq<PlanItem>)
    requires LibraryHolds(s.library) && op.DoPrepare? && Proposable(s, op) && Outcome(s, op).Ok?
    requires Plan(s.library, s.workers[op.ws].profile, op.lib) == Ok(planned)
    ensures |Outcome(s, op).value.changes| == |s.changes| + 1
    ensures Outcome(s, op).value == s.(changes := s.changes + [Outcome(s, op).value.changes[|s.changes|]])
    ensures ReviewedAs(s, op, Outcome(s, op).value.changes[|s.changes|])
  {
    PlannedActivates(s.library, s.workers[op.ws].profile, op.lib);
    PrepareStages(s, op, planned);
    var allowed, copied := s.library[op.lib].manifest.scopes, CopiedScopes(s, op.ws, op.lib);
    PermittedIff(s.workers[op.ws], op.lib, allowed, op.requested);
    var scopes := Chosen(copied, op.requested, allowed);
    SnapshotIff(s.library, planned, scopes, Snapshot(s.library, WithRootScopes(planned, scopes)));
  }

  /** Which library requests are reviewed, and as what; nothing else changes. */
  lemma PreparedIff(s: State, op: Op)
    requires Holds(s) && op.DoPrepare?
    ensures Outcome(s, op).Ok? <==> Proposable(s, op) && Allowable(s, op)
    ensures Outcome(s, op).Ok? ==> |Outcome(s, op).value.changes| == |s.changes| + 1
    ensures Outcome(s, op).Ok? ==>
              && Outcome(s, op).value == s.(changes := s.changes + [Outcome(s, op).value.changes[|s.changes|]])
              && ReviewedAs(s, op, Outcome(s, op).value.changes[|s.changes|])
  {
    if op.kind.SwitchAccount? || op.ws !in s.workers || Plan(s.library, s.workers[op.ws].profile, op.lib).Err? {
      Unplanned(s, op);
    } else {
      var planned := Plan(s.library, s.workers[op.ws].profile, op.lib).value;
      PreparedWhenPlanned(s, op, planned);
      if Outcome(s, op).Ok? { PreparedAs(s, op, planned); }
    }
  }

  /** Why the scopes of an otherwise proposable request are refused. */
  lemma ScopesRefusedIff(s: State, op: Op)
    requires Holds(s) && op.DoPrepare? && Proposable(s, op)
    ensures var allowed, copied := s.library[op.lib].manifest.scopes, CopiedScopes(s, op.ws, op.lib);
            && (Outcome(s, op) == Err(CopiedReviewChanged) <==> copied.Some? && !(copied.value <= allowed))
            && (Outcome(s, op) == Err(CopiedReviewExact) <==>
                  copied.Some? && copied.value <= allowed && op.requested != {} && op.requested != copied.value)
            && (Outcome(s, op) == Err(ScopesTooWide) <==> copied.None? && !(op.requested <= allowed))
  {
    var planned := Plan(s.library, s.workers[op.ws].profile, op.lib).value;
    PlannedActivates(s.library, s.workers[op.ws].profile, op.lib);
    PrepareStages(s, op, planned);
    FirstIff(s, op.ws, op.lib);
    var scopes := RequestedScopes(s.workers[op.ws], op.lib, s.library[op.lib].manifest.scopes, op.requested);
    if scopes.Ok? {
      ObjectionKinds(s, op.ws, op.kind, op.lib, scopes.value, WithRootScopes(planned, scopes.value));
    }
  }

  // ---------------------------------------------------------------------------
  // From request to grant
  // ---------------------------------------------------------------------------

  /** The request that confirms a change of the workspace with its token. */
  function Confirming(op: Op, change: nat, accountReady: bool): Op
    requires op.DoPrepare?
  {
    DoConfirm(change, op.ws.tenant, op.ws.owner, op.token, accountReady)
  }

  /** What a change just reviewed still has to find: for an upgrade the bundle its target left, and passing probes. */
  ghost predicate FitsNow(s: State, op: Op)
    requires op.DoPrepare? && Proposable(s, op)
  {
    var profile, planned := s.workers[op.ws].profile, Plan(s.library, s.workers[op.ws].profile, op.lib).value;
    && InTable(s.library, planned)
    && if op.kind.Upgrade? then
         && op.kind.current < |s.grants|
         && s.workers[op.ws].bundle == s.grants[op.kind.current].applied
         && ProbesPass(s.library, profile, s.grants[op.kind.current].prior, planned)
       else ProbesPass(s.library, profile, s.workers[op.ws].bundle, planned)
  }

  /** Some time after a request was reviewed as `c`, with no other step in between. */
  ghost predicate Stands(s: State, op: Op, u: State, c: Change, elapsed: nat)
    requires op.DoPrepare?
  {
    && Proposable(s, op) && ReviewedAs(s, op, c)
    && u == s.(changes := s.changes + [c], clock := s.clock + elapsed)
    && Improves(s, op, c.scopes, Plan(s.library, s.workers[op.ws].profile, op.lib).value)
  }

  /** The token says something and the change has not expired. */
  predicate InTime(op: Op, elapsed: nat)
    requires op.DoPrepare?
  {
    op.token != "" && elapsed < if op.ttl < 60 then 60 else if op.ttl > 1800 then 1800 else op.ttl
  }

  lemma PresentedIff(s: State, op: Op, u: State, c: Change, elapsed: nat, accountReady: bool)
    requires op.DoPrepare? && Stands(s, op, u, c, elapsed)
    ensures Presented(u, Confirming(op, |s.changes|, accountReady)) <==> InTime(op, elapsed)
  {
  }

  lemma EnableStands(s: State, op: Op, u: State, c: Change, elapsed: nat)
    requires op.DoPrepare? && op.kind.Enable? && Stands(s, op, u, c, elapsed)
    ensures EnablePossible(u, c) <==> FitsNow(s, op)
  {
    forall i | 0 <= i < |u.grants| ensures !OfPackage(u, u.grants[i], c.ws, c.lib) {
      assert !OfPackage(s, s.grants[i], op.ws, op.lib);
    }
  }

  lemma UpgradeStands(s: State, op: Op, u: State, c: Change, elapsed: nat)
    requires op.DoPrepare? && op.kind.Upgrade? && Stands(s, op, u, c, elapsed)
    ensures UpgradePossible(u, c) <==> FitsNow(s, op)
  {
  }

  lemma StandsConfirms(s: State, op: Op, u: State, c: Change, elapsed: nat, accountReady: bool)
    requires op.DoPrepare? && Stands(s, op, u, c, elapsed) && Holds(u)
    ensures Outcome(u, Confirming(op, |s.changes|, accountReady)).Ok? <==> InTime(op, elapsed) && FitsNow(s, op)
  {
    var confirm := Confirming(op, |s.changes|, accountReady);
    assert u.changes[confirm.change] == c;
    PresentedIff(s, op, u, c, elapsed, accountReady);
    if op.kind.Upgrade? {
      UpgradeStands(s, op, u, c, elapsed);
      UpgradeConfirmedIff(u, confirm);
    } else {
      EnableStands(s, op, u, c, elapsed);
      EnableConfirmedIff(u, confirm);
    }
  }

  /** The review leaves such a state, whenever it is looked at. */
  lemma ReviewStands(s: State, op: Op, elapsed: nat) returns (u: State, c: Change)
    requires Holds(s) && op.DoPrepare? && Outcome(s, op).Ok?
    ensures u == Outcome(s, op).value.(clock := s.clock + elapsed)
    ensures Stands(s, op, u, c, elapsed) && Holds(u)
  {
    PreparedIff(s, op);
    OutcomeKeeps(s, op);
    var t := Outcome(s, op).value;
    c := t.changes[|s.changes|];
    u := t.(clock := s.clock + elapsed);
    ClockKeeps(t, u.clock);
  }

  /**
   * Confirmed next, a change just reviewed goes through exactly when its token says something, it is still in time,
   * and the probes pass (for an upgrade, with the bundle as its target left it).
   */
  lemma PrepareThenConfirm(s: State, op: Op, elapsed: nat, accountReady: bool) returns (u: State)
    requires Holds(s) && op.DoPrepare? && Outcome(s, op).Ok?
    ensures u == Outcome(s, op).value.(clock := s.clock + elapsed)
    ensures Proposable(s, op)
    ensures Outcome(u, Confirming(op, |s.changes|, accountReady)).Ok? <==> InTime(op, elapsed) && FitsNow(s, op)
  {
    var c;
    u, c := ReviewStands(s, op, elapsed);
    StandsConfirms(s, op, u, c, elapsed, accountReady);
  }

  /** The grant a confirmed library change adds. */
  lemma ConfirmGrants(s: State, op: Op)
    requires Holds(s) && op.DoConfirm? && Outcome(s, op).Ok? && !s.changes[op.change].kind.SwitchAccount?
    ensures var c, t := s.changes[op.change], Outcome(s, op).value;
            && |t.grants| == |s.grants| + 1
            && var g := t.grants[|s.grants|];
               && g.ws == c.ws && g.lib == c.lib && g.scopes == c.scopes
               && g.replaced == if c.kind.Upgrade? then Some(c.kind.current) else None
  {
    if s.changes[op.change].kind.Upgrade? {
      UpgradeConfirmedIff(s, op);
    } else {
      EnableConfirmedIff(s, op);
    }
  }

  /** However much happens in between, a confirmed request is granted for the scopes it resolved to when reviewed. */
  lemma GrantedAsRequested(states: seq<State>, events: seq<Event>, m: nat, n: nat)
    requires Reachable(states, events) && m < n < |events|
    requires events[m].op.DoPrepare? && Succeeds(states[m], events[m])
    requires Confirms(states, events, n, |states[m].changes|)
    ensures var op, g := events[m].op, |states[n].grants|;
            && op.lib < |states[m].library|
            && |states[n + 1].grants| == g + 1
            && var grant := states[n + 1].grants[g];
               && grant.ws == op.ws && grant.lib == op.lib
               && grant.replaced == (if op.kind.Upgrade? then Some(op.kind.current) else None)
               && var allowed := states[m].library[op.lib].manifest.scopes;
                  grant.scopes == Chosen(CopiedScopes(states[m], op.ws, op.lib), op.requested, allowed)
  {
    EmptyHolds();
    ReachableHolds(states, events, m);
    ReachableHolds(states, events, n);
    assert Step(states[m], events[m], states[m + 1]);
    assert Step(states[n], events[n], states[n + 1]);
    var s, op := Tick(states[m], events[m]), events[m].op;
    ClockKeeps(states[m], s.clock);
    PreparedIff(s, op);
    var c := |states[m].changes|;
    RunGrows(states, events, m + 1, n);
    assert SameChange(states[m + 1].changes[c], states[n].changes[c]);
    var t := Tick(states[n], events[n]);
    ClockKeeps(states[n], t.clock);
    ConfirmGrants(t, events[n].op);
  }
}
