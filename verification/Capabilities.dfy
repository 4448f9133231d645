/** The capability control plane as a state and its operations: each one transaction, applied whole or refused. */
module Capabilities {
  import opened Prelude
  import opened Strings
  import opened Bundles
  import opened SemanticVersions
  import opened Library
  import opened InstallPlan

  /** A workspace as every query names it; a row of another tenant or owner is no row at all. */
  datatype Workspace = Workspace(tenant: string, owner: string, worker: string)

  /** `copied` holds the scopes of library items whose review came along with a workspace copy. */
  datatype Worker = Worker(profile: string, bundle: Bundle, copied: map<nat, set<string>>)

  /** A grant row; its position in the append-only table is its id and its rowid. */
  datatype Grant = Grant(
    ws: Workspace,
    lib: nat,
    scopes: set<string>,
    prior: Bundle,
    applied: Bundle,
    plan: seq<PlanItem>,
    replaced: Option<nat>,
    createdAt: nat,
    revokedAt: Option<nat>)

  datatype Kind = Enable | Upgrade(current: nat) | SwitchAccount(selection: Json)

  /** What was reviewed of one planned item: the row, its manifest, and the scopes. */
  datatype Reviewed = Reviewed(lib: nat, manifest: Manifest, scopes: set<string>)

  datatype Change = Change(
    ws: Workspace,
    kind: Kind,
    lib: nat,
    scopes: set<string>,
    plan: seq<Reviewed>,
    token: string,
    expiresAt: nat,
    confirmed: bool)

  datatype State = State(
    library: Catalog,
    workers: map<Workspace, Worker>,
    grants: seq<Grant>,
    changes: seq<Change>,
    clock: nat)

  const Empty := State([], map[], [], [], 0)

  datatype Refusal =
    | InvalidManifest | PublishedDifferently | DependencyMissing | DependencyProfiles | DependencyScopes
    | ReasonRequired | NoSuchItem | RemovedIsFinal | StillGranted | RequiredByDependent
    | NoSuchWorkspace | CannotPlan(why: PlanError) | AlreadyEnabled | CopiedReviewChanged | CopiedReviewExact
    | ScopesTooWide | NoSuchGrant | OtherStableId | NotNewer | NotNewest | WidensScopes | WidensUnion
    | NoSuchChange | AlreadyResolved | Expired | BadToken | ReviewStale | EditedSince | ProbeFailed | AccountNotReady

  const ACCOUNT := "provider_account"

  // ---------------------------------------------------------------------------
  // Library
  // ---------------------------------------------------------------------------

  function SameVersion(cat: Catalog, id: Identity): (r: Option<nat>)
    ensures r.Some? ==>
      r.value < |cat| && cat[r.value].manifest.id.stableId == id.stableId &&
        cat[r.value].manifest.id.version == id.version
    ensures r.None? ==> forall i :: 0 <= i < |cat| ==>
      !(cat[i].manifest.id.stableId == id.stableId && cat[i].manifest.id.version == id.version)
  {
    if cat == [] then None
    else
      var n := |cat| - 1;
      if cat[n].manifest.id.stableId == id.stableId && cat[n].manifest.id.version == id.version then Some(n)
      else SameVersion(cat[..n], id)
  }

  /** The first objection to a manifest's dependencies from number `d` on. */
  function PinObjection(cat: Catalog, m: Manifest, d: nat): Option<Refusal>
    requires d <= |m.dependencies|
    decreases |m.dependencies| - d
  {
    if d == |m.dependencies| then None
    else
      var dep := m.dependencies[d];
      var row := FindAvailable(cat, dep.id);
      if row.None? then Some(DependencyMissing)
      else if !(m.profiles <= cat[row.value].manifest.profiles) then Some(DependencyProfiles)
      else if !(dep.scopes <= cat[row.value].manifest.scopes) then Some(DependencyScopes)
      else PinObjection(cat, m, d + 1)
  }

  /** `register_library_item`: publishing the same manifest again is a no-op. */
  function Publish(s: State, m: Manifest): Result<State, Refusal> {
    if !Acceptable(m) then Err(InvalidManifest)
    else
      var existing := SameVersion(s.library, m.id);
      if existing.Some? then
        if s.library[existing.value].manifest == m then Ok(s) else Err(PublishedDifferently)
      else
        var objection := PinObjection(s.library, m, 0);
        if objection.Some? then Err(objection.value)
        else Ok(s.(library := s.library + [Row(m, Available)]))
  }

  /** The restore check: a work list over pinned dependencies, every one of which must be available. */
  function RestoreAllowed(cat: Catalog, pending: seq<Dependency>, seen: set<Identity>): bool
    decreases Identities(cat) - seen, |pending|
  {
    if pending == [] then true
    else if pending[0].id in seen then RestoreAllowed(cat, pending[1..], seen)
    else
      var row := FindAvailable(cat, pending[0].id);
      if row.None? then false
      else
        assert pending[0].id in Identities(cat);
        RestoreAllowed(cat, pending[1..] + cat[row.value].manifest.dependencies, seen + {pending[0].id})
  }

  predicate Active(g: Grant, ws: Workspace) {
    g.ws == ws && g.revokedAt.None?
  }

  predicate Granted(grants: seq<Grant>, lib: nat) {
    exists i :: 0 <= i < |grants| && grants[i].lib == lib && grants[i].revokedAt.None?
  }

  /** An available row other than `lib` pins it. */
  predicate RequiredByOther(cat: Catalog, lib: nat)
    requires lib < |cat|
  {
    exists i, d :: 0 <= i < |cat| && i != lib && cat[i].status == Available && 0 <= d < |cat[i].manifest.dependencies|
      && cat[i].manifest.dependencies[d].id == cat[lib].manifest.id
  }

  /** `update_library_status`. */
  function SetStatus(s: State, lib: nat, status: Status, reason: string): Result<State, Refusal> {
    if status != Available && Trim(reason) == "" then Err(ReasonRequired)
    else if lib >= |s.library| then Err(NoSuchItem)
    else
      var row := s.library[lib];
      if row.status == Removed && status != Removed then Err(RemovedIsFinal)
      else if row.status == status then Ok(s)
      else if status == Available &&
        !RestoreAllowed(s.library, row.manifest.dependencies, {}) then Err(DependencyMissing)
      else if status != Available && Granted(s.grants, lib) then Err(StillGranted)
      else if status != Available && RequiredByOther(s.library, lib) then Err(RequiredByDependent)
      else Ok(s.(library := s.library[lib := row.(status := status)]))
  }

  // ---------------------------------------------------------------------------
  // Grants of a workspace
  // ---------------------------------------------------------------------------

  /** The active grant that is last by creation time, then by rowid. */
  function Newest(grants: seq<Grant>, ws: Workspace): (r: Option<nat>)
    ensures r.Some? ==> r.value < |grants| && Active(grants[r.value], ws)
  {
    if grants == [] then None
    else
      var n := |grants| - 1;
      var before := Newest(grants[..n], ws);
      if Active(grants[n], ws) && (before.None? || grants[before.value].createdAt <= grants[n].createdAt) then Some(n)
        else before
  }

  predicate StableEnabled(cat: Catalog, grants: seq<Grant>, ws: Workspace, stableId: string) {
    exists i :: 0 <= i < |grants| && Active(grants[i], ws) && grants[i].lib < |cat| &&
      cat[grants[i].lib].manifest.id.stableId == stableId
  }

  function PlanScopes(plan: seq<PlanItem>): set<string> {
    set k, x | 0 <= k < |plan| && x in plan[k].scopes :: x
  }

  /** `_grant_scope_union`: the grant's own scopes and those of everything it installed. */
  function ScopeUnion(g: Grant): set<string> {
    g.scopes + PlanScopes(g.plan)
  }

  function WithRootScopes(plan: seq<PlanItem>, scopes: set<string>): seq<PlanItem>
    requires plan != []
  {
    plan[|plan| - 1 := plan[|plan| - 1].(scopes := scopes)]
  }

  function Snapshot(cat: Catalog, plan: seq<PlanItem>): seq<Reviewed>
    requires forall k :: 0 <= k < |plan| ==> plan[k].lib < |cat|
  {
    seq(|plan|, k requires 0 <= k < |plan| => Reviewed(plan[k].lib, cat[plan[k].lib].manifest, plan[k].scopes))
  }

  /** The grant to replace must be an active grant of this workspace, of the same package. */
  function TargetObjection(s: State, ws: Workspace, current: nat, lib: nat): (r: Option<Refusal>)
    requires lib < |s.library|
    ensures r.None? ==> current < |s.grants| && Active(s.grants[current], ws) && s.grants[current].lib < |s.library|
    ensures r.None? ==> s.library[s.grants[current].lib].manifest.id.stableId == s.library[lib].manifest.id.stableId
  {
    if current >= |s.grants| || !Active(s.grants[current], ws) ||
      s.grants[current].lib >= |s.library| then Some(NoSuchGrant)
    else if s.library[s.grants[current].lib].manifest.id.stableId != s.library[lib].manifest.id.stableId then
      Some(OtherStableId)
    else None
  }

  /** An upgrade may not widen the workspace's scopes, nor the union over everything installed. */
  function WideningObjection(g: Grant, scopes: set<string>, plan: seq<PlanItem>): Option<Refusal> {
    if !(scopes <= g.scopes) then Some(WidensScopes)
    else if !(PlanScopes(plan) <= ScopeUnion(g)) then Some(WidensUnion)
    else None
  }

  predicate IsNewer(cat: Catalog, lib: nat, old_: nat)
    requires lib < |cat| && old_ < |cat|
  {
    var v, w := cat[lib].manifest.id.version, cat[old_].manifest.id.version;
    IsVersion(v) && IsVersion(w) && Compare(v, w) > 0
  }

  // ---------------------------------------------------------------------------
  // Review, then confirm
  // ---------------------------------------------------------------------------

  function Lifetime(ttl: int): (r: nat)
    ensures 60 <= r <= 1800
  {
    if ttl < 60 then 60 else if ttl > 1800 then 1800 else ttl
  }

  /** The scopes a request resolves to: a copied review fixes them, an empty request means all. */
  function RequestedScopes(worker: Worker, lib: nat, allowed: set<string>, requested: set<string>)
    : Result<set<string>, Refusal>
  {
    if lib in worker.copied && !(worker.copied[lib] <= allowed) then Err(CopiedReviewChanged)
    else if lib in worker.copied && requested != {} && requested != worker.copied[lib] then Err(CopiedReviewExact)
    else
      var asked := if lib in worker.copied then worker.copied[lib] else requested;
      if !(asked <= allowed) then Err(ScopesTooWide)
      else Ok(if asked == {} then allowed else asked)
  }

  /** The checks an upgrade must pass to be reviewed; only here are the versions compared. */
  function ReviewObjection(s: State, ws: Workspace, kind: Kind, lib: nat, scopes: set<string>,
      plan: seq<PlanItem>): Option<Refusal>
    requires lib < |s.library|
  {
    if !kind.Upgrade? then None
    else
      var target := TargetObjection(s, ws, kind.current, lib);
      if target.Some? then target
      else if !IsNewer(s.library, lib, s.grants[kind.current].lib) then Some(NotNewer)
      else if Newest(s.grants, ws) != Some(kind.current) then Some(NotNewest)
      else WideningObjection(s.grants[kind.current], scopes, plan)
  }

  /** `create_pending_change` for a library item. */
  function PrepareLibrary(s: State, ws: Workspace, kind: Kind, lib: nat, requested: set<string>, ttl: int,
      token: string, now: nat)
    : Result<State, Refusal>
  {
    if ws !in s.workers then Err(NoSuchWorkspace)
    else
      var worker := s.workers[ws];
      var planned := Plan(s.library, worker.profile, lib);
      if planned.Err? then Err(CannotPlan(planned.error))
      else
        var manifest := s.library[lib].manifest;
        if kind.Enable? && StableEnabled(s.library, s.grants, ws, manifest.id.stableId) then Err(AlreadyEnabled)
        else
          var scopes :- RequestedScopes(worker, lib, manifest.scopes, requested);
          var plan := WithRootScopes(planned.value, scopes);
          var objection := ReviewObjection(s, ws, kind, lib, scopes, plan);
          if objection.Some? then Err(objection.value)
          else
            Ok(s.(changes :=
              s.changes +
                [Change(ws, kind, lib, scopes, Snapshot(s.library, plan), token, now + Lifetime(ttl), false)]))
  }

  /** `create_pending_change` for an account switch; the account tables' checks are the caller's. */
  function PrepareSwitch(s: State, ws: Workspace, selection: Json, ttl: int, token: string, now: nat)
    : Result<State, Refusal>
  {
    if ws !in s.workers then Err(NoSuchWorkspace)
    else Ok(s.(changes :=
      s.changes + [Change(ws, SwitchAccount(selection), 0, {}, [], token, now + Lifetime(ttl), false)]))
  }

  /** Activation bundles merged one after the other, each probed on the bundle merged so far. */
  function Install(cat: Catalog, profile: string, bundle: Bundle, plan: seq<PlanItem>): Result<Bundle, Refusal>
    requires InTable(cat, plan)
  {
    if plan == [] then Ok(bundle)
    else
      var n := |plan| - 1;
      var before :- Install(cat, profile, bundle, plan[..n]);
      var m := cat[plan[n].lib].manifest;
      if profile !in m.bundles then Err(ProbeFailed)
      else
        var merged := Merge(before, m.bundles[profile]);
        if ProbePasses(m.probe, profile, merged) then Ok(merged) else Err(ProbeFailed)
  }

  /** The bundle an installation starts from: the current one, or for an upgrade the replaced grant's rollback state. */
  function InstallBase(s: State, c: Change, plan: seq<PlanItem>): (r: Result<Bundle, Refusal>)
    requires c.ws in s.workers && c.lib < |s.library|
    ensures r.Ok? && c.kind.Upgrade? ==> c.kind.current < |s.grants|
  {
    var bundle := s.workers[c.ws].bundle;
    if !c.kind.Upgrade? then Ok(bundle)
    else
      var target := TargetObjection(s, c.ws, c.kind.current, c.lib);
      if target.Some? then Err(target.value)
      else if Newest(s.grants, c.ws) != Some(c.kind.current) then Err(NotNewest)
      else
        var g := s.grants[c.kind.current];
        if bundle != g.applied then Err(EditedSince)
        else
          var widening := WideningObjection(g, c.scopes, plan);
          if widening.Some? then Err(widening.value) else Ok(g.prior)
  }

  function Revoked(grants: seq<Grant>, g: nat, now: nat): seq<Grant>
    requires g < |grants|
  {
    grants[g := grants[g].(revokedAt := Some(now))]
  }

  /** A reviewed library change applied: re-planned, compared with the review, installed, and granted. */
  function ApplyLibrary(s: State, c: Change, now: nat): Result<State, Refusal> {
    if c.ws !in s.workers then Err(NoSuchWorkspace)
    else
      var worker := s.workers[c.ws];
      var planned := Plan(s.library, worker.profile, c.lib);
      if planned.Err? then Err(CannotPlan(planned.error))
      else
        var manifest := s.library[c.lib].manifest;
        var scopes := if c.scopes == {} then manifest.scopes else c.scopes;
        var plan := WithRootScopes(planned.value, scopes);
        if Snapshot(s.library, plan) != c.plan then Err(ReviewStale)
        else if c.kind.Enable? &&
          StableEnabled(s.library, s.grants, c.ws, manifest.id.stableId) then Err(AlreadyEnabled)
        else if !(scopes <= manifest.scopes) then Err(ScopesTooWide)
        else
          var base :- InstallBase(s, c.(scopes := scopes), plan);
          var merged :- Install(s.library, worker.profile, base, plan);
          var replaced := if c.kind.Upgrade? then Some(c.kind.current) else None;
          var kept := if c.kind.Upgrade? then Revoked(s.grants, c.kind.current, now) else s.grants;
          Ok(s.(workers := s.workers[c.ws := worker.(bundle := merged)],
                grants := kept + [Grant(c.ws, c.lib, scopes, base, merged, plan, replaced, now, None)]))
  }

  /** A reviewed account switch applied, if the account tables allow it. */
  function ApplySwitch(s: State, c: Change, accountReady: bool): Result<State, Refusal>
    requires c.kind.SwitchAccount?
  {
    if c.ws !in s.workers then Err(NoSuchWorkspace)
    else if !accountReady then Err(AccountNotReady)
    else
      var worker := s.workers[c.ws];
      Ok(s.(workers := s.workers[c.ws := worker.(bundle := worker.bundle[ACCOUNT := c.kind.selection])]))
  }

  /** `confirm_pending_change`: refused whole, or applied and resolved. */
  function Confirm(s: State, change: nat, tenant: string, owner: string, token: string, accountReady: bool,
      now: nat): Result<State, Refusal> {
    if change >= |s.changes| || s.changes[change].ws.tenant != tenant ||
      s.changes[change].ws.owner != owner then Err(NoSuchChange)
    else
      var c := s.changes[change];
      if c.confirmed then Err(AlreadyResolved)
      else if c.expiresAt <= now then Err(Expired)
      else if token == "" || token != c.token then Err(BadToken)
      else
        var next :- if c.kind.SwitchAccount? then ApplySwitch(s, c, accountReady) else ApplyLibrary(s, c, now);
        Ok(next.(changes := s.changes[change := c.(confirmed := true)]))
  }

  /** `revoke_workspace_grant`: only the newest grant, and only over the bundle it left. */
  function Revoke(s: State, ws: Workspace, g: nat, now: nat): Result<State, Refusal> {
    if g >= |s.grants| || !Active(s.grants[g], ws) then Err(NoSuchGrant)
    else if Newest(s.grants, ws) != Some(g) then Err(NotNewest)
    else if ws !in s.workers then Err(NoSuchWorkspace)
    else if s.workers[ws].bundle != s.grants[g].applied then Err(EditedSince)
    else
      Ok(s.(workers := s.workers[ws := s.workers[ws].(bundle := s.grants[g].prior)],
            grants := Revoked(s.grants, g, now)))
  }

  // ---------------------------------------------------------------------------
  // Runs
  // ---------------------------------------------------------------------------

  /** One request. `Edit` and `AddWorkspace` stand for every writer of the workers table outside this store. */
  datatype Op =
    | DoPublish(manifest: Manifest)
    | DoSetStatus(lib: nat, status: Status, reason: string)
    | DoPrepare(ws: Workspace, kind: Kind, lib: nat, requested: set<string>, ttl: int, token: string)
    | DoPrepareSwitch(ws: Workspace, selection: Json, ttl: int, token: string)
    | DoConfirm(change: nat, tenant: string, owner: string, token: string, accountReady: bool)
    | DoRevoke(ws: Workspace, grant: nat)
    | DoEdit(ws: Workspace, bundle: Bundle)
    | DoAddWorkspace(ws: Workspace, worker: Worker)

  function Outcome(s: State, op: Op): Result<State, Refusal> {
    match op
    case DoPublish(m) => Publish(s, m)
    case DoSetStatus(lib, status, reason) => SetStatus(s, lib, status, reason)
    case DoPrepare(ws, kind, lib, requested, ttl, token) =>
      if kind.SwitchAccount? then Err(NoSuchItem) else PrepareLibrary(s, ws, kind, lib, requested, ttl, token, s.clock)
    case DoPrepareSwitch(ws, selection, ttl, token) => PrepareSwitch(s, ws, selection, ttl, token, s.clock)
    case DoConfirm(change, tenant, owner, token, accountReady) =>
      Confirm(s, change, tenant, owner, token, accountReady, s.clock)
    case DoRevoke(ws, g) => Revoke(s, ws, g, s.clock)
    case DoEdit(ws, bundle) =>
      if ws in s.workers then Ok(s.(workers := s.workers[ws := s.workers[ws].(bundle := bundle)]))
        else Err(NoSuchWorkspace)
    case DoAddWorkspace(ws, worker) =>
      if ws in s.workers then Err(NoSuchWorkspace) else Ok(s.(workers := s.workers[ws := worker]))
  }

  /** A request with the time that passed since the previous one. */
  datatype Event = Event(op: Op, elapsed: nat)

  /** The clock moves before each request, and only forward. */
  function Tick(s: State, e: Event): State {
    s.(clock := s.clock + e.elapsed)
  }

  predicate Succeeds(s: State, e: Event) {
    Outcome(Tick(s, e), e.op).Ok?
  }

  /** A refused request changes nothing: its transaction is rolled back. */
  function Next(s: State, e: Event): State {
    var ticked := Tick(s, e);
    var r := Outcome(ticked, e.op);
    if r.Ok? then r.value else ticked
  }

  ghost predicate Step(s: State, e: Event, t: State) {
    t == Next(s, e)
  }

  /** A run: the states before and after each of its events. */
  ghost predicate IsRun(states: seq<State>, events: seq<Event>) {
    && |states| == |events| + 1
    && forall k :: 0 <= k < |events| ==> Step(states[k], events[k], states[k + 1])
  }
}
