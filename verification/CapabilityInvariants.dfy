/** What every request keeps, hence what holds in every state a run can reach. */
module CapabilityInvariants {
  import opened Prelude
  import opened Bundles
  import opened SemanticVersions
  import opened Library
  import opened InstallPlan
  import opened Capabilities

  // ---------------------------------------------------------------------------
  // The library
  // ---------------------------------------------------------------------------

  ghost predicate LibraryHolds(cat: Catalog) {
    && SoundCatalog(cat)
    && forall i :: 0 <= i < |cat| ==> Acceptable(cat[i].manifest)
  }

  lemma {:induction false} PinObjectionNone(cat: Catalog, m: Manifest, d: nat)
    requires d <= |m.dependencies|
    requires PinObjection(cat, m, d).None?
    ensures forall e :: d <= e < |m.dependencies| ==>
      var row := FindAvailable(cat, m.dependencies[e].id);
      row.Some? && m.profiles <= cat[row.value].manifest.profiles &&
        m.dependencies[e].scopes <= cat[row.value].manifest.scopes
    decreases |m.dependencies| - d
  {
    if d < |m.dependencies| { PinObjectionNone(cat, m, d + 1); }
  }

  /** A row that was available and pinned is found again in any catalog where it is still available. */
  lemma StillFound(cat: Catalog, after: Catalog, id: Identity)
    requires Extends(cat, after)
    requires FindAvailable(cat, id).Some? && AvailableAt(after, FindAvailable(cat, id).value)
    ensures FindAvailable(after, id).Some?
  {
    var found := FindAvailable(cat, id).value;
    assert after[found].manifest.id == id;
  }

  lemma OrderExtends(cat: Catalog, after: Catalog, i: nat, d: nat)
    requires PublishedInOrder(cat) && Extends(cat, after)
    requires i < |cat| && d < |cat[i].manifest.dependencies|
    ensures Settled(after, i, d)
  {
    assert Settled(cat, i, d);
    var j: nat :| PinsSoundly(cat, i, cat[i].manifest.dependencies[d], j);
    assert PinsSoundly(after, i, after[i].manifest.dependencies[d], j);
  }

  lemma PublishKeepsLibrary(cat: Catalog, m: Manifest)
    requires LibraryHolds(cat) && Acceptable(m)
    requires SameVersion(cat, m.id).None? && PinObjection(cat, m, 0).None?
    ensures LibraryHolds(cat + [Row(m, Available)])
  {
    var after := cat + [Row(m, Available)];
    PinObjectionNone(cat, m, 0);
    forall i, d | 0 <= i < |after| && 0 <= d < |after[i].manifest.dependencies|
      ensures Settled(after, i, d)
    {
      var dep := after[i].manifest.dependencies[d];
      if i < |cat| {
        OrderExtends(cat, after, i, d);
      } else {
        assert PinsSoundly(after, i, dep, FindAvailable(cat, dep.id).value);
      }
    }
    forall i, d | 0 <= i < |after| && after[i].status == Available && 0 <= d < |after[i].manifest.dependencies|
      ensures FindAvailable(after, after[i].manifest.dependencies[d].id).Some?
    {
      StillFound(cat, after, after[i].manifest.dependencies[d].id);
    }
  }

  /** If the restore walk accepts, every dependency it started from is available. */
  lemma {:induction false} RestoreFinds(cat: Catalog, pending: seq<Dependency>, seen: set<Identity>)
    requires RestoreAllowed(cat, pending, seen)
    requires forall id :: id in seen ==> FindAvailable(cat, id).Some?
    ensures forall d :: 0 <= d < |pending| ==> FindAvailable(cat, pending[d].id).Some?
    decreases Identities(cat) - seen, |pending|
  {
    if pending != [] {
      if pending[0].id in seen {
        RestoreFinds(cat, pending[1..], seen);
        assert forall d :: 1 <= d < |pending| ==> pending[d] == pending[1..][d - 1];
      } else {
        assert pending[0].id in Identities(cat);
        var queue := pending[1..] + cat[FindAvailable(cat, pending[0].id).value].manifest.dependencies;
        RestoreFinds(cat, queue, seen + {pending[0].id});
        assert forall d :: 1 <= d < |pending| ==> pending[d] == queue[d - 1];
      }
    }
  }

  /** Where availability is closed, the restore walk refuses exactly a missing direct dependency. */
  lemma {:induction false} RestoreAllowedIff(cat: Catalog, pending: seq<Dependency>, seen: set<Identity>)
    requires AvailabilityClosed(cat)
    requires forall id :: id in seen ==> FindAvailable(cat, id).Some?
    ensures RestoreAllowed(cat, pending, seen) <==> forall d :: 0 <= d < |pending| ==>
      FindAvailable(cat, pending[d].id).Some?
    decreases Identities(cat) - seen, |pending|
  {
    if pending != [] {
      var row := FindAvailable(cat, pending[0].id);
      if pending[0].id in seen {
        RestoreAllowedIff(cat, pending[1..], seen);
        assert forall d :: 1 <= d < |pending| ==> pending[d] == pending[1..][d - 1];
        assert forall d :: 0 <= d < |pending| - 1 ==> pending[1..][d] == pending[d + 1];
      } else if row.Some? {
        assert pending[0].id in Identities(cat);
        var below := cat[row.value].manifest.dependencies;
        var queue := pending[1..] + below;
        RestoreAllowedIff(cat, queue, seen + {pending[0].id});
        assert forall d :: 1 <= d < |pending| ==> pending[d] == queue[d - 1];
        assert forall d :: 0 <= d < |queue| ==>
          queue[d] == if d < |pending| - 1 then pending[d + 1] else below[d - (|pending| - 1)];
      }
    }
  }

  function WithStatus(cat: Catalog, lib: nat, status: Status): Catalog
    requires lib < |cat|
  {
    cat[lib := cat[lib].(status := status)]
  }

  lemma WithStatusKeepsLibrary(cat: Catalog, lib: nat, status: Status)
    requires LibraryHolds(cat) && lib < |cat|
    requires if status == Available then forall d :: 0 <= d < |cat[lib].manifest.dependencies| ==>
      FindAvailable(cat, cat[lib].manifest.dependencies[d].id).Some?
             else !RequiredByOther(cat, lib)
    ensures LibraryHolds(WithStatus(cat, lib, status))
  {
    var after := WithStatus(cat, lib, status);
    assert Extends(cat, after);
    forall i, d | 0 <= i < |after| && 0 <= d < |after[i].manifest.dependencies|
      ensures Settled(after, i, d)
    {
      OrderExtends(cat, after, i, d);
    }
    forall i, d | 0 <= i < |after| && after[i].status == Available && 0 <= d < |after[i].manifest.dependencies|
      ensures FindAvailable(after, after[i].manifest.dependencies[d].id).Some?
    {
      StillFound(cat, after, cat[i].manifest.dependencies[d].id);
    }
  }

  lemma SetStatusKeepsLibrary(s: State, lib: nat, status: Status, reason: string)
    requires LibraryHolds(s.library)
    requires SetStatus(s, lib, status, reason).Ok?
    ensures LibraryHolds(SetStatus(s, lib, status, reason).value.library)
    ensures Extends(s.library, SetStatus(s, lib, status, reason).value.library)
  {
    var cat := s.library;
    if cat[lib].status != status {
      if status == Available { RestoreFinds(cat, cat[lib].manifest.dependencies, {}); }
      WithStatusKeepsLibrary(cat, lib, status);
    }
  }

  // ---------------------------------------------------------------------------
  // Plans of grants
  // ---------------------------------------------------------------------------

  /** A recorded installation: the granted row last, everything else required by something later. */
  ghost predicate RecordedPlan(cat: Catalog, lib: nat, scopes: set<string>, plan: seq<PlanItem>) {
    && InTable(cat, plan)
    && plan != [] && plan[|plan| - 1] == PlanItem(lib, scopes)
    && (forall k, l :: 0 <= k < l < |plan| ==> plan[k].lib != plan[l].lib)
    && forall k :: 0 <= k < |plan| - 1 ==> exists e :: k < e < |plan| && Requires(cat, plan[e].lib, plan[k].lib)
  }

  ghost predicate AllAvailable(cat: Catalog, plan: seq<PlanItem>) {
    forall k :: 0 <= k < |plan| ==> AvailableAt(cat, plan[k].lib)
  }

  lemma RequiredLater(cat: Catalog, profile: string, root: nat, planned: seq<PlanItem>, k: nat) returns (e: nat)
    requires UniqueIdentities(cat) && InstallsAllOf(cat, profile, root, planned) && k < |planned| - 1
    ensures k < e < |planned| && Requires(cat, planned[e].lib, planned[k].lib)
  {
    assert Installs(planned, planned[k].lib);
    var n: nat :| ReachesIn(cat, root, planned[k].lib, n);
    assert n != 0;
    var a := LastEdge(cat, root, planned[k].lib, n);
    assert Reaches(cat, root, a);
    assert Installs(planned, a);
    e :| 0 <= e < |planned| && planned[e].lib == a;
    var d: nat :| Pins(cat, a, d, planned[k].lib);
    assert ItemInstallable(cat, profile, planned, e);
    assert PlacedBefore(cat, planned, e, cat[a].manifest.dependencies[d]);
  }

  lemma PlanIsRecorded(cat: Catalog, profile: string, root: nat, scopes: set<string>)
    requires UniqueIdentities(cat)
    requires Plan(cat, profile, root).Ok?
    ensures var plan := WithRootScopes(Plan(cat, profile, root).value, scopes);
            RecordedPlan(cat, root, scopes, plan) && AllAvailable(cat, plan)
  {
    PlanInstallsAll(cat, profile, root);
    InstalledIsRecorded(cat, profile, root, scopes, Plan(cat, profile, root).value);
  }

  lemma InstalledIsRecorded(cat: Catalog, profile: string, root: nat, scopes: set<string>, planned: seq<PlanItem>)
    requires UniqueIdentities(cat) && InstallsAllOf(cat, profile, root, planned)
    ensures var plan := WithRootScopes(planned, scopes);
            RecordedPlan(cat, root, scopes, plan) && AllAvailable(cat, plan)
  {
    var plan := WithRootScopes(planned, scopes);
    assert forall k :: 0 <= k < |plan| ==> plan[k].lib == planned[k].lib;
    forall k | 0 <= k < |plan| ensures AvailableAt(cat, plan[k].lib) {
      assert ItemInstallable(cat, profile, planned, k);
    }
    forall k | 0 <= k < |plan| - 1
      ensures exists e :: k < e < |plan| && Requires(cat, plan[e].lib, plan[k].lib)
    {
      var e := RequiredLater(cat, profile, root, planned, k);
      assert Requires(cat, plan[e].lib, plan[k].lib);
    }
  }

  /** Manifests never change: later catalogs extend earlier ones row by row, up to status. */
  ghost predicate Extends(cat: Catalog, after: Catalog) {
    |cat| <= |after| && forall i :: 0 <= i < |cat| ==> after[i].manifest == cat[i].manifest
  }

  lemma RecordedPlanExtends(cat: Catalog, after: Catalog, lib: nat, scopes: set<string>, plan: seq<PlanItem>)
    requires Extends(cat, after)
    requires RecordedPlan(cat, lib, scopes, plan)
    ensures RecordedPlan(after, lib, scopes, plan)
  {
    forall k | 0 <= k < |plan| - 1
      ensures exists e :: k < e < |plan| && Requires(after, plan[e].lib, plan[k].lib)
    {
      var e :| k < e < |plan| && Requires(cat, plan[e].lib, plan[k].lib);
      assert Requires(after, plan[e].lib, plan[k].lib);
    }
  }

  /** Neither guard alone protects an installed dependency; together with the plan's shape they do. */
  lemma StatusKeepsPlanAvailable(s: State, lib: nat, status: Status, reason: string, g: nat)
    requires LibraryHolds(s.library)
    requires SetStatus(s, lib, status, reason).Ok?
    requires g < |s.grants| && s.grants[g].revokedAt.None?
    requires RecordedPlan(s.library, s.grants[g].lib, s.grants[g].scopes, s.grants[g].plan)
    requires AllAvailable(s.library, s.grants[g].plan)
    ensures AllAvailable(SetStatus(s, lib, status, reason).value.library, s.grants[g].plan)
  {
    var cat, after, plan := s.library, SetStatus(s, lib, status, reason).value.library, s.grants[g].plan;
    forall k | 0 <= k < |plan|
      ensures AvailableAt(after, plan[k].lib)
    {
      assert AvailableAt(cat, plan[k].lib);
    }
  }

  // ---------------------------------------------------------------------------
  // The grant table
  // ---------------------------------------------------------------------------

  ghost predicate GrantHolds(s: State, g: Grant) {
    && g.ws in s.workers
    && g.createdAt <= s.clock
    && RecordedPlan(s.library, g.lib, g.scopes, g.plan)
    && (g.revokedAt.None? ==> AllAvailable(s.library, g.plan))
  }

  ghost predicate GrantsHold(s: State) {
    && (forall i :: 0 <= i < |s.grants| ==> GrantHolds(s, s.grants[i]))
    && (forall i, j :: 0 <= i < j < |s.grants| ==> s.grants[i].createdAt <= s.grants[j].createdAt)
  }

  function StableId(cat: Catalog, g: Grant): string
    requires g.lib < |cat|
  {
    cat[g.lib].manifest.id.stableId
  }

  /** No workspace has two active grants of one package. */
  ghost predicate OneVersionEach(s: State)
    requires GrantsHold(s)
  {
    forall i, j ::
      (0 <= i < j < |s.grants| && s.grants[i].revokedAt.None? && s.grants[j].revokedAt.None?
        && s.grants[i].ws == s.grants[j].ws) ==>
        StableId(s.library, s.grants[i]) != StableId(s.library, s.grants[j])
  }

  /** Grant `g` is an upgrade of `h`: newer, no wider, and undone to the same bundle. */
  ghost predicate Supersedes(cat: Catalog, g: Grant, h: Grant) {
    && g.ws == h.ws
    && g.lib < |cat| && h.lib < |cat|
    && StableId(cat, g) == StableId(cat, h)
    && IsNewer(cat, g.lib, h.lib)
    && g.scopes <= h.scopes
    && ScopeUnion(g) <= ScopeUnion(h)
    && g.prior == h.prior
    && h.revokedAt.Some?
  }

  ghost predicate LineageHolds(s: State) {
    forall i :: 0 <= i < |s.grants| && s.grants[i].replaced.Some? ==>
      s.grants[i].replaced.value < i && Supersedes(s.library, s.grants[i], s.grants[s.grants[i].replaced.value])
  }

  /** A library change as review left it. */
  ghost predicate ChangeHolds(s: State, c: Change) {
    && c.ws in s.workers
    && (!c.kind.SwitchAccount? ==>
          && c.lib < |s.library|
          && c.plan != [] && c.plan[|c.plan| - 1].lib == c.lib && c.plan[|c.plan| - 1].scopes == c.scopes
          && c.scopes <= s.library[c.lib].manifest.scopes
          && (c.scopes == {} ==> s.library[c.lib].manifest.scopes == {}))
    && (c.kind.Upgrade? ==>
          && c.kind.current < |s.grants|
          && s.grants[c.kind.current].ws == c.ws
          && s.grants[c.kind.current].lib < |s.library|
          && IsNewer(s.library, c.lib, s.grants[c.kind.current].lib))
  }

  ghost predicate ChangesHold(s: State) {
    forall i :: 0 <= i < |s.changes| ==> ChangeHolds(s, s.changes[i])
  }

  ghost predicate Holds(s: State) {
    && LibraryHolds(s.library)
    && GrantsHold(s)
    && OneVersionEach(s)
    && LineageHolds(s)
    && ChangesHold(s)
  }

  /** With a clock that never goes back, "newest" is simply the last active row. */
  lemma {:induction false} NewestIsLastActive(grants: seq<Grant>, ws: Workspace)
    requires forall i, j :: 0 <= i < j < |grants| ==> grants[i].createdAt <= grants[j].createdAt
    ensures var r := Newest(grants, ws);
            if r.None? then forall i :: 0 <= i < |grants| ==> !Active(grants[i], ws)
            else forall i :: r.value < i < |grants| ==> !Active(grants[i], ws)
  {
    if grants != [] {
      var n := |grants| - 1;
      NewestIsLastActive(grants[..n], ws);
      assert forall i :: 0 <= i < n ==> grants[..n][i] == grants[i];
    }
  }

  // ---------------------------------------------------------------------------
  // Preservation
  // ---------------------------------------------------------------------------

  lemma ClockKeeps(s: State, now: nat)
    requires Holds(s) && s.clock <= now
    ensures Holds(s.(clock := now))
  {
    var t := s.(clock := now);
    assert forall i :: 0 <= i < |s.grants| ==> GrantHolds(s, s.grants[i]);
    assert forall i :: 0 <= i < |s.changes| ==> ChangeHolds(s, s.changes[i]) ==> ChangeHolds(t, s.changes[i]);
  }

  /** Everything but availability survives a change of the library, the workers, or the change table. */
  lemma LibraryStepKeeps(s: State, t: State)
    requires Holds(s)
    requires LibraryHolds(t.library) && Extends(s.library, t.library)
    requires t.grants == s.grants && t.workers.Keys >= s.workers.Keys && t.clock == s.clock && t.changes == s.changes
    requires forall i :: 0 <= i < |s.grants| && s.grants[i].revokedAt.None? ==>
      AllAvailable(t.library, s.grants[i].plan)
    ensures Holds(t)
  {
    forall i | 0 <= i < |t.grants| ensures GrantHolds(t, t.grants[i]) {
      var g := s.grants[i];
      assert GrantHolds(s, g);
      RecordedPlanExtends(s.library, t.library, g.lib, g.scopes, g.plan);
    }
    forall i | 0 <= i < |t.grants| && t.grants[i].replaced.Some?
      ensures t.grants[i].replaced.value < i && Supersedes(t.library, t.grants[i], t.grants[t.grants[i].replaced.value])
    {
      assert Supersedes(s.library, s.grants[i], s.grants[s.grants[i].replaced.value]);
    }
    forall i | 0 <= i < |t.changes| ensures ChangeHolds(t, t.changes[i]) {
      assert ChangeHolds(s, s.changes[i]);
    }
  }

  lemma PublishKeeps(s: State, m: Manifest)
    requires Holds(s) && Publish(s, m).Ok?
    ensures Holds(Publish(s, m).value)
  {
    var t := Publish(s, m).value;
    if SameVersion(s.library, m.id).None? { PublishKeepsLibrary(s.library, m); }
    forall i | 0 <= i < |s.grants| && s.grants[i].revokedAt.None?
      ensures AllAvailable(t.library, s.grants[i].plan)
    {
      assert GrantHolds(s, s.grants[i]);
    }
    LibraryStepKeeps(s, t);
  }

  lemma SetStatusKeeps(s: State, lib: nat, status: Status, reason: string)
    requires Holds(s) && SetStatus(s, lib, status, reason).Ok?
    ensures Holds(SetStatus(s, lib, status, reason).value)
  {
    var t := SetStatus(s, lib, status, reason).value;
    SetStatusKeepsLibrary(s, lib, status, reason);
    forall i | 0 <= i < |s.grants| && s.grants[i].revokedAt.None?
      ensures AllAvailable(t.library, s.grants[i].plan)
    {
      assert GrantHolds(s, s.grants[i]);
      StatusKeepsPlanAvailable(s, lib, status, reason, i);
    }
    LibraryStepKeeps(s, t);
  }

  /** A new reviewed change, or one resolved, leaves everything else as it was. */
  lemma ChangesStepKeeps(s: State, changes: seq<Change>)
    requires Holds(s)
    requires forall i :: 0 <= i < |changes| ==> ChangeHolds(s, changes[i])
    ensures Holds(s.(changes := changes))
  {
    var t := s.(changes := changes);
    forall i | 0 <= i < |t.grants| ensures GrantHolds(t, t.grants[i]) {
      assert GrantHolds(s, s.grants[i]);
    }
    forall i | 0 <= i < |changes| ensures ChangeHolds(t, changes[i]) {
      assert ChangeHolds(s, changes[i]);
    }
  }

  lemma UpgradeReviewed(s: State, ws: Workspace, kind: Kind, lib: nat, scopes: set<string>, plan: seq<PlanItem>)
    requires GrantsHold(s) && kind.Upgrade? && lib < |s.library|
    requires ReviewObjection(s, ws, kind, lib, scopes, plan).None?
    ensures kind.current < |s.grants| && s.grants[kind.current].ws == ws && s.grants[kind.current].lib < |s.library|
    ensures IsNewer(s.library, lib, s.grants[kind.current].lib)
  {
    assert GrantHolds(s, s.grants[kind.current]);
  }

  lemma PreparedHolds(s: State, ws: Workspace, kind: Kind, lib: nat, requested: set<string>, ttl: int, token: string,
      now: nat)
    returns (c: Change)
    requires Holds(s) && !kind.SwitchAccount?
    requires PrepareLibrary(s, ws, kind, lib, requested, ttl, token, now).Ok?
    ensures PrepareLibrary(s, ws, kind, lib, requested, ttl, token, now).value == s.(changes := s.changes + [c])
    ensures ChangeHolds(s, c)
  {
    c := PrepareLibrary(s, ws, kind, lib, requested, ttl, token, now).value.changes[|s.changes|];
    if kind.Upgrade? {
      var plan := WithRootScopes(Plan(s.library, s.workers[ws].profile, lib).value, c.scopes);
      UpgradeReviewed(s, ws, kind, lib, c.scopes, plan);
    }
  }

  lemma PrepareKeeps(s: State, ws: Workspace, kind: Kind, lib: nat, requested: set<string>, ttl: int, token: string,
      now: nat)
    requires Holds(s) && !kind.SwitchAccount?
    requires PrepareLibrary(s, ws, kind, lib, requested, ttl, token, now).Ok?
    ensures Holds(PrepareLibrary(s, ws, kind, lib, requested, ttl, token, now).value)
  {
    var c := PreparedHolds(s, ws, kind, lib, requested, ttl, token, now);
    ChangesStepKeeps(s, s.changes + [c]);
  }

  lemma WorkersStepKeeps(s: State, workers: map<Workspace, Worker>)
    requires Holds(s) && s.workers.Keys <= workers.Keys
    ensures Holds(s.(workers := workers))
  {
    var t := s.(workers := workers);
    LibraryStepKeepsAvailable(s);
    LibraryStepKeeps(s, t);
  }

  lemma LibraryStepKeepsAvailable(s: State)
    requires Holds(s)
    ensures forall i :: 0 <= i < |s.grants| && s.grants[i].revokedAt.None? ==> AllAvailable(s.library, s.grants[i].plan)
  {
    forall i | 0 <= i < |s.grants| && s.grants[i].revokedAt.None?
      ensures AllAvailable(s.library, s.grants[i].plan)
    {
      assert GrantHolds(s, s.grants[i]);
    }
  }

  lemma RevokedGrantsHold(s: State, t: State, g: nat, now: nat)
    requires GrantsHold(s) && g < |s.grants| && t == s.(grants := Revoked(s.grants, g, now))
    ensures GrantsHold(t)
  {
    forall i | 0 <= i < |t.grants| ensures GrantHolds(t, t.grants[i]) {
      assert GrantHolds(s, s.grants[i]);
    }
  }

  lemma RevokedOneVersionEach(s: State, t: State, g: nat, now: nat)
    requires GrantsHold(s) && g < |s.grants| && t == s.(grants := Revoked(s.grants, g, now)) && GrantsHold(t)
    requires OneVersionEach(s)
    ensures OneVersionEach(t)
  {
  }

  lemma RevokedLineageHolds(s: State, t: State, g: nat, now: nat)
    requires LineageHolds(s) && g < |s.grants| && t == s.(grants := Revoked(s.grants, g, now))
    ensures LineageHolds(t)
  {
    forall i | 0 <= i < |t.grants| && t.grants[i].replaced.Some?
      ensures t.grants[i].replaced.value < i && Supersedes(t.library, t.grants[i], t.grants[t.grants[i].replaced.value])
    {
      assert Supersedes(s.library, s.grants[i], s.grants[s.grants[i].replaced.value]);
    }
  }

  /** Reviewed changes look at grants only for whose they are and what they are of. */
  lemma ChangesStillHold(s: State, t: State)
    requires ChangesHold(s) && t == s.(grants := t.grants) && |s.grants| <= |t.grants|
    requires forall i :: 0 <= i < |s.grants| ==> t.grants[i].ws == s.grants[i].ws && t.grants[i].lib == s.grants[i].lib
    ensures ChangesHold(t)
  {
    forall i | 0 <= i < |t.changes| ensures ChangeHolds(t, t.changes[i]) {
      assert ChangeHolds(s, s.changes[i]);
    }
  }

  lemma RevokeRowKeeps(s: State, g: nat, now: nat)
    requires Holds(s) && g < |s.grants|
    ensures Holds(s.(grants := Revoked(s.grants, g, now)))
  {
    var t := s.(grants := Revoked(s.grants, g, now));
    RevokedGrantsHold(s, t, g, now);
    RevokedOneVersionEach(s, t, g, now);
    RevokedLineageHolds(s, t, g, now);
    ChangesStillHold(s, t);
  }

  lemma AddedGrantsHold(s: State, t: State, g: Grant)
    requires GrantsHold(s) && GrantHolds(s, g) && g.createdAt == s.clock && t == s.(grants := s.grants + [g])
    ensures GrantsHold(t)
  {
    forall i | 0 <= i < |t.grants| ensures GrantHolds(t, t.grants[i]) {
      if i < |s.grants| { assert GrantHolds(s, s.grants[i]); }
    }
    forall i, j | 0 <= i < j < |t.grants| ensures t.grants[i].createdAt <= t.grants[j].createdAt {
      assert GrantHolds(s, s.grants[i]);
    }
  }

  lemma AddedOneVersionEach(s: State, t: State, g: Grant)
    requires GrantsHold(s) && GrantHolds(s, g) && t == s.(grants := s.grants + [g]) && GrantsHold(t)
    requires OneVersionEach(s) && !StableEnabled(s.library, s.grants, g.ws, StableId(s.library, g))
    ensures OneVersionEach(t)
  {
    forall i | 0 <= i < |s.grants| && s.grants[i].revokedAt.None? && s.grants[i].ws == g.ws
      ensures StableId(s.library, s.grants[i]) != StableId(s.library, g)
    {
      assert GrantHolds(s, s.grants[i]) && Active(s.grants[i], g.ws);
    }
  }

  lemma AddedLineageHolds(s: State, t: State, g: Grant)
    requires LineageHolds(s) && t == s.(grants := s.grants + [g])
    requires g.replaced.Some? ==> g.replaced.value < |s.grants| && Supersedes(s.library, g, s.grants[g.replaced.value])
    ensures LineageHolds(t)
  {
    forall i | 0 <= i < |t.grants| && t.grants[i].replaced.Some?
      ensures t.grants[i].replaced.value < i && Supersedes(t.library, t.grants[i], t.grants[t.grants[i].replaced.value])
    {
      if i < |s.grants| { assert Supersedes(s.library, s.grants[i], s.grants[s.grants[i].replaced.value]); }
    }
  }

  /** A new grant row that fits the table: nothing active shares its package, and it supersedes what it replaced. */
  lemma GrantRowKeeps(s: State, g: Grant)
    requires Holds(s)
    requires GrantHolds(s, g) && g.createdAt == s.clock
    requires !StableEnabled(s.library, s.grants, g.ws, StableId(s.library, g))
    requires g.replaced.Some? ==> g.replaced.value < |s.grants| && Supersedes(s.library, g, s.grants[g.replaced.value])
    ensures Holds(s.(grants := s.grants + [g]))
  {
    var t := s.(grants := s.grants + [g]);
    AddedGrantsHold(s, t, g);
    AddedOneVersionEach(s, t, g);
    AddedLineageHolds(s, t, g);
    ChangesStillHold(s, t);
  }

  /** The upgraded grant was the workspace's only one of its package, so revoking it clears the package. */
  lemma UpgradeClears(s: State, current: nat, now: nat)
    requires Holds(s)
    requires current < |s.grants| && s.grants[current].revokedAt.None? && s.grants[current].lib < |s.library|
    ensures !StableEnabled(s.library, Revoked(s.grants, current, now), s.grants[current].ws,
      StableId(s.library, s.grants[current]))
  {
    assert forall i :: 0 <= i < |s.grants| ==> GrantHolds(s, s.grants[i]);
  }

  /** What a successful library confirmation writes, spelled out. */
  ghost predicate AppliedTo(s: State, c: Change, g: Grant, t: State) {
    && c.ws in s.workers && c.lib < |s.library|
    && GrantHolds(s, g)
    && g.ws == c.ws && g.lib == c.lib && g.createdAt == s.clock && g.revokedAt.None?
    && g.replaced == (if c.kind.Upgrade? then Some(c.kind.current) else None)
    && t == s.(workers := s.workers[c.ws := s.workers[c.ws].(bundle := g.applied)],
               grants := (if c.kind.Upgrade? &&
                 c.kind.current < |s.grants| then Revoked(s.grants, c.kind.current, s.clock) else s.grants) + [g])
  }

  lemma ApplyLibraryWrites(s: State, c: Change) returns (g: Grant)
    requires Holds(s) && !c.kind.SwitchAccount?
    requires ApplyLibrary(s, c, s.clock).Ok?
    ensures AppliedTo(s, c, g, ApplyLibrary(s, c, s.clock).value)
    ensures g.scopes == if c.scopes == {} then s.library[c.lib].manifest.scopes else c.scopes
    ensures Snapshot(s.library, g.plan) == c.plan
    ensures InstallBase(s, c.(scopes := g.scopes), g.plan) == Ok(g.prior)
    ensures Install(s.library, s.workers[c.ws].profile, g.prior, g.plan) == Ok(g.applied)
    ensures Plan(s.library, s.workers[c.ws].profile, c.lib).Ok?
    ensures g.plan == WithRootScopes(Plan(s.library, s.workers[c.ws].profile, c.lib).value, g.scopes)
    ensures c.kind.Enable? ==> !StableEnabled(s.library, s.grants, c.ws, s.library[c.lib].manifest.id.stableId)
    ensures g.scopes <= s.library[c.lib].manifest.scopes
  {
    var t := ApplyLibrary(s, c, s.clock).value;
    var worker := s.workers[c.ws];
    var scopes := if c.scopes == {} then s.library[c.lib].manifest.scopes else c.scopes;
    PlanIsRecorded(s.library, worker.profile, c.lib, scopes);
    g := t.grants[|s.grants|];
  }

  lemma UpgradeSupersedes(s: State, c: Change, g: Grant)
    requires Holds(s) && ChangeHolds(s, c) && c.kind.Upgrade?
    requires c.ws in s.workers && GrantHolds(s, g) && g.ws == c.ws && g.lib == c.lib
    requires InstallBase(s, c.(scopes := g.scopes), g.plan) == Ok(g.prior)
    ensures Supersedes(s.library, g, Revoked(s.grants, c.kind.current, s.clock)[c.kind.current])
    ensures StableId(s.library, s.grants[c.kind.current]) == StableId(s.library, g)
    ensures s.grants[c.kind.current].revokedAt.None?
  {
    RootScopesInUnion(g.plan, g.scopes);
  }

  lemma ApplyLibraryKeeps(s: State, c: Change)
    requires Holds(s) && ChangeHolds(s, c) && !c.kind.SwitchAccount?
    requires ApplyLibrary(s, c, s.clock).Ok?
    ensures Holds(ApplyLibrary(s, c, s.clock).value)
  {
    var g := ApplyLibraryWrites(s, c);
    var t := ApplyLibrary(s, c, s.clock).value;
    var mid := s.(workers := t.workers);
    WorkersStepKeeps(s, t.workers);
    if c.kind.Upgrade? {
      var current := c.kind.current;
      UpgradeSupersedes(s, c, g);
      RevokeRowKeeps(mid, current, s.clock);
      UpgradeClears(s, current, s.clock);
      GrantRowKeeps(mid.(grants := Revoked(s.grants, current, s.clock)), g);
    } else {
      GrantRowKeeps(mid, g);
    }
  }

  lemma RootScopesInUnion(plan: seq<PlanItem>, scopes: set<string>)
    requires plan != [] && plan[|plan| - 1].scopes == scopes
    ensures scopes <= PlanScopes(plan)
  {
    forall x | x in scopes ensures x in PlanScopes(plan) {
      assert x in plan[|plan| - 1].scopes;
    }
  }

  /** What a confirmation that succeeds amounts to: the change applied, then resolved. */
  lemma ConfirmIs(s: State, change: nat, tenant: string, owner: string, token: string, accountReady: bool)
      returns (next: State)
    requires Confirm(s, change, tenant, owner, token, accountReady, s.clock).Ok?
    ensures change < |s.changes| && next.changes == s.changes
    ensures var c := s.changes[change];
            && (if c.kind.SwitchAccount? then ApplySwitch(s, c, accountReady) else ApplyLibrary(s, c, s.clock)) ==
              Ok(next)
            && Confirm(s, change, tenant, owner, token, accountReady, s.clock) == Ok(Resolved(next, change))
  {
    var c := s.changes[change];
    next := (if c.kind.SwitchAccount? then ApplySwitch(s, c, accountReady) else ApplyLibrary(s, c, s.clock)).value;
  }

  function Resolved(s: State, change: nat): State
    requires change < |s.changes|
  {
    s.(changes := s.changes[change := s.changes[change].(confirmed := true)])
  }

  lemma ResolvedKeeps(s: State, change: nat)
    requires Holds(s) && change < |s.changes|
    ensures Holds(Resolved(s, change))
  {
    var changes := Resolved(s, change).changes;
    forall i | 0 <= i < |changes| ensures ChangeHolds(s, changes[i]) {
      assert ChangeHolds(s, s.changes[i]);
    }
    ChangesStepKeeps(s, changes);
  }

  lemma ConfirmKeeps(s: State, change: nat, tenant: string, owner: string, token: string, accountReady: bool)
    requires Holds(s)
    requires Confirm(s, change, tenant, owner, token, accountReady, s.clock).Ok?
    ensures Holds(Confirm(s, change, tenant, owner, token, accountReady, s.clock).value)
  {
    var next := ConfirmIs(s, change, tenant, owner, token, accountReady);
    var c := s.changes[change];
    assert ChangeHolds(s, c);
    if c.kind.SwitchAccount? {
      WorkersStepKeeps(s, next.workers);
    } else {
      ApplyLibraryKeeps(s, c);
    }
    ResolvedKeeps(next, change);
  }

  lemma RevokeKeeps(s: State, ws: Workspace, g: nat)
    requires Holds(s) && Revoke(s, ws, g, s.clock).Ok?
    ensures Holds(Revoke(s, ws, g, s.clock).value)
  {
    var t := Revoke(s, ws, g, s.clock).value;
    WorkersStepKeeps(s, t.workers);
    RevokeRowKeeps(s.(workers := t.workers), g, s.clock);
  }

  /** Every request that succeeds keeps the invariant. */
  lemma OutcomeKeeps(s: State, op: Op)
    requires Holds(s)
    requires Outcome(s, op).Ok?
    ensures Holds(Outcome(s, op).value)
  {
    match op
    case DoPublish(m) => PublishKeeps(s, m);
    case DoSetStatus(lib, status, reason) => SetStatusKeeps(s, lib, status, reason);
    case DoPrepare(ws, kind, lib, requested, ttl, token) =>
      PrepareKeeps(s, ws, kind, lib, requested, ttl, token, s.clock);
    case DoPrepareSwitch(ws, selection, ttl, token) =>
      var c := Change(ws, SwitchAccount(selection), 0, {}, [], token, s.clock + Lifetime(ttl), false);
      assert ChangeHolds(s, c);
      ChangesStepKeeps(s, s.changes + [c]);
    case DoConfirm(change, tenant, owner, token, accountReady) =>
      ConfirmKeeps(s, change, tenant, owner, token, accountReady);
    case DoRevoke(ws, g) => RevokeKeeps(s, ws, g);
    case DoEdit(ws, bundle) => WorkersStepKeeps(s, s.workers[ws := s.workers[ws].(bundle := bundle)]);
    case DoAddWorkspace(ws, worker) => WorkersStepKeeps(s, s.workers[ws := worker]);
  }

  /** Every event keeps the invariant. */
  lemma NextKeeps(s: State, e: Event)
    requires Holds(s)
    ensures Holds(Next(s, e))
  {
    ClockKeeps(s, s.clock + e.elapsed);
    if Outcome(Tick(s, e), e.op).Ok? { OutcomeKeeps(Tick(s, e), e.op); }
  }

  /** Hence every state of every run keeps it, and the empty store has it. */
  lemma {:induction false} ReachableHolds(states: seq<State>, events: seq<Event>, n: nat)
    requires IsRun(states, events) && Holds(states[0])
    requires n < |states|
    ensures Holds(states[n])
  {
    if n != 0 {
      ReachableHolds(states, events, n - 1);
      assert Step(states[n - 1], events[n - 1], states[n]);
      NextKeeps(states[n - 1], events[n - 1]);
    }
  }

  lemma EmptyHolds()
    ensures Holds(Empty)
  {
  }
}
