/** Safety over whole runs of the control plane. */
module CapabilityRuns {
  import opened Prelude
  import opened Bundles
  import opened SemanticVersions
  import opened Library
  import opened InstallPlan
  import opened Capabilities
  import opened CapabilityInvariants

  // ---------------------------------------------------------------------------
  // Reachable libraries and grants
  // ---------------------------------------------------------------------------

  ghost predicate Reachable(states: seq<State>, events: seq<Event>) {
    IsRun(states, events) && states[0] == Empty
  }

  /** In every reachable library no row depends on itself along any dependencies, whatever the rows' status. */
  lemma ReachableAcyclic(states: seq<State>, events: seq<Event>, n: nat, i: nat, k: nat)
    requires Reachable(states, events) && n < |states| && k > 0
    ensures !DependsIn(states[n].library, i, i, k)
  {
    EmptyHolds();
    ReachableHolds(states, events, n);
    if DependsIn(states[n].library, i, i, k) { DependenciesDescend(states[n].library, i, i, k); }
  }

  /** In every reachable library, planning an available, compatible item fails only on disagreeing scopes. */
  lemma ReachablePlanOutcome(states: seq<State>, events: seq<Event>, n: nat, profile: string, root: nat)
    requires Reachable(states, events) && n < |states|
    requires AvailableAt(states[n].library, root) && profile in states[n].library[root].manifest.profiles
    ensures var cat := states[n].library;
            && AcyclicFrom(cat, root)
            && (Plan(cat, profile, root).Ok? <==> ScopesAgree(cat, root))
            && (Plan(cat, profile, root).Err? ==> Plan(cat, profile, root).error == ScopesInconsistent)
  {
    EmptyHolds();
    ReachableHolds(states, events, n);
    SoundPlanOutcome(states[n].library, profile, root);
    SoundAcyclic(states[n].library, profile, root);
  }

  lemma SoundAcyclic(cat: Catalog, profile: string, root: nat)
    requires SoundCatalog(cat) && AvailableAt(cat, root) && profile in cat[root].manifest.profiles
    ensures AcyclicFrom(cat, root)
  {
    forall i: nat, n: nat | Reaches(cat, root, i) && n > 0
      ensures !ReachesIn(cat, i, i, n)
    {
      var k: nat :| ReachesIn(cat, root, i, k);
      SoundReach(cat, profile, root, i, k);
      if ReachesIn(cat, i, i, n) { SoundReach(cat, profile, i, i, n); }
    }
  }

  /** While a grant is active, everything it installed stays available, dependencies included. */
  lemma ActiveGrantStaysAvailable(states: seq<State>, events: seq<Event>, n: nat, g: nat)
    requires Reachable(states, events) && n < |states|
    requires g < |states[n].grants| && states[n].grants[g].revokedAt.None?
    ensures AllAvailable(states[n].library, states[n].grants[g].plan)
  {
    EmptyHolds();
    ReachableHolds(states, events, n);
    assert GrantHolds(states[n], states[n].grants[g]);
  }

  // ---------------------------------------------------------------------------
  // Upgrade lineages
  // ---------------------------------------------------------------------------

  /** Grant `h` is what grant `g` replaced, `n` upgrades back. */
  ghost predicate Ancestor(grants: seq<Grant>, g: nat, h: nat, n: nat)
    decreases n
  {
    if n == 0 then g == h
    else g < |grants| && grants[g].replaced.Some? && Ancestor(grants, grants[g].replaced.value, h, n - 1)
  }

  /** Down any chain of upgrades: strictly newer, never wider, undone to the same bundle. */
  lemma {:induction false} LineageNarrows(s: State, g: nat, h: nat, n: nat)
    requires Holds(s)
    requires g < |s.grants| && n > 0 && Ancestor(s.grants, g, h, n)
    ensures h < g && Supersedes(s.library, s.grants[g], s.grants[h])
    decreases n
  {
    var parent := s.grants[g].replaced.value;
    assert Supersedes(s.library, s.grants[g], s.grants[parent]);
    if n > 1 {
      LineageNarrows(s, parent, h, n - 1);
      var cat := s.library;
      NewerIsStrictOrder(cat[s.grants[g].lib].manifest.id.version, cat[s.grants[parent].lib].manifest.id.version,
        cat[s.grants[h].lib].manifest.id.version);
    }
  }

  /** The grant a chain of upgrades began with. */
  function LineageStart(grants: seq<Grant>, g: nat): (r: nat)
    requires g < |grants|
    requires forall i :: 0 <= i < |grants| && grants[i].replaced.Some? ==> grants[i].replaced.value < i
    ensures r < |grants| && grants[r].replaced.None?
  {
    if grants[g].replaced.None? then g else LineageStart(grants, grants[g].replaced.value)
  }

  lemma {:induction false} LineageSharesPrior(s: State, g: nat)
    requires LineageHolds(s) && g < |s.grants|
    ensures s.grants[g].prior == s.grants[LineageStart(s.grants, g)].prior
    ensures s.grants[g].ws == s.grants[LineageStart(s.grants, g)].ws
  {
    if s.grants[g].replaced.Some? {
      assert Supersedes(s.library, s.grants[g], s.grants[s.grants[g].replaced.value]);
      LineageSharesPrior(s, s.grants[g].replaced.value);
    }
  }

  // ---------------------------------------------------------------------------
  // Rows are written once
  // ---------------------------------------------------------------------------

  /** The same row, up to whether it has been revoked. */
  predicate SameGrant(g: Grant, h: Grant) {
    g.(revokedAt := None) == h.(revokedAt := None) && (g.revokedAt.Some? ==> h.revokedAt == g.revokedAt)
  }

  predicate SameChange(c: Change, d: Change) {
    c.(confirmed := false) == d.(confirmed := false) && (c.confirmed ==> d.confirmed)
  }

  /** Nothing recorded in `s` is rewritten in `t`. */
  ghost predicate Grows(s: State, t: State) {
    && s.clock <= t.clock
    && Extends(s.library, t.library)
    && |s.grants| <= |t.grants| && (forall i :: 0 <= i < |s.grants| ==> SameGrant(s.grants[i], t.grants[i]))
    && |s.changes| <= |t.changes| && (forall i :: 0 <= i < |s.changes| ==> SameChange(s.changes[i], t.changes[i]))
    && s.workers.Keys <= t.workers.Keys
    && forall ws :: ws in s.workers ==> t.workers[ws].profile == s.workers[ws].profile
  }

  lemma GrowsTransitive(s: State, t: State, u: State)
    requires Grows(s, t) && Grows(t, u)
    ensures Grows(s, u)
  {
    forall i | 0 <= i < |s.grants| ensures SameGrant(s.grants[i], u.grants[i]) {
      assert SameGrant(t.grants[i], u.grants[i]);
    }
    forall i | 0 <= i < |s.changes| ensures SameChange(s.changes[i], u.changes[i]) {
      assert SameChange(t.changes[i], u.changes[i]);
    }
  }

  lemma LibraryOutcomeGrows(s: State, op: Op)
    requires op.DoPublish? || op.DoSetStatus?
    requires Outcome(s, op).Ok?
    ensures Grows(s, Outcome(s, op).value)
    ensures Outcome(s, op).value == s.(library := Outcome(s, op).value.library)
  {
  }

  lemma ApplyLibraryGrows(s: State, c: Change)
    requires Holds(s) && ChangeHolds(s, c) && !c.kind.SwitchAccount?
    requires ApplyLibrary(s, c, s.clock).Ok?
    ensures Grows(s, ApplyLibrary(s, c, s.clock).value)
  {
    var g := ApplyLibraryWrites(s, c);
    if c.kind.Upgrade? { UpgradeSupersedes(s, c, g); }
  }

  lemma ResolvedGrows(s: State, change: nat)
    requires change < |s.changes|
    ensures Grows(s, Resolved(s, change))
  {
  }

  lemma ConfirmGrows(s: State, op: Op)
    requires Holds(s)
    requires op.DoConfirm? && Outcome(s, op).Ok?
    ensures Grows(s, Outcome(s, op).value)
  {
    var next := ConfirmIs(s, op.change, op.tenant, op.owner, op.token, op.accountReady);
    var c := s.changes[op.change];
    assert ChangeHolds(s, c);
    if !c.kind.SwitchAccount? { ApplyLibraryGrows(s, c); }
    ResolvedGrows(next, op.change);
    GrowsTransitive(s, next, Resolved(next, op.change));
  }

  lemma PrepareOutcomeGrows(s: State, op: Op)
    requires op.DoPrepare? || op.DoPrepareSwitch?
    requires Outcome(s, op).Ok?
    ensures Grows(s, Outcome(s, op).value)
  {
  }

  lemma WorkersOutcomeGrows(s: State, op: Op)
    requires op.DoRevoke? || op.DoEdit? || op.DoAddWorkspace?
    requires Outcome(s, op).Ok?
    ensures Grows(s, Outcome(s, op).value)
  {
  }

  lemma OutcomeGrows(s: State, op: Op)
    requires Holds(s)
    requires Outcome(s, op).Ok?
    ensures Grows(s, Outcome(s, op).value)
  {
    if op.DoPublish? || op.DoSetStatus? { LibraryOutcomeGrows(s, op); }
    else if op.DoPrepare? || op.DoPrepareSwitch? { PrepareOutcomeGrows(s, op); }
    else if op.DoConfirm? { ConfirmGrows(s, op); }
    else { WorkersOutcomeGrows(s, op); }
  }

  lemma TickGrows(s: State, e: Event)
    ensures Grows(s, Tick(s, e))
  {
  }

  lemma NextGrows(s: State, e: Event)
    requires Holds(s)
    ensures Grows(s, Next(s, e))
  {
    ClockKeeps(s, s.clock + e.elapsed);
    TickGrows(s, e);
    if Succeeds(s, e) {
      OutcomeGrows(Tick(s, e), e.op);
      GrowsTransitive(s, Tick(s, e), Next(s, e));
    }
  }

  lemma StepGrows(states: seq<State>, events: seq<Event>, k: nat)
    requires IsRun(states, events) && Holds(states[0])
    requires k < |events|
    ensures Grows(states[k], states[k + 1])
  {
    ReachableHolds(states, events, k);
    assert Step(states[k], events[k], states[k + 1]);
    NextGrows(states[k], events[k]);
  }

  lemma GrowsReflexive(s: State)
    ensures Grows(s, s)
  {
  }

  lemma {:induction false} GrowsAlong(states: seq<State>, m: nat, n: nat)
    requires m <= n < |states|
    requires forall k :: m <= k < n ==> Grows(states[k], states[k + 1])
    ensures Grows(states[m], states[n])
    decreases n
  {
    if m == n {
      GrowsReflexive(states[m]);
    } else {
      GrowsAlong(states, m, n - 1);
      GrowsTransitive(states[m], states[n - 1], states[n]);
    }
  }

  lemma RunGrows(states: seq<State>, events: seq<Event>, m: nat, n: nat)
    requires IsRun(states, events) && Holds(states[0])
    requires m <= n < |states|
    ensures Grows(states[m], states[n])
  {
    forall k | m <= k < n ensures Grows(states[k], states[k + 1]) {
      StepGrows(states, events, k);
    }
    GrowsAlong(states, m, n);
  }

  // ---------------------------------------------------------------------------
  // Review and confirm
  // ---------------------------------------------------------------------------

  /** Event `n` of the run confirms change `c`. */
  ghost predicate Confirms(states: seq<State>, events: seq<Event>, n: nat, c: nat)
    requires IsRun(states, events)
  {
    && n < |events|
    && events[n].op.DoConfirm? && events[n].op.change == c
    && Succeeds(states[n], events[n])
  }

  lemma ConfirmResolves(s: State, e: Event)
    requires e.op.DoConfirm? && Succeeds(s, e)
    ensures e.op.change < |s.changes| == |Next(s, e).changes|
    ensures !s.changes[e.op.change].confirmed && Next(s, e).changes[e.op.change].confirmed
    ensures Next(s, e).clock == s.clock + e.elapsed < s.changes[e.op.change].expiresAt
    ensures e.op.token == s.changes[e.op.change].token
  {
  }

  /** A change is applied at most once in any run. */
  lemma ConfirmedAtMostOnce(states: seq<State>, events: seq<Event>, m: nat, n: nat, c: nat)
    requires Reachable(states, events)
    requires Confirms(states, events, m, c) && Confirms(states, events, n, c)
    ensures m == n
  {
    EmptyHolds();
    var i, j := if m < n then m else n, if m < n then n else m;
    if i < j {
      assert Step(states[i], events[i], states[i + 1]);
      ConfirmResolves(states[i], events[i]);
      ConfirmResolves(states[j], events[j]);
      RunGrows(states, events, i + 1, j);
    }
  }

  /** What confirming a library change records: the plan, order and scopes the change holds. */
  lemma ConfirmInstalls(s: State, op: Op)
    requires Holds(s) && op.DoConfirm? && Outcome(s, op).Ok?
    requires !s.changes[op.change].kind.SwitchAccount?
    ensures var c, t := s.changes[op.change], Outcome(s, op).value;
            && |t.grants| == |s.grants| + 1
            && var g := t.grants[|s.grants|];
               && InTable(t.library, g.plan) && Snapshot(t.library, g.plan) == c.plan
               && c.plan != [] && g.scopes == c.plan[|c.plan| - 1].scopes && g.ws == c.ws
  {
    var _ := ConfirmIs(s, op.change, op.tenant, op.owner, op.token, op.accountReady);
    assert ChangeHolds(s, s.changes[op.change]);
    var _ := ApplyLibraryWrites(s, s.changes[op.change]);
  }

  /**
   * A library change is installed before it expires, exactly as it was reviewed, however the catalog moved in between.
   */
  lemma InstalledAsReviewed(states: seq<State>, events: seq<Event>, m: nat, n: nat, c: nat)
    requires Reachable(states, events)
    requires m < n < |events| && c == |states[m].changes| < |states[m + 1].changes|
    requires Confirms(states, events, n, c)
    requires !states[m + 1].changes[c].kind.SwitchAccount?
    ensures var reviewed, g := states[m + 1].changes[c], |states[n].grants|;
            && states[n + 1].clock < reviewed.expiresAt <= states[m + 1].clock + 1800
            && |states[n + 1].grants| == g + 1
            && InTable(states[n + 1].library, states[n + 1].grants[g].plan)
            && Snapshot(states[n + 1].library, states[n + 1].grants[g].plan) == reviewed.plan
            && reviewed.plan != [] && states[n + 1].grants[g].scopes == reviewed.plan[|reviewed.plan| - 1].scopes
            && states[n + 1].grants[g].ws == reviewed.ws
  {
    EmptyHolds();
    assert Step(states[m], events[m], states[m + 1]);
    assert Step(states[n], events[n], states[n + 1]);
    ReachableHolds(states, events, n);
    RunGrows(states, events, m + 1, n);
    var s := Tick(states[n], events[n]);
    assert SameChange(states[m + 1].changes[c], states[n].changes[c]);
    ClockKeeps(states[n], s.clock);
    NewChangeExpiry(states[m], events[m]);
    ConfirmResolves(states[n], events[n]);
    ConfirmInstalls(s, events[n].op);
  }

  lemma NewChangeExpiry(s: State, e: Event)
    requires |s.changes| < |Next(s, e).changes|
    ensures Next(s, e).changes[|s.changes|].expiresAt <= Next(s, e).clock + 1800
  {
    match e.op
    case DoPublish(_) =>
    case DoSetStatus(_, _, _) =>
    case DoPrepare(_, _, _, _, _, _) =>
    case DoPrepareSwitch(_, _, _, _) =>
    case DoConfirm(_, _, _, _, _) =>
    case DoRevoke(_, _) =>
    case DoEdit(_, _) =>
    case DoAddWorkspace(_, _) =>
  }

  // ---------------------------------------------------------------------------
  // Undoing, with outside edits interleaved
  // ---------------------------------------------------------------------------

  function BundleOf(s: State, ws: Workspace): Option<Bundle> {
    if ws in s.workers then Some(s.workers[ws].bundle) else None
  }

  /**
   * What adding grant number `g` did: it recorded the bundle before (or the replaced grant's) and left the one it
   * applied.
   */
  ghost predicate GrantWritten(s: State, t: State, g: nat) {
    && |s.grants| == g && |t.grants| == g + 1
    && var row := t.grants[g];
       && row.ws in s.workers && row.ws in t.workers
       && t.workers[row.ws].bundle == row.applied
       && (if row.replaced.None? then s.workers[row.ws].bundle == row.prior
           else row.replaced.value < g && s.workers[row.ws].bundle == s.grants[row.replaced.value].applied)
  }

  lemma ApplyWritesGrant(s: State, c: Change)
    requires Holds(s) && ChangeHolds(s, c) && !c.kind.SwitchAccount?
    requires ApplyLibrary(s, c, s.clock).Ok?
    ensures GrantWritten(s, ApplyLibrary(s, c, s.clock).value, |s.grants|)
  {
    var g := ApplyLibraryWrites(s, c);
    if c.kind.Upgrade? { UpgradeFindsApplied(s, c.(scopes := g.scopes), g.plan); }
  }

  /** An upgrade's base is only found over the bundle its target left. */
  lemma UpgradeFindsApplied(s: State, c: Change, plan: seq<PlanItem>)
    requires c.kind.Upgrade? && c.ws in s.workers && c.lib < |s.library|
    requires InstallBase(s, c, plan).Ok?
    ensures s.workers[c.ws].bundle == s.grants[c.kind.current].applied
  {
  }

  lemma ConfirmWritesGrant(s: State, op: Op)
    requires Holds(s) && op.DoConfirm? && Outcome(s, op).Ok?
    ensures Outcome(s, op).value.grants == s.grants || GrantWritten(s, Outcome(s, op).value, |s.grants|)
  {
    var next := ConfirmIs(s, op.change, op.tenant, op.owner, op.token, op.accountReady);
    var c := s.changes[op.change];
    assert ChangeHolds(s, c);
    if !c.kind.SwitchAccount? { ApplyWritesGrant(s, c); }
  }

  lemma StepWritesGrant(states: seq<State>, events: seq<Event>, k: nat)
    requires IsRun(states, events) && Holds(states[0])
    requires k < |events|
    ensures |states[k + 1].grants| == |states[k].grants| || GrantWritten(states[k], states[k + 1], |states[k].grants|)
  {
    ReachableHolds(states, events, k);
    assert Step(states[k], events[k], states[k + 1]);
    var s, op := Tick(states[k], events[k]), events[k].op;
    ClockKeeps(states[k], s.clock);
    if Outcome(s, op).Ok? {
      match op
      case DoConfirm(_, _, _, _, _) => ConfirmWritesGrant(s, op);
      case DoPublish(_) => LibraryOutcomeGrows(s, op);
      case DoSetStatus(_, _, _) => LibraryOutcomeGrows(s, op);
      case _ =>
    }
  }

  ghost predicate WritesAtMostOne(s: State, t: State) {
    |t.grants| == |s.grants| || GrantWritten(s, t, |s.grants|)
  }

  lemma {:induction false} OriginAlong(states: seq<State>, n: nat, g: nat) returns (t: nat)
    requires n < |states| && |states[0].grants| <= g < |states[n].grants|
    requires forall k :: 0 <= k < n ==> WritesAtMostOne(states[k], states[k + 1])
    ensures t < n && GrantWritten(states[t], states[t + 1], g)
    decreases n
  {
    assert WritesAtMostOne(states[n - 1], states[n]);
    if g < |states[n - 1].grants| {
      t := OriginAlong(states, n - 1, g);
    } else {
      t := n - 1;
    }
  }

  /** Every grant of a reachable state was written by some earlier step. */
  lemma GrantOrigin(states: seq<State>, events: seq<Event>, n: nat, g: nat) returns (t: nat)
    requires Reachable(states, events) && n < |states|
    requires g < |states[n].grants|
    ensures t < n && GrantWritten(states[t], states[t + 1], g)
  {
    EmptyHolds();
    forall k | 0 <= k < n ensures WritesAtMostOne(states[k], states[k + 1]) {
      StepWritesGrant(states, events, k);
    }
    t := OriginAlong(states, n, g);
  }

  /** Event `n` revokes grant `g` of `ws`. */
  ghost predicate Revokes(states: seq<State>, events: seq<Event>, n: nat, ws: Workspace, g: nat)
    requires IsRun(states, events)
  {
    n < |events| && events[n].op == DoRevoke(ws, g) && Succeeds(states[n], events[n])
  }

  lemma RevokeWrites(s: State, e: Event)
    requires e.op.DoRevoke? && Succeeds(s, e)
    ensures e.op.grant < |s.grants| && s.grants[e.op.grant].ws == e.op.ws
    ensures BundleOf(s, e.op.ws) == Some(s.grants[e.op.grant].applied)
    ensures BundleOf(Next(s, e), e.op.ws) == Some(s.grants[e.op.grant].prior)
  {
  }

  /** A revoke happens only over the very bundle its grant left: it discards no edit made since. */
  lemma RevokeDiscardsNoEdit(states: seq<State>, events: seq<Event>, n: nat, ws: Workspace, g: nat) returns (t: nat)
    requires Reachable(states, events) && Revokes(states, events, n, ws, g)
    ensures t < n && GrantWritten(states[t], states[t + 1], g)
    ensures BundleOf(states[n], ws) == BundleOf(states[t + 1], ws)
  {
    EmptyHolds();
    RevokeWrites(states[n], events[n]);
    t := GrantOrigin(states, events, n, g);
    RunGrows(states, events, t + 1, n);
    assert SameGrant(states[t + 1].grants[g], states[n].grants[g]);
  }

  lemma LineageStartOf(states: seq<State>, events: seq<Event>, n: nat, g: nat) returns (root: nat)
    requires Reachable(states, events) && n < |states| && g < |states[n].grants|
    ensures exists k: nat :: Ancestor(states[n].grants, g, root, k)
    ensures root < |states[n].grants| && states[n].grants[root].replaced.None?
    ensures states[n].grants[g].prior == states[n].grants[root].prior &&
      states[n].grants[g].ws == states[n].grants[root].ws
  {
    EmptyHolds();
    ReachableHolds(states, events, n);
    root := LineageStart(states[n].grants, g);
    LineageSharesPrior(states[n], g);
    var k := LineageStartIsAncestor(states[n].grants, g);
  }

  /** A grant row reads the same from the step that wrote it on. */
  lemma RowKept(states: seq<State>, events: seq<Event>, t: nat, n: nat, g: nat)
    requires Reachable(states, events) && t < n < |states|
    requires GrantWritten(states[t], states[t + 1], g)
    ensures g < |states[n].grants| && SameGrant(states[t + 1].grants[g], states[n].grants[g])
  {
    EmptyHolds();
    RunGrows(states, events, t + 1, n);
  }

  /** A revoke puts the workspace back to what it held just before its whole lineage of upgrades began. */
  lemma RevokeRestoresLineageStart(states: seq<State>, events: seq<Event>, n: nat, ws: Workspace, g: nat)
      returns (root: nat, t: nat)
    requires Reachable(states, events) && Revokes(states, events, n, ws, g)
    ensures exists k: nat :: Ancestor(states[n].grants, g, root, k)
    ensures root < |states[n].grants| && states[n].grants[root].replaced.None?
    ensures t < n && GrantWritten(states[t], states[t + 1], root)
    ensures BundleOf(states[n + 1], ws) == BundleOf(states[t], ws)
  {
    RevokeWrites(states[n], events[n]);
    root := LineageStartOf(states, events, n, g);
    t := GrantOrigin(states, events, n, root);
    RowKept(states, events, t, n, root);
    assert Step(states[n], events[n], states[n + 1]);
  }

  lemma {:induction false} LineageStartIsAncestor(grants: seq<Grant>, g: nat) returns (k: nat)
    requires g < |grants|
    requires forall i :: 0 <= i < |grants| && grants[i].replaced.Some? ==> grants[i].replaced.value < i
    ensures Ancestor(grants, g, LineageStart(grants, g), k)
  {
    if grants[g].replaced.None? {
      k := 0;
    } else {
      k := LineageStartIsAncestor(grants, grants[g].replaced.value);
      k := k + 1;
    }
  }

  /** The bundle an upgrade finds is the one its target applied. */
  lemma UpgradeFinds(s: State, t: State, g: nat) returns (h: nat)
    requires GrantWritten(s, t, g) && t.grants[g].replaced.Some?
    ensures t.grants[g].replaced == Some(h) && h < g
    ensures BundleOf(s, t.grants[g].ws) == Some(s.grants[h].applied)
  {
    h := t.grants[g].replaced.value;
  }

  /** And its target is a grant of the same workspace. */
  lemma UpgradeStays(s: State, g: nat, h: nat)
    requires LineageHolds(s) && g < |s.grants| && s.grants[g].replaced == Some(h)
    ensures h < g && s.grants[h].ws == s.grants[g].ws
  {
    assert Supersedes(s.library, s.grants[g], s.grants[h]);
  }

  /** Nor does an upgrade: it happens only over the very bundle the replaced grant left. */
  lemma UpgradeDiscardsNoEdit(states: seq<State>, events: seq<Event>, n: nat, g: nat) returns (h: nat, t: nat)
    requires Reachable(states, events) && n < |events|
    requires g == |states[n].grants| < |states[n + 1].grants| && states[n + 1].grants[g].replaced.Some?
    ensures h < g && states[n + 1].grants[g].replaced == Some(h)
    ensures t < n && GrantWritten(states[t], states[t + 1], h)
    ensures BundleOf(states[n], states[n + 1].grants[g].ws) == BundleOf(states[t + 1], states[n + 1].grants[g].ws)
  {
    EmptyHolds();
    StepWritesGrant(states, events, n);
    h := UpgradeFinds(states[n], states[n + 1], g);
    t := GrantOrigin(states, events, n, h);
    RowKept(states, events, t, n, h);
    RowKept(states, events, t, n + 1, h);
    ReachableHolds(states, events, n + 1);
    UpgradeStays(states[n + 1], g, h);
  }
}
