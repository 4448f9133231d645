/**
 * A workspace without outside edits is a stack: its base bundle with the active grants' plans merged on top, in order.
 */
module CapabilityStacks {
  import opened Prelude
  import opened Bundles
  import opened Library
  import opened InstallPlan
  import opened Capabilities
  import opened CapabilityInvariants
  import opened CapabilityRuns

  // ---------------------------------------------------------------------------
  // The active grants of a workspace, oldest first
  // ---------------------------------------------------------------------------

  function ActiveIds(grants: seq<Grant>, ws: Workspace): seq<nat> {
    if grants == [] then []
    else
      var n := |grants| - 1;
      ActiveIds(grants[..n], ws) + if Active(grants[n], ws) then [n] else []
  }

  lemma {:induction false} ActiveIdsSpec(grants: seq<Grant>, ws: Workspace)
    ensures var ids := ActiveIds(grants, ws);
            && (forall k :: 0 <= k < |ids| ==> ids[k] < |grants| && Active(grants[ids[k]], ws))
            && (forall k, l :: 0 <= k < l < |ids| ==> ids[k] < ids[l])
            && (forall i :: 0 <= i < |grants| && Active(grants[i], ws) ==> i in ids)
  {
    if grants != [] {
      var n := |grants| - 1;
      ActiveIdsSpec(grants[..n], ws);
      assert forall i :: 0 <= i < n ==> grants[..n][i] == grants[i];
    }
  }

  lemma {:induction false} SameActiveIds(grants: seq<Grant>, after: seq<Grant>, ws: Workspace)
    requires |grants| <= |after|
    requires forall i :: 0 <= i < |grants| ==> (Active(after[i], ws) <==> Active(grants[i], ws))
    requires forall i :: |grants| <= i < |after| ==> !Active(after[i], ws)
    ensures ActiveIds(after, ws) == ActiveIds(grants, ws)
  {
    if after != [] {
      var n := |after| - 1;
      if |grants| == |after| { SameActiveIds(grants[..n], after[..n], ws); } else {
        SameActiveIds(grants, after[..n], ws);
      }
    }
  }

  lemma {:induction false} RevokedActiveIds(grants: seq<Grant>, ws: Workspace, now: nat)
    requires ActiveIds(grants, ws) != []
    ensures var ids := ActiveIds(grants, ws); var top := ids[|ids| - 1];
            top < |grants| && ActiveIds(Revoked(grants, top, now), ws) == ids[..|ids| - 1]
  {
    ActiveIdsSpec(grants, ws);
    var ids := ActiveIds(grants, ws);
    var n, top := |grants| - 1, ids[|ids| - 1];
    var after := Revoked(grants, top, now);
    if top == n {
      assert after[..n] == grants[..n];
    } else {
      RevokedActiveIds(grants[..n], ws, now);
      assert after[..n] == Revoked(grants[..n], top, now);
    }
  }

  lemma NewestIsTop(s: State, ws: Workspace)
    requires GrantsHold(s)
    ensures var ids := ActiveIds(s.grants, ws);
            Newest(s.grants, ws) == if ids == [] then None else Some(ids[|ids| - 1])
  {
    ActiveIdsSpec(s.grants, ws);
    NewestIsLastActive(s.grants, ws);
  }

  // ---------------------------------------------------------------------------
  // What installing a plan amounts to
  // ---------------------------------------------------------------------------

  function Activation(cat: Catalog, lib: nat, profile: string): Bundle
    requires lib < |cat|
  {
    if profile in cat[lib].manifest.bundles then cat[lib].manifest.bundles[profile] else map[]
  }

  /** The plan's activation bundles, merged in order. */
  function MergePlan(cat: Catalog, profile: string, bundle: Bundle, plan: seq<PlanItem>): Bundle
    requires InTable(cat, plan)
  {
    if plan == [] then bundle
    else Merge(MergePlan(cat, profile, bundle, plan[..|plan| - 1]), Activation(cat, plan[|plan| - 1].lib, profile))
  }

  lemma {:induction false} InstallMerges(cat: Catalog, profile: string, bundle: Bundle, plan: seq<PlanItem>)
    requires InTable(cat, plan)
    requires Install(cat, profile, bundle, plan).Ok?
    ensures Install(cat, profile, bundle, plan).value == MergePlan(cat, profile, bundle, plan)
  {
    if plan != [] { InstallMerges(cat, profile, bundle, plan[..|plan| - 1]); }
  }

  lemma {:induction false} MergePlanExtends(cat: Catalog, after: Catalog, profile: string, bundle: Bundle,
      plan: seq<PlanItem>)
    requires Extends(cat, after) && InTable(cat, plan)
    ensures MergePlan(after, profile, bundle, plan) == MergePlan(cat, profile, bundle, plan)
  {
    if plan != [] { MergePlanExtends(cat, after, profile, bundle, plan[..|plan| - 1]); }
  }

  /**
   * Keys a plan item was probed for are still there when the whole plan is installed; files, if later items list
   * theirs.
   */
  lemma {:induction false} PlanKeepsRequirements(cat: Catalog, profile: string, bundle: Bundle, plan: seq<PlanItem>,
      k: nat)
    requires InTable(cat, plan) && k < |plan|
    requires Install(cat, profile, bundle, plan).Ok?
    ensures var probe, installed := cat[plan[k].lib].manifest.probe, Install(cat, profile, bundle, plan).value;
            && probe.keys <= installed.Keys
            && ((forall j :: k < j < |plan| ==> FilesAreListed(Activation(cat, plan[j].lib, profile))) ==>
                  probe.files <= FilePaths(installed))
  {
    var n := |plan| - 1;
    MergeFilePaths(Install(cat, profile, bundle, plan[..n]).value, Activation(cat, plan[n].lib, profile));
    if k < n {
      PlanKeepsRequirements(cat, profile, bundle, plan[..n], k);
    }
  }

  /** One item that replaces `files`, last in the plan, loses every file required before it. */
  lemma LastItemLosesFiles(cat: Catalog, profile: string, bundle: Bundle, plan: seq<PlanItem>, k: nat)
    requires InTable(cat, plan) && k < |plan|
    requires Install(cat, profile, bundle, plan).Ok?
    requires !FilesAreListed(Activation(cat, plan[|plan| - 1].lib, profile))
    ensures cat[plan[k].lib].manifest.probe.files <= FilePaths(Install(cat, profile, bundle, plan).value)
       <==> cat[plan[k].lib].manifest.probe.files == {}
  {
    var n := |plan| - 1;
    MergeFilePaths(Install(cat, profile, bundle, plan[..n]).value, Activation(cat, plan[n].lib, profile));
  }

  // ---------------------------------------------------------------------------
  // The stack
  // ---------------------------------------------------------------------------

  /** Grant number `k` of the stack starts from what the one below applied, and applies its plan to it. */
  ghost predicate StackedAt(s: State, ws: Workspace, base: Bundle, ids: seq<nat>, k: nat)
    requires ws in s.workers && k < |ids|
  {
    && ids[k] < |s.grants|
    && (k > 0 ==> ids[k - 1] < |s.grants|)
    && var g := s.grants[ids[k]];
       && g.prior == (if k == 0 then base else s.grants[ids[k - 1]].applied)
       && InTable(s.library, g.plan)
       && g.applied == MergePlan(s.library, s.workers[ws].profile, g.prior, g.plan)
  }

  ghost predicate TopIs(s: State, ids: seq<nat>, base: Bundle, bundle: Bundle) {
    if ids == [] then bundle == base else ids[|ids| - 1] < |s.grants| && bundle == s.grants[ids[|ids| - 1]].applied
  }

  ghost predicate Stacked(s: State, ws: Workspace, base: Bundle) {
    var ids := ActiveIds(s.grants, ws);
    && ws in s.workers
    && (forall k :: 0 <= k < |ids| ==> StackedAt(s, ws, base, ids, k))
    && TopIs(s, ids, base, s.workers[ws].bundle)
  }

  /** The base with the plans of the given grants merged in order. */
  function MergedStack(cat: Catalog, profile: string, base: Bundle, grants: seq<Grant>, ids: seq<nat>): Bundle
    requires forall k :: 0 <= k < |ids| ==> ids[k] < |grants| && InTable(cat, grants[ids[k]].plan)
  {
    if ids == [] then base
    else
      var n := |ids| - 1;
      MergePlan(cat, profile, MergedStack(cat, profile, base, grants, ids[..n]), grants[ids[n]].plan)
  }

  lemma {:induction false} StackMerges(s: State, ws: Workspace, base: Bundle, ids: seq<nat>)
    requires ws in s.workers
    requires forall k :: 0 <= k < |ids| ==> StackedAt(s, ws, base, ids, k)
    ensures forall k :: 0 <= k < |ids| ==> ids[k] < |s.grants| && InTable(s.library, s.grants[ids[k]].plan)
    ensures var merged := MergedStack(s.library, s.workers[ws].profile, base, s.grants, ids);
            TopIs(s, ids, base, merged)
  {
    assert forall k :: 0 <= k < |ids| ==> StackedAt(s, ws, base, ids, k);
    if ids != [] {
      var n := |ids| - 1;
      forall k | 0 <= k < n ensures StackedAt(s, ws, base, ids[..n], k) {
        assert StackedAt(s, ws, base, ids, k);
      }
      StackMerges(s, ws, base, ids[..n]);
      assert StackedAt(s, ws, base, ids, n);
    }
  }

  /** Nothing outside the grant protocol writes this workspace's bundle. */
  predicate Quiet(s: State, e: Event, ws: Workspace) {
    && !(e.op.DoEdit? && e.op.ws == ws)
    && !(e.op.DoConfirm? && e.op.change < |s.changes| && s.changes[e.op.change].ws == ws &&
      s.changes[e.op.change].kind.SwitchAccount?)
  }

  /** A step that leaves the workspace and its active grants alone leaves the stack alone. */
  lemma StackUntouched(s: State, t: State, ws: Workspace, base: Bundle)
    requires Stacked(s, ws, base)
    requires Extends(s.library, t.library)
    requires ws in t.workers && t.workers[ws] == s.workers[ws]
    requires |s.grants| <= |t.grants|
    requires forall i :: 0 <= i < |s.grants| && s.grants[i].ws == ws ==> t.grants[i] == s.grants[i]
    requires forall i :: 0 <= i < |s.grants| ==> t.grants[i].ws == s.grants[i].ws
    requires forall i :: |s.grants| <= i < |t.grants| ==> t.grants[i].ws != ws
    ensures Stacked(t, ws, base)
  {
    SameActiveIds(s.grants, t.grants, ws);
    ActiveIdsSpec(s.grants, ws);
    var ids := ActiveIds(s.grants, ws);
    forall k | 0 <= k < |ids| ensures StackedAt(t, ws, base, ids, k) {
      assert StackedAt(s, ws, base, ids, k);
      var g := s.grants[ids[k]];
      MergePlanExtends(s.library, t.library, s.workers[ws].profile, g.prior, g.plan);
      if k > 0 { assert t.grants[ids[k - 1]] == s.grants[ids[k - 1]]; }
    }
  }

  lemma BelowTop(s: State, t: State, ws: Workspace, base: Bundle, ids: seq<nat>, k: nat)
    requires ws in s.workers && ws in t.workers && t.workers[ws].profile == s.workers[ws].profile
    requires k + 1 < |ids| && StackedAt(s, ws, base, ids, k) && t.library == s.library && |t.grants| == |s.grants|
    requires t.grants[ids[k]] == s.grants[ids[k]] && (k > 0 ==> t.grants[ids[k - 1]] == s.grants[ids[k - 1]])
    ensures StackedAt(t, ws, base, ids[..|ids| - 1], k)
  {
  }

  lemma NewTop(s: State, t: State, ws: Workspace, base: Bundle, ids: seq<nat>)
    requires ws in s.workers && ids != [] && StackedAt(s, ws, base, ids, |ids| - 1) && |t.grants| == |s.grants|
    requires |ids| > 1 ==> t.grants[ids[|ids| - 2]] == s.grants[ids[|ids| - 2]]
    ensures TopIs(t, ids[..|ids| - 1], base, s.grants[ids[|ids| - 1]].prior)
  {
  }

  /** Revoking the top leaves the rows of the grants below it as they are. */
  lemma BelowTopKept(grants: seq<Grant>, ws: Workspace, now: nat)
    requires ActiveIds(grants, ws) != []
    ensures var ids := ActiveIds(grants, ws); var n := |ids| - 1;
            ids[n] < |grants| && forall k :: 0 <= k < n ==>
              ids[k] < |grants| && Revoked(grants, ids[n], now)[ids[k]] == grants[ids[k]]
  {
    ActiveIdsSpec(grants, ws);
  }

  lemma RestStacked(s: State, t: State, ws: Workspace, base: Bundle, ids: seq<nat>)
    requires forall k :: 0 <= k < |ids| ==> ids[k] < |s.grants|
    requires ws in s.workers && ids != [] && forall k :: 0 <= k < |ids| ==> StackedAt(s, ws, base, ids, k)
    requires ws in t.workers && t.workers[ws] == s.workers[ws].(bundle := s.grants[ids[|ids| - 1]].prior)
    requires t.library == s.library && |t.grants| == |s.grants| && ActiveIds(t.grants, ws) == ids[..|ids| - 1]
    requires forall k :: 0 <= k < |ids| - 1 ==> t.grants[ids[k]] == s.grants[ids[k]]
    ensures Stacked(t, ws, base)
  {
    var n := |ids| - 1;
    assert StackedAt(s, ws, base, ids, n);
    forall k | 0 <= k < n ensures StackedAt(t, ws, base, ids[..n], k) {
      assert StackedAt(s, ws, base, ids, k);
      BelowTop(s, t, ws, base, ids, k);
    }
    NewTop(s, t, ws, base, ids);
  }

  /** The top grant taken off, and the bundle put back to where it started. */
  lemma StackPopped(s: State, t: State, ws: Workspace, base: Bundle)
    requires Stacked(s, ws, base)
    requires ActiveIds(s.grants, ws) != []
    requires var ids := ActiveIds(s.grants, ws);
             var top := ids[|ids| - 1];
             && top < |s.grants|
             && ws in s.workers
             && t.library == s.library
             && t.grants == Revoked(s.grants, top, t.clock)
             && ws in t.workers && t.workers[ws] == s.workers[ws].(bundle := s.grants[top].prior)
    ensures Stacked(t, ws, base)
    ensures var ids := ActiveIds(s.grants, ws); ActiveIds(t.grants, ws) == ids[..|ids| - 1]
  {
    RevokedActiveIds(s.grants, ws, t.clock);
    BelowTopKept(s.grants, ws, t.clock);
    RestStacked(s, t, ws, base, ActiveIds(s.grants, ws));
  }

  /** A grant put on top of the stack. */
  lemma StackPushed(s: State, t: State, ws: Workspace, base: Bundle, g: Grant)
    requires Stacked(s, ws, base)
    requires t.library == s.library
    requires Active(g, ws) && g.prior == s.workers[ws].bundle && InTable(s.library, g.plan)
    requires g.applied == MergePlan(s.library, s.workers[ws].profile, g.prior, g.plan)
    requires t.grants == s.grants + [g]
    requires ws in t.workers && t.workers[ws] == s.workers[ws].(bundle := g.applied)
    ensures Stacked(t, ws, base)
  {
    var n := |s.grants|;
    assert t.grants[..n] == s.grants;
    ActiveIdsSpec(s.grants, ws);
    var ids, ids' := ActiveIds(s.grants, ws), ActiveIds(t.grants, ws);
    forall k | 0 <= k < |ids'| ensures StackedAt(t, ws, base, ids', k) {
      if k < |ids| { assert StackedAt(s, ws, base, ids, k); }
    }
  }

  /** The top grant replaced: popped, and its successor pushed where it started. */
  lemma StackReplaced(s: State, t: State, ws: Workspace, base: Bundle, g: Grant)
    requires Stacked(s, ws, base) && ActiveIds(s.grants, ws) != []
    requires var ids := ActiveIds(s.grants, ws);
             var top := ids[|ids| - 1];
             && top < |s.grants|
             && t.grants == Revoked(s.grants, top, s.clock) + [g]
             && g.prior == s.grants[top].prior
    requires t.library == s.library
    requires Active(g, ws) && InTable(s.library, g.plan)
    requires g.applied == MergePlan(s.library, s.workers[ws].profile, g.prior, g.plan)
    requires ws in t.workers && t.workers[ws] == s.workers[ws].(bundle := g.applied)
    ensures Stacked(t, ws, base)
  {
    var ids := ActiveIds(s.grants, ws);
    var popped :=
      s.(grants := Revoked(s.grants, ids[|ids| - 1], s.clock),
        workers := s.workers[ws := s.workers[ws].(bundle := g.prior)]);
    StackPopped(s, popped, ws, base);
    StackPushed(popped, t, ws, base, g);
  }

  lemma AppliedHere(s: State, c: Change, g: Grant, t: State, base: Bundle)
    requires GrantsHold(s) && Stacked(s, c.ws, base)
    requires AppliedTo(s, c, g, t)
    requires g.applied == MergePlan(s.library, s.workers[c.ws].profile, g.prior, g.plan)
    requires if c.kind.Upgrade? then Newest(s.grants, c.ws) == Some(c.kind.current) &&
      g.prior == s.grants[c.kind.current].prior
             else g.prior == s.workers[c.ws].bundle
    ensures Stacked(t, c.ws, base)
  {
    if c.kind.Upgrade? {
      NewestIsTop(s, c.ws);
      StackReplaced(s, t, c.ws, base, g);
    } else {
      StackPushed(s, t, c.ws, base, g);
    }
  }

  lemma AppliedElsewhere(s: State, c: Change, g: Grant, t: State, ws: Workspace, base: Bundle)
    requires Stacked(s, ws, base) && c.ws != ws
    requires AppliedTo(s, c, g, t)
    requires c.kind.Upgrade? ==> c.kind.current < |s.grants| && s.grants[c.kind.current].ws == c.ws
    ensures Stacked(t, ws, base)
  {
    StackUntouched(s, t, ws, base);
  }

  lemma UpgradeBase(s: State, c: Change, plan: seq<PlanItem>)
    requires c.ws in s.workers && c.lib < |s.library|
    requires InstallBase(s, c, plan).Ok?
    ensures var prior := InstallBase(s, c, plan).value;
            if c.kind.Upgrade? then
              && c.kind.current < |s.grants| && Active(s.grants[c.kind.current], c.ws)
              && Newest(s.grants, c.ws) == Some(c.kind.current) && prior == s.grants[c.kind.current].prior
              && s.workers[c.ws].bundle == s.grants[c.kind.current].applied
            else prior == s.workers[c.ws].bundle
  {
  }

  lemma ApplyKeepsStack(s: State, c: Change, ws: Workspace, base: Bundle)
    requires Holds(s) && Stacked(s, ws, base) && !c.kind.SwitchAccount?
    requires ApplyLibrary(s, c, s.clock).Ok?
    ensures Stacked(ApplyLibrary(s, c, s.clock).value, ws, base)
  {
    var g := ApplyLibraryWrites(s, c);
    InstallMerges(s.library, s.workers[c.ws].profile, g.prior, g.plan);
    UpgradeBase(s, c.(scopes := g.scopes), g.plan);
    AppliedAnywhere(s, c, g, ApplyLibrary(s, c, s.clock).value, ws, base);
  }

  lemma AppliedAnywhere(s: State, c: Change, g: Grant, t: State, ws: Workspace, base: Bundle)
    requires GrantsHold(s) && Stacked(s, ws, base)
    requires AppliedTo(s, c, g, t)
    requires g.applied == MergePlan(s.library, s.workers[c.ws].profile, g.prior, g.plan)
    requires if c.kind.Upgrade? then Newest(s.grants, c.ws) == Some(c.kind.current) &&
      g.prior == s.grants[c.kind.current].prior
             else g.prior == s.workers[c.ws].bundle
    ensures Stacked(t, ws, base)
  {
    if c.ws == ws {
      AppliedHere(s, c, g, t, base);
    } else {
      AppliedElsewhere(s, c, g, t, ws, base);
    }
  }

  lemma ResolvedKeepsStack(s: State, change: nat, ws: Workspace, base: Bundle)
    requires Stacked(s, ws, base) && change < |s.changes|
    ensures Stacked(Resolved(s, change), ws, base)
  {
    StackUntouched(s, Resolved(s, change), ws, base);
  }

  lemma ConfirmKeepsStack(s: State, op: Op, ws: Workspace, base: Bundle)
    requires Holds(s) && Stacked(s, ws, base)
    requires op.DoConfirm? && Outcome(s, op).Ok?
    requires s.changes[op.change].ws == ws ==> !s.changes[op.change].kind.SwitchAccount?
    ensures Stacked(Outcome(s, op).value, ws, base)
  {
    var next := ConfirmIs(s, op.change, op.tenant, op.owner, op.token, op.accountReady);
    var c := s.changes[op.change];
    if c.kind.SwitchAccount? {
      StackUntouched(s, next, ws, base);
    } else {
      ApplyKeepsStack(s, c, ws, base);
    }
    ResolvedKeepsStack(next, op.change, ws, base);
  }

  lemma RevokeKeepsStack(s: State, op: Op, ws: Workspace, base: Bundle)
    requires Holds(s) && Stacked(s, ws, base)
    requires op.DoRevoke? && Outcome(s, op).Ok?
    ensures Stacked(Outcome(s, op).value, ws, base)
  {
    if op.ws == ws {
      NewestIsTop(s, ws);
      StackPopped(s, Outcome(s, op).value, ws, base);
    } else {
      StackUntouched(s, Outcome(s, op).value, ws, base);
    }
  }

  lemma LibraryKeepsStack(s: State, op: Op, ws: Workspace, base: Bundle)
    requires Stacked(s, ws, base)
    requires (op.DoPublish? || op.DoSetStatus?) && Outcome(s, op).Ok?
    ensures Stacked(Outcome(s, op).value, ws, base)
  {
    LibraryOutcomeGrows(s, op);
    StackUntouched(s, Outcome(s, op).value, ws, base);
  }

  lemma OthersKeepStack(s: State, op: Op, ws: Workspace, base: Bundle)
    requires Stacked(s, ws, base)
    requires (op.DoPrepare? || op.DoPrepareSwitch? || op.DoEdit? || op.DoAddWorkspace?) && Outcome(s, op).Ok?
    requires op.DoEdit? ==> op.ws != ws
    ensures Stacked(Outcome(s, op).value, ws, base)
  {
    StackUntouched(s, Outcome(s, op).value, ws, base);
  }

  lemma OutcomeKeepsStack(s: State, op: Op, ws: Workspace, base: Bundle)
    requires Holds(s) && Stacked(s, ws, base)
    requires Outcome(s, op).Ok?
    requires Quiet(s, Event(op, 0), ws)
    ensures Stacked(Outcome(s, op).value, ws, base)
  {
    if op.DoConfirm? { ConfirmKeepsStack(s, op, ws, base); }
    else if op.DoRevoke? { RevokeKeepsStack(s, op, ws, base); }
    else if op.DoPublish? || op.DoSetStatus? { LibraryKeepsStack(s, op, ws, base); }
    else { OthersKeepStack(s, op, ws, base); }
  }

  lemma NextKeepsStack(s: State, e: Event, ws: Workspace, base: Bundle)
    requires Holds(s) && Stacked(s, ws, base)
    requires Quiet(s, e, ws)
    ensures Stacked(Next(s, e), ws, base)
  {
    var ticked := Tick(s, e);
    ClockKeeps(s, ticked.clock);
    StackUntouched(s, ticked, ws, base);
    if Outcome(ticked, e.op).Ok? { OutcomeKeepsStack(ticked, e.op, ws, base); }
  }

  /** From a workspace without grants, quiet steps keep bundle and grants in step. */
  lemma {:induction false} QuietRunStacks(states: seq<State>, events: seq<Event>, ws: Workspace, base: Bundle, n: nat)
    requires IsRun(states, events) && Holds(states[0]) && n < |states|
    requires Stacked(states[0], ws, base)
    requires forall k :: 0 <= k < n ==> Quiet(states[k], events[k], ws)
    ensures Stacked(states[n], ws, base)
  {
    if n != 0 {
      QuietRunStacks(states, events, ws, base, n - 1);
      ReachableHolds(states, events, n - 1);
      assert Step(states[n - 1], events[n - 1], states[n]);
      NextKeepsStack(states[n - 1], events[n - 1], ws, base);
    }
  }

  /** Over any quiet run the bundle is the base with the active grants' plans merged in order. */
  lemma QuietBundleIsMergedStack(states: seq<State>, events: seq<Event>, ws: Workspace, base: Bundle, n: nat)
    requires IsRun(states, events) && Holds(states[0]) && n < |states|
    requires BundleOf(states[0], ws) == Some(base) && ActiveIds(states[0].grants, ws) == []
    requires forall k :: 0 <= k < n ==> Quiet(states[k], events[k], ws)
    ensures var s := states[n]; var ids := ActiveIds(s.grants, ws);
            && ws in s.workers
            && (forall k :: 0 <= k < |ids| ==> ids[k] < |s.grants| && InTable(s.library, s.grants[ids[k]].plan))
            && s.workers[ws].bundle == MergedStack(s.library, s.workers[ws].profile, base, s.grants, ids)
  {
    QuietRunStacks(states, events, ws, base, n);
    StackMerges(states[n], ws, base, ActiveIds(states[n].grants, ws));
  }

  /** Event `k` revokes the newest of `ids` that the `k` events before it left. */
  ghost predicate RevokesNth(states: seq<State>, events: seq<Event>, k: nat, ws: Workspace, ids: seq<nat>)
    requires IsRun(states, events) && k < |ids|
  {
    Revokes(states, events, k, ws, ids[|ids| - 1 - k])
  }

  /** The newest grant of a stack can be revoked. */
  lemma TopIsRevocable(s: State, ws: Workspace, base: Bundle)
    requires Holds(s) && Stacked(s, ws, base)
    requires ActiveIds(s.grants, ws) != []
    ensures var ids := ActiveIds(s.grants, ws); var top := ids[|ids| - 1];
            && top < |s.grants| && ws in s.workers
            && Revoke(s, ws, top, s.clock) ==
              Ok(s.(workers := s.workers[ws := s.workers[ws].(bundle := s.grants[top].prior)],
                                                   grants := Revoked(s.grants, top, s.clock)))
  {
    ActiveIdsSpec(s.grants, ws);
    NewestIsTop(s, ws);
  }

  lemma RevokeTop(s: State, ws: Workspace, base: Bundle) returns (e: Event)
    requires Holds(s) && Stacked(s, ws, base)
    requires ActiveIds(s.grants, ws) != []
    ensures var ids := ActiveIds(s.grants, ws);
            && e == Event(DoRevoke(ws, ids[|ids| - 1]), 0)
            && Succeeds(s, e)
            && Holds(Next(s, e)) && Stacked(Next(s, e), ws, base)
            && ActiveIds(Next(s, e).grants, ws) == ids[..|ids| - 1]
  {
    var ids := ActiveIds(s.grants, ws);
    e := Event(DoRevoke(ws, ids[|ids| - 1]), 0);
    TopIsRevocable(s, ws, base);
    assert Tick(s, e) == s;
    StackPopped(s, Next(s, e), ws, base);
    NextKeeps(s, e);
  }

  /** From there, revoking newest first succeeds every time and restores the base exactly. */
  lemma {:induction false} UnwindRestoresBase(s: State, ws: Workspace, base: Bundle)
      returns (states: seq<State>, events: seq<Event>)
    requires Holds(s) && Stacked(s, ws, base)
    ensures IsRun(states, events) && states[0] == s
    ensures var ids := ActiveIds(s.grants, ws);
            && |events| == |ids|
            && forall k :: 0 <= k < |events| ==> RevokesNth(states, events, k, ws, ids)
    ensures BundleOf(states[|events|], ws) == Some(base)
    ensures ActiveIds(states[|events|].grants, ws) == []
    decreases |ActiveIds(s.grants, ws)|
  {
    var ids := ActiveIds(s.grants, ws);
    if ids == [] {
      states, events := [s], [];
    } else {
      var e := RevokeTop(s, ws, base);
      var restStates, restEvents := UnwindRestoresBase(Next(s, e), ws, base);
      states, events := [s] + restStates, [e] + restEvents;
      PrependRun(s, e, restStates, restEvents);
      PrependRevokes(s, e, restStates, restEvents, ws, ids, ids[..|ids| - 1]);
      assert states[|events|] == restStates[|restEvents|];
    }
  }

  lemma PrependRevokes(s: State, e: Event, states: seq<State>, events: seq<Event>, ws: Workspace, ids: seq<nat>,
      rest: seq<nat>)
    requires IsRun(states, events) && IsRun([s] + states, [e] + events)
    requires |ids| == |events| + 1 && e.op == DoRevoke(ws, ids[|ids| - 1]) && Succeeds(s, e)
    requires rest == ids[..|ids| - 1] && forall k :: 0 <= k < |events| ==> RevokesNth(states, events, k, ws, rest)
    ensures forall k :: 0 <= k < |events| + 1 ==> RevokesNth([s] + states, [e] + events, k, ws, ids)
  {
    forall k | 0 <= k < |events| + 1
      ensures RevokesNth([s] + states, [e] + events, k, ws, ids)
    {
      if k > 0 { assert RevokesNth(states, events, k - 1, ws, rest); }
    }
  }

  lemma PrependRun(s: State, e: Event, states: seq<State>, events: seq<Event>)
    requires IsRun(states, events) && Step(s, e, states[0])
    ensures IsRun([s] + states, [e] + events)
  {
    var all, done := [s] + states, [e] + events;
    assert forall k :: 0 < k < |all| ==> all[k] == states[k - 1];
    assert forall k :: 0 < k < |done| ==> done[k] == events[k - 1];
    forall k | 0 <= k < |done| ensures Step(all[k], done[k], all[k + 1]) {
      if k > 0 { assert Step(states[k - 1], events[k - 1], states[k]); }
    }
  }

  // ---------------------------------------------------------------------------
  // Upgrade is revoke, then enable
  // ---------------------------------------------------------------------------

  /** The grant an enable of `c` would write, and the state it would leave. */
  lemma EnableApplies(s: State, c: Change, g: Grant)
    requires c.kind.Enable? && c.ws in s.workers
    requires Plan(s.library, s.workers[c.ws].profile, c.lib).Ok?
    requires g.ws == c.ws && g.lib == c.lib && g.replaced.None? && g.revokedAt.None? && g.createdAt == s.clock
    requires g.scopes ==
      (if c.scopes == {} then s.library[c.lib].manifest.scopes else c.scopes) <= s.library[c.lib].manifest.scopes
    requires g.plan == WithRootScopes(Plan(s.library, s.workers[c.ws].profile, c.lib).value, g.scopes)
    requires Snapshot(s.library, g.plan) == c.plan
    requires !StableEnabled(s.library, s.grants, c.ws, s.library[c.lib].manifest.id.stableId)
    requires g.prior == s.workers[c.ws].bundle
    requires Install(s.library, s.workers[c.ws].profile, g.prior, g.plan) == Ok(g.applied)
    ensures ApplyLibrary(s, c, s.clock) ==
            Ok(s.(workers := s.workers[c.ws := s.workers[c.ws].(bundle := g.applied)], grants := s.grants + [g]))
  {
  }

  /** The state an upgrade leaves, and the one revoking leaves. */
  lemma UpgradeWrites(s: State, c: Change) returns (g: Grant)
    requires Holds(s) && ChangeHolds(s, c) && c.kind.Upgrade?
    requires ApplyLibrary(s, c, s.clock).Ok?
    ensures c.ws in s.workers && c.kind.current < |s.grants| && g.createdAt == s.clock &&
      g.replaced == Some(c.kind.current)
    ensures ApplyLibrary(s, c, s.clock) ==
            Ok(s.(workers := s.workers[c.ws := s.workers[c.ws].(bundle := g.applied)],
                  grants := Revoked(s.grants, c.kind.current, s.clock) + [g]))
    ensures Revoke(s, c.ws, c.kind.current, s.clock) ==
            Ok(s.(workers := s.workers[c.ws := s.workers[c.ws].(bundle := g.prior)],
                  grants := Revoked(s.grants, c.kind.current, s.clock)))
    ensures var revoked := Revoke(s, c.ws, c.kind.current, s.clock).value;
            ApplyLibrary(revoked, c.(kind := Enable), s.clock) ==
            Ok(revoked.(workers := revoked.workers[c.ws := revoked.workers[c.ws].(bundle := g.applied)],
                        grants := revoked.grants + [g.(replaced := None)]))
  {
    g := ApplyLibraryWrites(s, c);
    UpgradeBase(s, c.(scopes := g.scopes), g.plan);
    UpgradeSupersedes(s, c, g);
    UpgradeClears(s, c.kind.current, s.clock);
    var revoked := s.(workers := s.workers[c.ws := s.workers[c.ws].(bundle := g.prior)],
                      grants := Revoked(s.grants, c.kind.current, s.clock));
    EnableApplies(revoked, c.(kind := Enable), g.(replaced := None));
  }

  /**
   * Applying an upgrade gives, the link to the old grant aside, what revoking it and enabling the new version gives.
   */
  lemma UpgradeIsRevokeThenEnable(s: State, c: Change)
    requires Holds(s) && ChangeHolds(s, c) && c.kind.Upgrade?
    requires ApplyLibrary(s, c, s.clock).Ok?
    ensures Revoke(s, c.ws, c.kind.current, s.clock).Ok?
    ensures var revoked := Revoke(s, c.ws, c.kind.current, s.clock).value;
            var enabled := ApplyLibrary(revoked, c.(kind := Enable), s.clock);
            var upgraded := ApplyLibrary(s, c, s.clock).value;
            && enabled.Ok?
            && |upgraded.grants| == |s.grants| + 1
            && enabled.value == upgraded.(grants := Unlinked(upgraded.grants, |s.grants|))
  {
    var g := UpgradeWrites(s, c);
    var revoked := Revoke(s, c.ws, c.kind.current, s.clock).value;
    UnlinkAppended(revoked.grants, g);
  }

  /** The table with one grant's link to its predecessor dropped. */
  function Unlinked(grants: seq<Grant>, i: nat): seq<Grant>
    requires i < |grants|
  {
    grants[i := grants[i].(replaced := None)]
  }

  lemma UnlinkAppended(grants: seq<Grant>, g: Grant)
    ensures Unlinked(grants + [g], |grants|) == grants + [g.(replaced := None)]
  {
  }

  /** The grant an enable of `c` would write, without what only an upgrade must also pass. */
  lemma EnableWrites(s: State, c: Change) returns (g: Grant)
    requires c.kind.Enable? && ApplyLibrary(s, c, s.clock).Ok?
    ensures c.ws in s.workers && Plan(s.library, s.workers[c.ws].profile, c.lib).Ok?
    ensures c.lib < |s.library|
    ensures g.scopes == (if c.scopes == {} then s.library[c.lib].manifest.scopes else c.scopes)
    ensures g.scopes <= s.library[c.lib].manifest.scopes
    ensures g.plan == WithRootScopes(Plan(s.library, s.workers[c.ws].profile, c.lib).value, g.scopes)
    ensures InTable(s.library, g.plan) && Snapshot(s.library, g.plan) == c.plan
    ensures g.prior == s.workers[c.ws].bundle
    ensures Install(s.library, s.workers[c.ws].profile, g.prior, g.plan) == Ok(g.applied)
    ensures |ApplyLibrary(s, c, s.clock).value.grants| == |s.grants| + 1
    ensures ApplyLibrary(s, c, s.clock).value.grants[|s.grants|] == g
  {
    var t := ApplyLibrary(s, c, s.clock).value;
    g := t.grants[|s.grants|];
  }

  /** What an upgrade must pass beyond revoking its target and enabling the new version. */
  ghost predicate UpgradeAllowed(s: State, c: Change, g: Grant) {
    && c.kind.Upgrade? && c.kind.current < |s.grants| && c.lib < |s.library|
    && s.grants[c.kind.current].lib < |s.library|
    && s.library[s.grants[c.kind.current].lib].manifest.id.stableId == s.library[c.lib].manifest.id.stableId
    && WideningObjection(s.grants[c.kind.current], g.scopes, g.plan).None?
  }

  lemma UpgradeApplies(s: State, c: Change, g: Grant)
    requires c.kind.Upgrade? && c.ws in s.workers
    requires Plan(s.library, s.workers[c.ws].profile, c.lib).Ok?
    requires g.scopes == (if c.scopes == {} then s.library[c.lib].manifest.scopes else c.scopes)
    requires g.scopes <= s.library[c.lib].manifest.scopes
    requires g.plan == WithRootScopes(Plan(s.library, s.workers[c.ws].profile, c.lib).value, g.scopes)
    requires Snapshot(s.library, g.plan) == c.plan
    requires InstallBase(s, c.(scopes := g.scopes), g.plan) == Ok(g.prior)
    requires Install(s.library, s.workers[c.ws].profile, g.prior, g.plan) == Ok(g.applied)
    ensures ApplyLibrary(s, c, s.clock).Ok?
  {
  }

  lemma BaseOfUpgrade(s: State, c: Change, g: Grant)
    requires UpgradeAllowed(s, c, g) && c.ws in s.workers && c.scopes == g.scopes
    requires Revoke(s, c.ws, c.kind.current, s.clock).Ok?
    ensures InstallBase(s, c, g.plan) == Ok(s.grants[c.kind.current].prior)
  {
  }

  lemma RevokeThenEnableUpgrades(s: State, c: Change, revoked: State, g: Grant)
    requires UpgradeAllowed(s, c, g) && Revoke(s, c.ws, c.kind.current, s.clock) == Ok(revoked)
    requires c.ws in revoked.workers && Plan(revoked.library, revoked.workers[c.ws].profile, c.lib).Ok?
    requires g.scopes == (if c.scopes == {} then revoked.library[c.lib].manifest.scopes else c.scopes)
    requires g.scopes <= revoked.library[c.lib].manifest.scopes
    requires g.plan == WithRootScopes(Plan(revoked.library, revoked.workers[c.ws].profile, c.lib).value, g.scopes)
    requires Snapshot(revoked.library, g.plan) == c.plan
    requires g.prior == revoked.workers[c.ws].bundle
    requires Install(revoked.library, revoked.workers[c.ws].profile, g.prior, g.plan) == Ok(g.applied)
    ensures ApplyLibrary(s, c, s.clock).Ok?
  {
    BaseOfUpgrade(s, c.(scopes := g.scopes), g);
    UpgradeApplies(s, c, g);
  }

  /**
   * An upgrade applies exactly when its target can be revoked, the new version could then be enabled, both are
   * versions of one package, and what the enable would grant widens nothing.
   */
  lemma UpgradeAppliesIff(s: State, c: Change)
    requires Holds(s) && ChangeHolds(s, c) && c.kind.Upgrade?
    ensures ApplyLibrary(s, c, s.clock).Ok? <==>
            && Revoke(s, c.ws, c.kind.current, s.clock).Ok?
            && var revoked := Revoke(s, c.ws, c.kind.current, s.clock).value;
               var enabled := ApplyLibrary(revoked, c.(kind := Enable), s.clock);
               enabled.Ok? && |enabled.value.grants| == |s.grants| + 1 &&
                 UpgradeAllowed(s, c, enabled.value.grants[|s.grants|])
  {
    if ApplyLibrary(s, c, s.clock).Ok? {
      UpgradeIsRevokeThenEnable(s, c);
      UpgradeIsAllowed(s, c);
    }
    if Revoke(s, c.ws, c.kind.current, s.clock).Ok? {
      var revoked := Revoke(s, c.ws, c.kind.current, s.clock).value;
      var enable := c.(kind := Enable);
      if ApplyLibrary(revoked, enable, s.clock).Ok? {
        var g := EnableWrites(revoked, enable);
        if UpgradeAllowed(s, c, g) { RevokeThenEnableUpgrades(s, c, revoked, g); }
      }
    }
  }

  lemma UpgradeIsAllowed(s: State, c: Change)
    requires Holds(s) && ChangeHolds(s, c) && c.kind.Upgrade?
    requires ApplyLibrary(s, c, s.clock).Ok?
    ensures var upgraded := ApplyLibrary(s, c, s.clock).value;
            |upgraded.grants| == |s.grants| + 1 && UpgradeAllowed(s, c, upgraded.grants[|s.grants|].(replaced := None))
  {
    var g := ApplyLibraryWrites(s, c);
    assert TargetObjection(s, c.ws, c.kind.current, c.lib).None?;
    assert WideningObjection(s.grants[c.kind.current], g.scopes, g.plan).None?;
    assert ApplyLibrary(s, c, s.clock).value.grants[|s.grants|] == g;
  }
}
