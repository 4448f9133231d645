/** The depth-first install planner: its specification, what a plan means, and exactly when one exists. */
module InstallPlan {
  import opened Prelude
  import opened Library

  datatype PlanError =
    | RootUnavailable
    | DependencyUnavailable
    | ProfileUnsupported
    | DependencyCycle
    | ScopesInconsistent
    | ScopesExceedManifest

  /** One planned installation: the row's id and the scopes it is installed with. */
  datatype PlanItem = PlanItem(lib: nat, scopes: set<string>)

  /** The planner's four working collections. */
  datatype Progress = Progress(
    visiting: set<Identity>,
    visited: set<Identity>,
    planned: map<Identity, set<string>>,
    plan: seq<PlanItem>)

  const Fresh := Progress({}, {}, map[], [])

  /** Every planned item names a row of the table. */
  predicate InTable(cat: Catalog, plan: seq<PlanItem>) {
    forall k :: 0 <= k < |plan| ==> plan[k].lib < |cat|
  }

  /** No explicit request means every scope the manifest asks for. */
  function Wanted(manifest: Manifest, requested: Option<set<string>>): set<string> {
    if requested.None? then manifest.scopes else requested.value
  }

  /** One visit of row `i`, from progress `s`. */
  function Visited(cat: Catalog, profile: string, i: nat, requested: Option<set<string>>, s: Progress)
    : (r: Result<Progress, PlanError>)
    requires i < |cat|
    ensures r.Ok? ==> r.value.visiting == s.visiting
    ensures r.Ok? ==> forall id :: id in s.visiting && id in r.value.visited ==> id in s.visited
    ensures r.Ok? && InTable(cat, s.plan) ==> InTable(cat, r.value.plan)
    decreases Identities(cat) - s.visiting, 0
  {
    var m := cat[i].manifest;
    if m.id in s.visiting then Err(DependencyCycle)
    else if m.id in s.visited then
      if m.id in s.planned && s.planned[m.id] == Wanted(m, requested) then Ok(s) else Err(ScopesInconsistent)
    else if profile !in m.profiles then Err(ProfileUnsupported)
    else
      assert m.id in Identities(cat);
      var below :- VisitedAll(cat, profile, m.dependencies, s.(visiting := s.visiting + {m.id}));
      var scopes := Wanted(m, requested);
      if !(scopes <= m.scopes) then Err(ScopesExceedManifest)
      else
        Ok(Progress(
             below.visiting - {m.id},
             below.visited + {m.id},
             below.planned[m.id := scopes],
             below.plan + [PlanItem(i, scopes)]))
  }

  /** The loop over a manifest's dependencies, each visited with exactly its pinned scopes. */
  function VisitedAll(cat: Catalog, profile: string, deps: seq<Dependency>, s: Progress)
    : (r: Result<Progress, PlanError>)
    ensures r.Ok? ==> r.value.visiting == s.visiting
    ensures r.Ok? ==> forall id :: id in s.visiting && id in r.value.visited ==> id in s.visited
    ensures r.Ok? && InTable(cat, s.plan) ==> InTable(cat, r.value.plan)
    decreases Identities(cat) - s.visiting, |deps| + 1
  {
    if deps == [] then Ok(s)
    else
      var found := FindAvailable(cat, deps[0].id);
      if found.None? then Err(DependencyUnavailable)
      else
        var next :- Visited(cat, profile, found.value, Some(deps[0].scopes), s);
        VisitedAll(cat, profile, deps[1..], next)
  }

  /** `_library_install_plan`: the ordered installation of `root` for a worker profile. */
  function Plan(cat: Catalog, profile: string, root: nat): (r: Result<seq<PlanItem>, PlanError>)
    ensures r.Ok? ==> InTable(cat, r.value) && r.value != [] && r.value[|r.value| - 1].lib == root
  {
    if !AvailableAt(cat, root) then Err(RootUnavailable)
    else
      var done :- Visited(cat, profile, root, None, Fresh);
      Ok(done.plan)
  }

  // ---------------------------------------------------------------------------
  // What a plan is
  // ---------------------------------------------------------------------------

  /** Some item before position `k` installs the pinned dependency with exactly the pinned scopes. */
  ghost predicate PlacedBefore(cat: Catalog, plan: seq<PlanItem>, k: nat, dep: Dependency) {
    exists e :: 0 <= e < k && e < |plan| && FindAvailable(cat, dep.id) == Some(plan[e].lib) &&
      plan[e].scopes == dep.scopes
  }

  ghost predicate ItemInstallable(cat: Catalog, profile: string, plan: seq<PlanItem>, k: nat)
    requires k < |plan|
  {
    var item := plan[k];
    && AvailableAt(cat, item.lib)
    && profile in cat[item.lib].manifest.profiles
    && item.scopes <= cat[item.lib].manifest.scopes
    && forall d :: 0 <= d < |cat[item.lib].manifest.dependencies| ==>
         PlacedBefore(cat, plan, k, cat[item.lib].manifest.dependencies[d])
  }

  /** Every item is installable where it stands, and no row is installed twice. */
  ghost predicate WellOrdered(cat: Catalog, profile: string, plan: seq<PlanItem>) {
    && (forall k :: 0 <= k < |plan| ==> ItemInstallable(cat, profile, plan, k))
    && (forall k, l :: 0 <= k < l < |plan| ==> plan[k].lib != plan[l].lib)
  }

  predicate Installs(plan: seq<PlanItem>, i: nat) {
    exists k :: 0 <= k < |plan| && plan[k].lib == i
  }

  ghost function PlannedIdentities(cat: Catalog, plan: seq<PlanItem>): set<Identity> {
    set k | 0 <= k < |plan| && plan[k].lib < |cat| :: cat[plan[k].lib].manifest.id
  }

  /** Progress as the planner keeps it between steps. */
  ghost predicate Coherent(cat: Catalog, profile: string, s: Progress) {
    && WellOrdered(cat, profile, s.plan)
    && s.visited == PlannedIdentities(cat, s.plan)
    && s.planned.Keys == s.visited
    && forall k :: 0 <= k < |s.plan| ==>
         s.plan[k].lib < |cat| && cat[s.plan[k].lib].manifest.id in s.planned &&
           s.planned[cat[s.plan[k].lib].manifest.id] == s.plan[k].scopes
  }

  /** Everything appended to the plan since `s` is reachable from `i`. */
  ghost predicate ExtendsWithin(cat: Catalog, i: nat, s: Progress, t: Progress) {
    && s.plan <= t.plan
    && forall k :: |s.plan| <= k < |t.plan| ==> Reaches(cat, i, t.plan[k].lib)
  }

  ghost predicate VisitedSoundly(cat: Catalog, profile: string, item: PlanItem, s: Progress, t: Progress)
    requires item.lib < |cat|
  {
    && Coherent(cat, profile, t)
    && ExtendsWithin(cat, item.lib, s, t)
    && item in t.plan
    && (cat[item.lib].manifest.id !in s.visited ==> t.plan[|t.plan| - 1] == item)
  }

  ghost predicate VisitedAllSoundly(cat: Catalog, profile: string, i: nat, d: nat, s: Progress, t: Progress)
    requires i < |cat|
  {
    && Coherent(cat, profile, t)
    && ExtendsWithin(cat, i, s, t)
    && cat[i].manifest.id !in t.visited
    && forall e :: d <= e < |cat[i].manifest.dependencies| ==>
      PlacedBefore(cat, t.plan, |t.plan|, cat[i].manifest.dependencies[e])
  }

  lemma CoherentLookup(cat: Catalog, profile: string, s: Progress, i: nat) returns (k: nat)
    requires UniqueIdentities(cat)
    requires Coherent(cat, profile, s)
    requires i < |cat|
    requires cat[i].manifest.id in s.visited
    ensures k < |s.plan| && s.plan[k].lib == i && s.planned[cat[i].manifest.id] == s.plan[k].scopes
  {
    k :| 0 <= k < |s.plan| && s.plan[k].lib < |cat| && cat[s.plan[k].lib].manifest.id == cat[i].manifest.id;
  }

  /** A row appended once its dependencies are visited. */
  lemma VisitedNew(cat: Catalog, profile: string, item: PlanItem, s: Progress, below: Progress, t: Progress)
    requires AvailableAt(cat, item.lib) && item.scopes <= cat[item.lib].manifest.scopes
    requires profile in cat[item.lib].manifest.profiles
    requires VisitedAllSoundly(cat, profile, item.lib, 0, s, below)
    requires t.plan == below.plan + [item] && t.visited == below.visited + {cat[item.lib].manifest.id}
    requires t.planned == below.planned[cat[item.lib].manifest.id := item.scopes]
    ensures VisitedSoundly(cat, profile, item, s, t)
  {
    AppendCoherent(cat, profile, item, below, t);
    ReachesSelf(cat, item.lib);
    assert t.plan[|below.plan|] == item;
    assert forall k :: |s.plan| <= k < |below.plan| ==> t.plan[k] == below.plan[k];
  }

  /** A successful visit keeps the progress coherent and leaves row `i` planned with the wanted scopes. */
  lemma {:induction false} VisitSound(cat: Catalog, profile: string, i: nat, requested: Option<set<string>>,
      s: Progress)
    requires UniqueIdentities(cat)
    requires AvailableAt(cat, i)
    requires Coherent(cat, profile, s)
    requires Visited(cat, profile, i, requested, s).Ok?
    ensures VisitedSoundly(cat, profile, PlanItem(i, Wanted(cat[i].manifest, requested)), s,
      Visited(cat, profile, i, requested, s).value)
    decreases Identities(cat) - s.visiting, 0
  {
    var m := cat[i].manifest;
    var item, t := PlanItem(i, Wanted(m, requested)), Visited(cat, profile, i, requested, s).value;
    if m.id in s.visited {
      var k := CoherentLookup(cat, profile, s, i);
      assert s.plan[k] == item;
    } else {
      var s1 := s.(visiting := s.visiting + {m.id});
      assert m.id in Identities(cat);
      assert m.dependencies[0..] == m.dependencies;
      VisitAllSound(cat, profile, i, 0, s1);
      VisitedNew(cat, profile, item, s1, VisitedAll(cat, profile, m.dependencies, s1).value, t);
    }
  }

  lemma AppendWellOrdered(cat: Catalog, profile: string, plan: seq<PlanItem>, item: PlanItem)
    requires WellOrdered(cat, profile, plan)
    requires AvailableAt(cat, item.lib)
    requires profile in cat[item.lib].manifest.profiles && item.scopes <= cat[item.lib].manifest.scopes
    requires !Installs(plan, item.lib)
    requires forall d :: 0 <= d < |cat[item.lib].manifest.dependencies| ==>
      PlacedBefore(cat, plan, |plan|, cat[item.lib].manifest.dependencies[d])
    ensures WellOrdered(cat, profile, plan + [item])
  {
    var longer := plan + [item];
    forall k | 0 <= k < |longer|
      ensures ItemInstallable(cat, profile, longer, k)
    {
      if k < |plan| { assert ItemInstallable(cat, profile, plan, k); }
      var deps := cat[longer[k].lib].manifest.dependencies;
      forall d | 0 <= d < |deps|
        ensures PlacedBefore(cat, longer, k, deps[d])
      {
        assert PlacedBefore(cat, plan, k, deps[d]);
        var e :| 0 <= e < k && e < |plan| && FindAvailable(cat, deps[d].id) == Some(plan[e].lib) &&
          plan[e].scopes == deps[d].scopes;
        assert longer[e] == plan[e];
      }
    }
  }

  lemma AppendIdentity(cat: Catalog, plan: seq<PlanItem>, item: PlanItem)
    requires item.lib < |cat|
    ensures PlannedIdentities(cat, plan + [item]) == PlannedIdentities(cat, plan) + {cat[item.lib].manifest.id}
  {
    var longer := plan + [item];
    forall x | x in PlannedIdentities(cat, plan) + {cat[item.lib].manifest.id}
      ensures x in PlannedIdentities(cat, longer)
    {
      if x == cat[item.lib].manifest.id {
        assert longer[|plan|].lib == item.lib;
      } else {
        var k :| 0 <= k < |plan| && plan[k].lib < |cat| && cat[plan[k].lib].manifest.id == x;
        assert longer[k].lib == plan[k].lib;
      }
    }
  }

  /** Appending a row whose dependencies are all placed keeps the progress coherent. */
  lemma AppendCoherent(cat: Catalog, profile: string, item: PlanItem, s: Progress, t: Progress)
    requires Coherent(cat, profile, s)
    requires AvailableAt(cat, item.lib)
    requires profile in cat[item.lib].manifest.profiles && item.scopes <= cat[item.lib].manifest.scopes
    requires cat[item.lib].manifest.id !in s.visited
    requires forall d :: 0 <= d < |cat[item.lib].manifest.dependencies| ==>
      PlacedBefore(cat, s.plan, |s.plan|, cat[item.lib].manifest.dependencies[d])
    requires t.plan == s.plan + [item]
    requires t.visited == s.visited + {cat[item.lib].manifest.id}
    requires t.planned == s.planned[cat[item.lib].manifest.id := item.scopes]
    ensures Coherent(cat, profile, t)
  {
    AppendWellOrdered(cat, profile, s.plan, item);
    AppendIdentity(cat, s.plan, item);
  }

  lemma ExtendBelow(cat: Catalog, i: nat, j: nat, s: Progress, next: Progress, t: Progress)
    requires Edge(cat, i, j)
    requires ExtendsWithin(cat, j, s, next)
    requires ExtendsWithin(cat, i, next, t)
    ensures ExtendsWithin(cat, i, s, t)
  {
    EdgeReaches(cat, i, j);
    forall l | |s.plan| <= l < |t.plan|
      ensures Reaches(cat, i, t.plan[l].lib)
    {
      if l < |next.plan| {
        assert t.plan[l] == next.plan[l];
        ReachesVia(cat, i, j, t.plan[l].lib);
      }
    }
  }

  lemma PlacedByPrefix(cat: Catalog, plan: seq<PlanItem>, longer: seq<PlanItem>, item: PlanItem, dep: Dependency)
    requires item in plan && plan <= longer
    requires FindAvailable(cat, dep.id) == Some(item.lib) && item.scopes == dep.scopes
    ensures PlacedBefore(cat, longer, |longer|, dep)
  {
    var k :| 0 <= k < |plan| && plan[k] == item;
    assert longer[k] == plan[k];
  }

  /** Visiting the dependencies of row `i` from number `d` on places each of them. */
  lemma {:induction false} VisitAllSound(cat: Catalog, profile: string, i: nat, d: nat, s: Progress)
    requires UniqueIdentities(cat)
    requires i < |cat| && d <= |cat[i].manifest.dependencies|
    requires Coherent(cat, profile, s)
    requires VisitedAll(cat, profile, cat[i].manifest.dependencies[d..], s).Ok?
    requires cat[i].manifest.id in s.visiting && cat[i].manifest.id !in s.visited
    ensures VisitedAllSoundly(cat, profile, i, d, s,
      VisitedAll(cat, profile, cat[i].manifest.dependencies[d..], s).value)
    decreases Identities(cat) - s.visiting, |cat[i].manifest.dependencies| - d + 1
  {
    var deps := cat[i].manifest.dependencies;
    if d < |deps| {
      assert deps[d..][0] == deps[d] && deps[d..][1..] == deps[d + 1..];
      var j := FindAvailable(cat, deps[d].id).value;
      assert Pins(cat, i, d, j);
      var next := Visited(cat, profile, j, Some(deps[d].scopes), s).value;
      var t := VisitedAll(cat, profile, deps[d..], s).value;
      assert t == VisitedAll(cat, profile, deps[d + 1..], next).value;
      VisitSound(cat, profile, j, Some(deps[d].scopes), s);
      VisitAllSound(cat, profile, i, d + 1, next);
      PlacedByPrefix(cat, next.plan, t.plan, PlanItem(j, deps[d].scopes), deps[d]);
      ExtendBelow(cat, i, j, s, next, t);
    }
  }

  // ---------------------------------------------------------------------------
  // Exactly when a plan exists, on any catalog
  // ---------------------------------------------------------------------------

  /** The row supports the profile, and each pin resolves to an available row that allows the pinned scopes. */
  ghost predicate PinsResolve(cat: Catalog, profile: string, i: nat) {
    && i < |cat|
    && profile in cat[i].manifest.profiles
    && forall d :: 0 <= d < |cat[i].manifest.dependencies| ==>
         var found := FindAvailable(cat, cat[i].manifest.dependencies[d].id);
         found.Some? && cat[i].manifest.dependencies[d].scopes <= cat[found.value].manifest.scopes
  }

  /** No two pins reachable from the root ask for different scopes of one row. */
  ghost predicate ScopesAgree(cat: Catalog, root: nat) {
    forall a: nat, d: nat, b: nat, e: nat, j: nat ::
      Reaches(cat, root, a) && Reaches(cat, root, b) && Pins(cat, a, d, j) && Pins(cat, b, e, j) ==>
        cat[a].manifest.dependencies[d].scopes == cat[b].manifest.dependencies[e].scopes
  }

  ghost predicate AcyclicFrom(cat: Catalog, root: nat) {
    forall i: nat, n: nat :: Reaches(cat, root, i) && n > 0 ==> !ReachesIn(cat, i, i, n)
  }

  ghost predicate Installable(cat: Catalog, profile: string, root: nat) {
    && AvailableAt(cat, root)
    && (forall i: nat :: Reaches(cat, root, i) ==> PinsResolve(cat, profile, i))
    && AcyclicFrom(cat, root)
    && ScopesAgree(cat, root)
  }

  /** The plan installs exactly what the root reaches, dependencies first, the root last with all its scopes. */
  ghost predicate InstallsAllOf(cat: Catalog, profile: string, root: nat, plan: seq<PlanItem>) {
    && WellOrdered(cat, profile, plan)
    && root < |cat|
    && plan != [] && plan[|plan| - 1] == PlanItem(root, cat[root].manifest.scopes)
    && forall i: nat :: Installs(plan, i) <==> Reaches(cat, root, i)
  }

  lemma PlanInstallsAll(cat: Catalog, profile: string, root: nat)
    requires UniqueIdentities(cat)
    requires Plan(cat, profile, root).Ok?
    ensures InstallsAllOf(cat, profile, root, Plan(cat, profile, root).value)
  {
    VisitSound(cat, profile, root, None, Fresh);
    var plan := Plan(cat, profile, root).value;
    forall i: nat
      ensures Installs(plan, i) <==> Reaches(cat, root, i)
    {
      if Reaches(cat, root, i) {
        var n: nat :| ReachesIn(cat, root, i, n);
        var _ := PositionBelow(cat, profile, plan, |plan| - 1, i, n);
      }
    }
  }

  /** Following `n` edges from a planned row goes down at least `n` positions in the plan. */
  lemma {:induction false} PositionBelow(cat: Catalog, profile: string, plan: seq<PlanItem>, k: nat, j: nat, n: nat)
      returns (e: nat)
    requires WellOrdered(cat, profile, plan)
    requires k < |plan|
    requires ReachesIn(cat, plan[k].lib, j, n)
    ensures e + n <= k && plan[e].lib == j
    decreases n
  {
    if n == 0 {
      e := k;
    } else {
      var m :| Edge(cat, plan[k].lib, m) && ReachesIn(cat, m, j, n - 1);
      var d: nat :| Pins(cat, plan[k].lib, d, m);
      assert ItemInstallable(cat, profile, plan, k);
      assert PlacedBefore(cat, plan, k, cat[plan[k].lib].manifest.dependencies[d]);
      var f :| 0 <= f < k && plan[f].lib == m;
      e := PositionBelow(cat, profile, plan, f, j, n - 1);
    }
  }

  /** A pin of a planned row is planned with exactly the pinned scopes. */
  lemma PinnedScopes(cat: Catalog, profile: string, plan: seq<PlanItem>, k: nat, d: nat, j: nat) returns (e: nat)
    requires WellOrdered(cat, profile, plan)
    requires k < |plan| && Pins(cat, plan[k].lib, d, j)
    ensures e < |plan| && plan[e] == PlanItem(j, cat[plan[k].lib].manifest.dependencies[d].scopes)
  {
    assert ItemInstallable(cat, profile, plan, k);
    assert PlacedBefore(cat, plan, k, cat[plan[k].lib].manifest.dependencies[d]);
    e :| 0 <= e < k && plan[e] == PlanItem(j, cat[plan[k].lib].manifest.dependencies[d].scopes);
  }

  lemma PlannedIsInstallable(cat: Catalog, profile: string, root: nat)
    requires UniqueIdentities(cat)
    requires Plan(cat, profile, root).Ok?
    ensures Installable(cat, profile, root)
  {
    PlanInstallsAll(cat, profile, root);
    var plan := Plan(cat, profile, root).value;
    forall i: nat | Reaches(cat, root, i)
      ensures PinsResolve(cat, profile, i)
    {
      var k :| 0 <= k < |plan| && plan[k].lib == i;
      assert ItemInstallable(cat, profile, plan, k);
      var deps := cat[i].manifest.dependencies;
      forall d | 0 <= d < |deps|
        ensures FindAvailable(cat, deps[d].id).Some? &&
          deps[d].scopes <= cat[FindAvailable(cat, deps[d].id).value].manifest.scopes
      {
        assert PlacedBefore(cat, plan, k, deps[d]);
        var e :| 0 <= e < k && FindAvailable(cat, deps[d].id) == Some(plan[e].lib) && plan[e].scopes == deps[d].scopes;
        assert ItemInstallable(cat, profile, plan, e);
      }
    }
    forall i: nat, n: nat | Reaches(cat, root, i) && n > 0
      ensures !ReachesIn(cat, i, i, n)
    {
      var k :| 0 <= k < |plan| && plan[k].lib == i;
      if ReachesIn(cat, i, i, n) {
        var e := PositionBelow(cat, profile, plan, k, i, n);
      }
    }
    forall a: nat, d: nat, b: nat, e: nat, j: nat | Reaches(cat, root, a) && Reaches(cat, root, b) &&
      Pins(cat, a, d, j) && Pins(cat, b, e, j)
      ensures cat[a].manifest.dependencies[d].scopes == cat[b].manifest.dependencies[e].scopes
    {
      var k :| 0 <= k < |plan| && plan[k].lib == a;
      var l :| 0 <= l < |plan| && plan[l].lib == b;
      var p := PinnedScopes(cat, profile, plan, k, d, j);
      var q := PinnedScopes(cat, profile, plan, l, e, j);
    }
  }

  /** The item was asked for by some pin reachable from the root. */
  ghost predicate Justified(cat: Catalog, root: nat, item: PlanItem) {
    exists a: nat, d: nat :: Reaches(cat, root, a) && Pins(cat, a, d, item.lib) &&
      cat[a].manifest.dependencies[d].scopes == item.scopes
  }

  ghost predicate AllJustified(cat: Catalog, root: nat, plan: seq<PlanItem>) {
    forall k :: 0 <= k < |plan| ==> plan[k].lib == root || Justified(cat, root, plan[k])
  }

  /** Everything still being visited lies strictly above row `i`. */
  ghost predicate VisitingAbove(cat: Catalog, i: nat, visiting: set<Identity>) {
    forall id :: id in visiting ==>
      exists a: nat, n: nat :: a < |cat| && cat[a].manifest.id == id && n > 0 && ReachesIn(cat, a, i, n)
  }

  lemma VisitingAboveEdge(cat: Catalog, i: nat, j: nat, visiting: set<Identity>)
    requires i < |cat| && Edge(cat, i, j)
    requires VisitingAbove(cat, i, visiting)
    ensures VisitingAbove(cat, j, visiting + {cat[i].manifest.id})
  {
    EdgeReaches(cat, i, j);
    forall id | id in visiting + {cat[i].manifest.id}
      ensures exists a: nat, n: nat :: a < |cat| && cat[a].manifest.id == id && n > 0 && ReachesIn(cat, a, j, n)
    {
      if id in visiting {
        var a: nat, n: nat :| a < |cat| && cat[a].manifest.id == id && n > 0 && ReachesIn(cat, a, i, n);
        ReachesInCompose(cat, a, i, j, n, 1);
      }
    }
  }

  lemma JustifiedFits(cat: Catalog, profile: string, root: nat, item: PlanItem)
    requires Installable(cat, profile, root) && Justified(cat, root, item)
    ensures item.lib < |cat| && item.scopes <= cat[item.lib].manifest.scopes
  {
    var a: nat, d: nat :| Reaches(cat, root, a) && Pins(cat, a, d, item.lib) &&
      cat[a].manifest.dependencies[d].scopes == item.scopes;
    assert PinsResolve(cat, profile, a);
  }

  /** In an installable graph no visit below the root fails. */
  lemma {:induction false} VisitSucceeds(cat: Catalog, profile: string, root: nat, i: nat,
      requested: Option<set<string>>, s: Progress)
    requires UniqueIdentities(cat)
    requires Installable(cat, profile, root)
    requires Reaches(cat, root, i) && AvailableAt(cat, i)
    requires Coherent(cat, profile, s) && AllJustified(cat, root, s.plan)
    requires VisitingAbove(cat, i, s.visiting)
    requires if requested.None? then i == root && s.plan == [] else Justified(cat, root, PlanItem(i, requested.value))
    ensures var r := Visited(cat, profile, i, requested, s);
            r.Ok? && AllJustified(cat, root, r.value.plan)
    decreases Identities(cat) - s.visiting, 0
  {
    var m := cat[i].manifest;
    assert PinsResolve(cat, profile, i);
    assert m.id !in s.visiting;
    if m.id in s.visited {
      var k := CoherentLookup(cat, profile, s, i);
      JustifiedOnce(cat, root, profile, s.plan[k], PlanItem(i, requested.value));
    } else {
      assert m.id in Identities(cat);
      assert m.dependencies[0..] == m.dependencies;
      VisitAllSucceeds(cat, profile, root, i, 0, s.(visiting := s.visiting + {m.id}));
      if requested.Some? { JustifiedFits(cat, profile, root, PlanItem(i, requested.value)); }
    }
  }

  lemma JustifiedOnce(cat: Catalog, root: nat, profile: string, x: PlanItem, y: PlanItem)
    requires Installable(cat, profile, root)
    requires x.lib == y.lib
    requires x.lib == root || Justified(cat, root, x)
    requires Justified(cat, root, y)
    ensures x == y
  {
    var a: nat, d: nat :| Reaches(cat, root, a) && Pins(cat, a, d, y.lib) &&
      cat[a].manifest.dependencies[d].scopes == y.scopes;
    if x.lib == root {
      var n: nat :| ReachesIn(cat, root, a, n);
      assert Edge(cat, a, root);
      EdgeReaches(cat, a, root);
      ReachesInCompose(cat, root, a, root, n, 1);
      ReachesSelf(cat, root);
      assert false;
    } else {
      var b: nat, e: nat :| Reaches(cat, root, b) && Pins(cat, b, e, x.lib) &&
        cat[b].manifest.dependencies[e].scopes == x.scopes;
    }
  }

  /** The next dependency of a reachable row: resolved, reachable itself, justified, and below all being visited. */
  lemma NextPin(cat: Catalog, profile: string, root: nat, i: nat, d: nat, visiting: set<Identity>) returns (j: nat)
    requires Installable(cat, profile, root)
    requires Reaches(cat, root, i) && i < |cat| && d < |cat[i].manifest.dependencies|
    requires cat[i].manifest.id in visiting && VisitingAbove(cat, i, visiting - {cat[i].manifest.id})
    ensures FindAvailable(cat, cat[i].manifest.dependencies[d].id) == Some(j) && AvailableAt(cat, j)
    ensures Reaches(cat, root, j) && VisitingAbove(cat, j, visiting)
    ensures Justified(cat, root, PlanItem(j, cat[i].manifest.dependencies[d].scopes))
  {
    assert PinsResolve(cat, profile, i);
    j := FindAvailable(cat, cat[i].manifest.dependencies[d].id).value;
    assert Pins(cat, i, d, j);
    assert Edge(cat, i, j);
    EdgeReaches(cat, i, j);
    ReachesVia(cat, root, i, j);
    assert visiting == visiting - {cat[i].manifest.id} + {cat[i].manifest.id};
    VisitingAboveEdge(cat, i, j, visiting - {cat[i].manifest.id});
  }

  lemma {:induction false} VisitAllSucceeds(cat: Catalog, profile: string, root: nat, i: nat, d: nat, s: Progress)
    requires UniqueIdentities(cat)
    requires Installable(cat, profile, root)
    requires Reaches(cat, root, i) && i < |cat| && d <= |cat[i].manifest.dependencies|
    requires Coherent(cat, profile, s) && AllJustified(cat, root, s.plan)
    requires cat[i].manifest.id in s.visiting && VisitingAbove(cat, i, s.visiting - {cat[i].manifest.id})
    ensures var r := VisitedAll(cat, profile, cat[i].manifest.dependencies[d..], s);
            r.Ok? && AllJustified(cat, root, r.value.plan)
    decreases Identities(cat) - s.visiting, |cat[i].manifest.dependencies| - d + 1
  {
    var deps := cat[i].manifest.dependencies;
    if d < |deps| {
      assert deps[d..][0] == deps[d] && deps[d..][1..] == deps[d + 1..];
      var j := NextPin(cat, profile, root, i, d, s.visiting);
      VisitSucceeds(cat, profile, root, j, Some(deps[d].scopes), s);
      VisitSound(cat, profile, j, Some(deps[d].scopes), s);
      VisitAllSucceeds(cat, profile, root, i, d + 1, Visited(cat, profile, j, Some(deps[d].scopes), s).value);
    }
  }

  /** The planner succeeds on any catalog exactly when the graph below the root is installable. */
  lemma PlanExistsIff(cat: Catalog, profile: string, root: nat)
    requires UniqueIdentities(cat)
    ensures Plan(cat, profile, root).Ok? <==> Installable(cat, profile, root)
  {
    if Plan(cat, profile, root).Ok? {
      PlannedIsInstallable(cat, profile, root);
    }
    if Installable(cat, profile, root) {
      ReachesSelf(cat, root);
      VisitSucceeds(cat, profile, root, root, None, Fresh);
    }
  }

  // ---------------------------------------------------------------------------
  // Catalogs in publication order
  // ---------------------------------------------------------------------------

  /** What publishing checks of a manifest against the rows below it. */
  ghost predicate PinsSoundly(cat: Catalog, i: nat, dep: Dependency, j: nat) {
    && j < i < |cat|
    && cat[j].manifest.id == dep.id
    && cat[i].manifest.profiles <= cat[j].manifest.profiles
    && dep.scopes <= cat[j].manifest.scopes
  }

  ghost predicate Settled(cat: Catalog, i: nat, d: nat)
    requires i < |cat| && d < |cat[i].manifest.dependencies|
  {
    exists j: nat :: PinsSoundly(cat, i, cat[i].manifest.dependencies[d], j)
  }

  /** Every dependency of every row is an earlier row that allows what is pinned of it. */
  ghost predicate PublishedInOrder(cat: Catalog) {
    forall i, d :: 0 <= i < |cat| && 0 <= d < |cat[i].manifest.dependencies| ==> Settled(cat, i, d)
  }

  /** What is available is closed under dependencies. */
  ghost predicate AvailabilityClosed(cat: Catalog) {
    forall i, d :: 0 <= i < |cat| && cat[i].status == Available && 0 <= d < |cat[i].manifest.dependencies| ==>
      FindAvailable(cat, cat[i].manifest.dependencies[d].id).Some?
  }

  ghost predicate SoundCatalog(cat: Catalog) {
    && UniqueIdentities(cat)
    && PublishedInOrder(cat)
    && AvailabilityClosed(cat)
  }

  /** Row `a` pins row `b`, whatever their status. */
  ghost predicate Requires(cat: Catalog, a: nat, b: nat) {
    && a < |cat| && b < |cat|
    && exists d :: 0 <= d < |cat[a].manifest.dependencies| && cat[a].manifest.dependencies[d].id == cat[b].manifest.id
  }

  /** `j` is reached from `i` along exactly `n` dependencies. */
  ghost predicate DependsIn(cat: Catalog, i: nat, j: nat, n: nat)
    decreases n
  {
    if n == 0 then i == j else exists m: nat :: Requires(cat, i, m) && DependsIn(cat, m, j, n - 1)
  }

  /** Dependencies point down the table, over all its rows, disabled and removed ones included. */
  lemma {:induction false} DependenciesDescend(cat: Catalog, i: nat, j: nat, n: nat)
    requires UniqueIdentities(cat) && PublishedInOrder(cat) && DependsIn(cat, i, j, n)
    ensures j + n <= i
    decreases n
  {
    if n > 0 {
      var m: nat :| Requires(cat, i, m) && DependsIn(cat, m, j, n - 1);
      var d :| 0 <= d < |cat[i].manifest.dependencies| && cat[i].manifest.dependencies[d].id == cat[m].manifest.id;
      assert Settled(cat, i, d);
      var p: nat :| PinsSoundly(cat, i, cat[i].manifest.dependencies[d], p);
      assert p == m;
      DependenciesDescend(cat, m, j, n - 1);
    }
  }

  lemma SoundEdge(cat: Catalog, i: nat, d: nat, j: nat)
    requires SoundCatalog(cat)
    requires Pins(cat, i, d, j)
    ensures PinsSoundly(cat, i, cat[i].manifest.dependencies[d], j)
  {
    var dep := cat[i].manifest.dependencies[d];
    assert Settled(cat, i, d);
    var p: nat :| PinsSoundly(cat, i, dep, p);
    assert p == j;
  }

  lemma {:induction false} SoundReach(cat: Catalog, profile: string, i: nat, j: nat, n: nat)
    requires SoundCatalog(cat)
    requires AvailableAt(cat, i) && profile in cat[i].manifest.profiles
    requires ReachesIn(cat, i, j, n)
    ensures AvailableAt(cat, j) && profile in cat[j].manifest.profiles && j + n <= i
    decreases n
  {
    if n != 0 {
      var m: nat :| Edge(cat, i, m) && ReachesIn(cat, m, j, n - 1);
      var d: nat :| Pins(cat, i, d, m);
      SoundEdge(cat, i, d, m);
      SoundReach(cat, profile, m, j, n - 1);
    }
  }

  /** In a sound catalog the only thing that can stop an install is disagreement about scopes. */
  lemma SoundInstallableIff(cat: Catalog, profile: string, root: nat)
    requires SoundCatalog(cat)
    requires AvailableAt(cat, root) && profile in cat[root].manifest.profiles
    ensures Installable(cat, profile, root) <==> ScopesAgree(cat, root)
  {
    forall i: nat | Reaches(cat, root, i)
      ensures PinsResolve(cat, profile, i)
    {
      var n: nat :| ReachesIn(cat, root, i, n);
      SoundReach(cat, profile, root, i, n);
      var deps := cat[i].manifest.dependencies;
      forall d | 0 <= d < |deps|
        ensures FindAvailable(cat, deps[d].id).Some? &&
          deps[d].scopes <= cat[FindAvailable(cat, deps[d].id).value].manifest.scopes
      {
        SoundEdge(cat, i, d, FindAvailable(cat, deps[d].id).value);
      }
    }
    forall i: nat, n: nat | Reaches(cat, root, i) && n > 0
      ensures !ReachesIn(cat, i, i, n)
    {
      var k: nat :| ReachesIn(cat, root, i, k);
      SoundReach(cat, profile, root, i, k);
      if ReachesIn(cat, i, i, n) {
        SoundReach(cat, profile, i, i, n);
      }
    }
  }

  /** Everything being visited has a later row than `i`. */
  ghost predicate VisitingLater(cat: Catalog, i: nat, visiting: set<Identity>) {
    forall k :: 0 <= k < |cat| && cat[k].manifest.id in visiting ==> i < k
  }

  /** In a sound catalog a visit fails, if at all, with disagreeing scopes. */
  lemma {:induction false} SoundVisitError(cat: Catalog, profile: string, i: nat, requested: Option<set<string>>,
      s: Progress)
    requires SoundCatalog(cat)
    requires AvailableAt(cat, i) && profile in cat[i].manifest.profiles
    requires VisitingLater(cat, i, s.visiting)
    requires requested.Some? ==> requested.value <= cat[i].manifest.scopes
    ensures var r := Visited(cat, profile, i, requested, s);
            r.Err? ==> r.error == ScopesInconsistent
    decreases Identities(cat) - s.visiting, 0
  {
    var m := cat[i].manifest;
    if m.id !in s.visiting && m.id !in s.visited {
      assert m.id in Identities(cat);
      assert m.dependencies[0..] == m.dependencies;
      SoundVisitAllError(cat, profile, i, 0, s.(visiting := s.visiting + {m.id}));
    }
  }

  lemma {:induction false} SoundVisitAllError(cat: Catalog, profile: string, i: nat, d: nat, s: Progress)
    requires SoundCatalog(cat)
    requires AvailableAt(cat, i) && profile in cat[i].manifest.profiles && d <= |cat[i].manifest.dependencies|
    requires forall k :: 0 <= k < |cat| && cat[k].manifest.id in s.visiting ==> i <= k
    ensures var r := VisitedAll(cat, profile, cat[i].manifest.dependencies[d..], s);
            r.Err? ==> r.error == ScopesInconsistent
    decreases Identities(cat) - s.visiting, |cat[i].manifest.dependencies| - d + 1
  {
    var deps := cat[i].manifest.dependencies;
    if d < |deps| {
      assert deps[d..][0] == deps[d] && deps[d..][1..] == deps[d + 1..];
      var j := FindAvailable(cat, deps[d].id).value;
      SoundEdge(cat, i, d, j);
      SoundVisitError(cat, profile, j, Some(deps[d].scopes), s);
      var next := Visited(cat, profile, j, Some(deps[d].scopes), s);
      if next.Ok? {
        SoundVisitAllError(cat, profile, i, d + 1, next.value);
      }
    }
  }

  /** Planning an available, compatible root fails exactly on disagreeing scopes, and says so. */
  lemma SoundPlanOutcome(cat: Catalog, profile: string, root: nat)
    requires SoundCatalog(cat)
    requires AvailableAt(cat, root) && profile in cat[root].manifest.profiles
    ensures Plan(cat, profile, root).Ok? <==> ScopesAgree(cat, root)
    ensures Plan(cat, profile, root).Err? ==> Plan(cat, profile, root).error == ScopesInconsistent
  {
    PlanExistsIff(cat, profile, root);
    SoundInstallableIff(cat, profile, root);
    SoundVisitError(cat, profile, root, None, Fresh);
  }

  // ---------------------------------------------------------------------------
  // The planner as written: four collections updated in place
  // ---------------------------------------------------------------------------

  class Planner {
    const cat: Catalog
    const profile: string
    var visiting: set<Identity>
    var visited: set<Identity>
    var planned: map<Identity, set<string>>
    var plan: seq<PlanItem>

    constructor (cat: Catalog, profile: string)
      ensures this.cat == cat && this.profile == profile && State() == Fresh
    {
      this.cat, this.profile := cat, profile;
      visiting, visited, planned, plan := {}, {}, map[], [];
    }

    ghost function State(): Progress
      reads this
    {
      Progress(visiting, visited, planned, plan)
    }

    method Visit(i: nat, requested: Option<set<string>>) returns (failure: Option<PlanError>)
      requires i < |cat|
      modifies this
      ensures match Visited(cat, profile, i, requested, old(State()))
              case Ok(t) => failure == None && State() == t
              case Err(e) => failure == Some(e)
      decreases Identities(cat) - visiting, 0
    {
      var m := cat[i].manifest;
      var id := m.id;
      if id in visiting {
        return Some(DependencyCycle);
      }
      if id in visited {
        if id in planned && planned[id] == Wanted(m, requested) {
          return None;
        }
        return Some(ScopesInconsistent);
      }
      if profile !in m.profiles {
        return Some(ProfileUnsupported);
      }
      assert id in Identities(cat);
      visiting := visiting + {id};
      ghost var start := State();
      var k := 0;
      assert m.dependencies[0..] == m.dependencies;
      while k < |m.dependencies|
        invariant k <= |m.dependencies| && visiting == start.visiting
        invariant VisitedAll(cat, profile, m.dependencies, start) ==
          VisitedAll(cat, profile, m.dependencies[k..], State())
      {
        assert m.dependencies[k..][0] == m.dependencies[k] && m.dependencies[k..][1..] == m.dependencies[k + 1..];
        var row := FindAvailable(cat, m.dependencies[k].id);
        if row.None? {
          return Some(DependencyUnavailable);
        }
        failure := Visit(row.value, Some(m.dependencies[k].scopes));
        if failure.Some? {
          return;
        }
        k := k + 1;
      }
      visiting := visiting - {id};
      visited := visited + {id};
      var scopes := Wanted(m, requested);
      if !(scopes <= m.scopes) {
        return Some(ScopesExceedManifest);
      }
      planned := planned[id := scopes];
      plan := plan + [PlanItem(i, scopes)];
      return None;
    }
  }

  /** The planner run from its entry point computes `Plan`. */
  method InstallPlanFor(cat: Catalog, profile: string, root: nat) returns (r: Result<seq<PlanItem>, PlanError>)
    ensures r == Plan(cat, profile, root)
  {
    if !AvailableAt(cat, root) {
      return Err(RootUnavailable);
    }
    var planner := new Planner(cat, profile);
    var failure := planner.Visit(root, None);
    if failure.Some? {
      return Err(failure.value);
    }
    return Ok(planner.plan);
  }
}
