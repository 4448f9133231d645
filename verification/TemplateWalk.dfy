/** The breadth-first walk that validates a workspace template's library references, compared with the planner. */
module TemplateWalk {
  import opened Prelude
  import opened Library
  import opened InstallPlan

  /** A reference to validate: a template names a row by its id as well, a dependency only pins it. */
  datatype Ref = Ref(libraryId: Option<nat>, id: Identity, scopes: set<string>)

  datatype WalkError = Unavailable | IdentityChanged | Incompatible | ScopesExceeded

  function RefOf(dep: Dependency): Ref {
    Ref(None, dep.id, dep.scopes)
  }

  function RefsOf(deps: seq<Dependency>): (refs: seq<Ref>)
    ensures |refs| == |deps| && forall d :: 0 <= d < |deps| ==> refs[d] == RefOf(deps[d])
  {
    seq(|deps|, d requires 0 <= d < |deps| => RefOf(deps[d]))
  }

  /** The available row a reference selects, by row id when it has one. */
  function Resolve(cat: Catalog, ref: Ref): (r: Option<nat>)
    ensures r.Some? ==> AvailableAt(cat, r.value)
  {
    if ref.libraryId.Some? then
      if AvailableAt(cat, ref.libraryId.value) then ref.libraryId else None
    else FindAvailable(cat, ref.id)
  }

  /** An empty request is approved with everything the row allows. */
  function ApprovedScopes(cat: Catalog, i: nat, requested: set<string>): set<string>
    requires i < |cat|
  {
    if requested == {} then cat[i].manifest.scopes else requested
  }

  /** The walk from a queue of references, given what is approved already. */
  function Walk(cat: Catalog, profile: string, pending: seq<Ref>, seen: set<Identity>, approvals: seq<PlanItem>)
    : Result<seq<PlanItem>, WalkError>
    decreases Identities(cat) - seen, |pending|
  {
    if pending == [] then Ok(approvals)
    else
      var requested, rest := pending[0], pending[1..];
      var row := Resolve(cat, requested);
      if row.None? then Err(Unavailable)
      else
        var m := cat[row.value].manifest;
        if m.id != requested.id then Err(IdentityChanged)
        else if m.id in seen then Walk(cat, profile, rest, seen, approvals)
        else if m.profiles != {} && profile !in m.profiles then Err(Incompatible)
        else if !(requested.scopes <= m.scopes) then Err(ScopesExceeded)
        else
          assert m.id in Identities(cat);
          Walk(cat, profile, rest + RefsOf(m.dependencies), seen + {m.id},
               approvals + [PlanItem(row.value, ApprovedScopes(cat, row.value, requested.scopes))])
  }

  /** `validate_workspace_template_libraries`: a work list popped from the front and extended at the back. */
  method ValidateTemplateLibraries(cat: Catalog, profile: string, refs: seq<Ref>)
      returns (r: Result<seq<PlanItem>, WalkError>)
    ensures r == Walk(cat, profile, refs, {}, [])
  {
    var pending, approvals, seen := refs, [], {};
    while pending != []
      invariant Walk(cat, profile, refs, {}, []) == Walk(cat, profile, pending, seen, approvals)
      decreases Identities(cat) - seen, |pending|
    {
      var requested := pending[0];
      pending := pending[1..];
      var row := Resolve(cat, requested);
      if row.None? { return Err(Unavailable); }
      var m := cat[row.value].manifest;
      if m.id != requested.id { return Err(IdentityChanged); }
      if m.id in seen { continue; }
      if m.profiles != {} && profile !in m.profiles { return Err(Incompatible); }
      if !(requested.scopes <= m.scopes) { return Err(ScopesExceeded); }
      assert m.id in Identities(cat);
      seen := seen + {m.id};
      approvals := approvals + [PlanItem(row.value, ApprovedScopes(cat, row.value, requested.scopes))];
      pending := pending + RefsOf(m.dependencies);
    }
    return Ok(approvals);
  }

  // ---------------------------------------------------------------------------
  // One root: the walk approves what the planner plans
  // ---------------------------------------------------------------------------

  function RootRef(cat: Catalog, root: nat, scopes: set<string>): Ref
    requires root < |cat|
  {
    Ref(Some(root), cat[root].manifest.id, scopes)
  }

  /** The reference is the root's, or a pin of a row the root reaches. */
  ghost predicate Asked(cat: Catalog, root: nat, scopes: set<string>, ref: Ref) {
    && root < |cat|
    && (ref == RootRef(cat, root, scopes)
        || exists a: nat, d: nat ::
             && Reaches(cat, root, a) && a < |cat| && d < |cat[a].manifest.dependencies|
             && ref == RefOf(cat[a].manifest.dependencies[d]))
  }

  ghost predicate Queued(pending: seq<Ref>, id: Identity) {
    exists p :: 0 <= p < |pending| && pending[p].id == id
  }

  /** Approved rows: distinct, available, reachable, and indexed by `seen`. */
  ghost predicate ApprovedSoundly(cat: Catalog, root: nat, seen: set<Identity>, approvals: seq<PlanItem>) {
    && seen == PlannedIdentities(cat, approvals)
    && (forall k, l :: 0 <= k < l < |approvals| ==> approvals[k].lib != approvals[l].lib)
    && (forall k :: 0 <= k < |approvals| ==> AvailableAt(cat, approvals[k].lib) && Reaches(cat, root, approvals[k].lib))
  }

  /** Whatever an approved row pins is approved or still queued. */
  ghost predicate NothingDropped(cat: Catalog, pending: seq<Ref>, seen: set<Identity>, approvals: seq<PlanItem>) {
    forall k, d ::
      (0 <= k < |approvals| && approvals[k].lib < |cat| && 0 <= d < |cat[approvals[k].lib].manifest.dependencies|) ==>
        var id := cat[approvals[k].lib].manifest.dependencies[d].id;
        id in seen || Queued(pending, id)
  }

  lemma AskedReaches(cat: Catalog, root: nat, scopes: set<string>, ref: Ref, j: nat)
    requires Asked(cat, root, scopes, ref)
    requires Resolve(cat, ref) == Some(j)
    ensures Reaches(cat, root, j)
  {
    if ref == RootRef(cat, root, scopes) {
      ReachesSelf(cat, root);
    } else {
      var a: nat, d: nat :| Reaches(cat, root, a) && a < |cat| && d < |cat[a].manifest.dependencies| &&
        ref == RefOf(cat[a].manifest.dependencies[d]);
      assert Pins(cat, a, d, j);
      EdgeReaches(cat, a, j);
      ReachesVia(cat, root, a, j);
    }
  }

  lemma DroppedNothingAfterPop(cat: Catalog, pending: seq<Ref>, seen: set<Identity>, approvals: seq<PlanItem>)
    requires pending != [] && pending[0].id in seen
    requires NothingDropped(cat, pending, seen, approvals)
    ensures NothingDropped(cat, pending[1..], seen, approvals)
  {
    forall k, d | 0 <= k < |approvals| && approvals[k].lib < |cat| &&
      0 <= d < |cat[approvals[k].lib].manifest.dependencies|
      ensures var id := cat[approvals[k].lib].manifest.dependencies[d].id; id in seen || Queued(pending[1..], id)
    {
      var id := cat[approvals[k].lib].manifest.dependencies[d].id;
      if id !in seen {
        var p :| 0 <= p < |pending| && pending[p].id == id;
        assert pending[1..][p - 1] == pending[p];
      }
    }
  }

  lemma DroppedNothingAfterApproval(cat: Catalog, pending: seq<Ref>, seen: set<Identity>, approvals: seq<PlanItem>,
      item: PlanItem)
    requires pending != [] && item.lib < |cat| && pending[0].id == cat[item.lib].manifest.id
    requires NothingDropped(cat, pending, seen, approvals)
    ensures NothingDropped(cat, pending[1..] + RefsOf(cat[item.lib].manifest.dependencies), seen + {pending[0].id},
      approvals + [item])
  {
    var queue := pending[1..] + RefsOf(cat[item.lib].manifest.dependencies);
    var more := approvals + [item];
    forall k, d | 0 <= k < |more| && more[k].lib < |cat| && 0 <= d < |cat[more[k].lib].manifest.dependencies|
      ensures var id := cat[more[k].lib].manifest.dependencies[d].id; id in seen + {pending[0].id} || Queued(queue, id)
    {
      var id := cat[more[k].lib].manifest.dependencies[d].id;
      if k == |approvals| {
        assert queue[|pending| - 1 + d].id == id;
      } else if id !in seen + {pending[0].id} {
        assert more[k] == approvals[k];
        var p :| 0 <= p < |pending| && pending[p].id == id;
        assert queue[p - 1] == pending[p];
      }
    }
  }

  lemma ApprovedAfterApproval(cat: Catalog, root: nat, seen: set<Identity>, approvals: seq<PlanItem>, item: PlanItem)
    requires ApprovedSoundly(cat, root, seen, approvals)
    requires AvailableAt(cat, item.lib) && Reaches(cat, root, item.lib)
    requires cat[item.lib].manifest.id !in seen
    ensures ApprovedSoundly(cat, root, seen + {cat[item.lib].manifest.id}, approvals + [item])
  {
    AppendIdentity(cat, approvals, item);
  }

  lemma AskedAfterApproval(cat: Catalog, root: nat, scopes: set<string>, rest: seq<Ref>, i: nat)
    requires i < |cat| && root < |cat| && Reaches(cat, root, i)
    requires forall ref :: ref in rest ==> Asked(cat, root, scopes, ref)
    ensures forall ref :: ref in rest + RefsOf(cat[i].manifest.dependencies) ==> Asked(cat, root, scopes, ref)
  {
    forall d | 0 <= d < |cat[i].manifest.dependencies|
      ensures Asked(cat, root, scopes, RefOf(cat[i].manifest.dependencies[d]))
    {
    }
  }

  /** When the walk succeeds, what it returns is distinct, reachable and closed under pins. */
  lemma {:induction false} WalkSound(cat: Catalog, profile: string, root: nat, scopes: set<string>, pending: seq<Ref>,
      seen: set<Identity>, approvals: seq<PlanItem>)
    requires ApprovedSoundly(cat, root, seen, approvals)
    requires NothingDropped(cat, pending, seen, approvals)
    requires forall ref :: ref in pending ==> Asked(cat, root, scopes, ref)
    requires Walk(cat, profile, pending, seen, approvals).Ok?
    ensures var done := Walk(cat, profile, pending, seen, approvals).value;
            && ApprovedSoundly(cat, root, PlannedIdentities(cat, done), done)
            && NothingDropped(cat, [], PlannedIdentities(cat, done), done)
            && approvals <= done
            && forall p :: 0 <= p < |pending| ==> pending[p].id in PlannedIdentities(cat, done)
    decreases Identities(cat) - seen, |pending|
  {
    if pending != [] {
      var requested, rest := pending[0], pending[1..];
      var i := Resolve(cat, requested).value;
      var m := cat[i].manifest;
      var done := Walk(cat, profile, pending, seen, approvals).value;
      if m.id in seen {
        DroppedNothingAfterPop(cat, pending, seen, approvals);
        WalkSound(cat, profile, root, scopes, rest, seen, approvals);
        PrefixIdentities(cat, approvals, done);
        assert forall p :: 1 <= p < |pending| ==> pending[p] == rest[p - 1];
      } else {
        assert m.id in Identities(cat);
        AskedReaches(cat, root, scopes, requested, i);
        var item := PlanItem(i, ApprovedScopes(cat, i, requested.scopes));
        DroppedNothingAfterApproval(cat, pending, seen, approvals, item);
        ApprovedAfterApproval(cat, root, seen, approvals, item);
        AskedAfterApproval(cat, root, scopes, rest, i);
        var queue := rest + RefsOf(m.dependencies);
        WalkSound(cat, profile, root, scopes, queue, seen + {m.id}, approvals + [item]);
        PrefixIdentities(cat, approvals + [item], done);
        assert forall p :: 1 <= p < |pending| ==> pending[p] == queue[p - 1];
      }
    }
  }

  lemma PrefixIdentities(cat: Catalog, approvals: seq<PlanItem>, done: seq<PlanItem>)
    requires approvals <= done
    ensures PlannedIdentities(cat, approvals) <= PlannedIdentities(cat, done)
  {
    forall k | 0 <= k < |approvals| ensures approvals[k] == done[k] {
    }
  }

  /** Over an installable graph the walk does not fail. */
  lemma {:induction false} WalkSucceeds(cat: Catalog, profile: string, root: nat, scopes: set<string>,
      pending: seq<Ref>, seen: set<Identity>, approvals: seq<PlanItem>)
    requires Installable(cat, profile, root)
    requires scopes <= cat[root].manifest.scopes
    requires forall ref :: ref in pending ==> Asked(cat, root, scopes, ref)
    ensures Walk(cat, profile, pending, seen, approvals).Ok?
    decreases Identities(cat) - seen, |pending|
  {
    if pending != [] {
      var requested, rest := pending[0], pending[1..];
      var i := AskedResolves(cat, profile, root, scopes, requested);
      var m := cat[i].manifest;
      if m.id in seen {
        WalkSucceeds(cat, profile, root, scopes, rest, seen, approvals);
      } else {
        assert m.id in Identities(cat);
        AskedAfterApproval(cat, root, scopes, rest, i);
        WalkSucceeds(cat, profile, root, scopes, rest + RefsOf(m.dependencies), seen + {m.id},
                     approvals + [PlanItem(i, ApprovedScopes(cat, i, requested.scopes))]);
      }
    }
  }

  lemma AskedResolves(cat: Catalog, profile: string, root: nat, scopes: set<string>, ref: Ref) returns (i: nat)
    requires Installable(cat, profile, root)
    requires scopes <= cat[root].manifest.scopes
    requires Asked(cat, root, scopes, ref)
    ensures Resolve(cat, ref) == Some(i) && i < |cat| && Reaches(cat, root, i)
    ensures cat[i].manifest.id == ref.id && profile in cat[i].manifest.profiles && ref.scopes <= cat[i].manifest.scopes
  {
    if ref == RootRef(cat, root, scopes) {
      i := root;
    } else {
      var a: nat, d: nat :| Reaches(cat, root, a) && a < |cat| && d < |cat[a].manifest.dependencies| &&
        ref == RefOf(cat[a].manifest.dependencies[d]);
      assert PinsResolve(cat, profile, a);
      i := FindAvailable(cat, ref.id).value;
    }
    AskedReaches(cat, root, scopes, ref, i);
    assert PinsResolve(cat, profile, i);
  }

  function Rows(items: seq<PlanItem>): (rows: seq<nat>)
    ensures |rows| == |items| && forall k :: 0 <= k < |items| ==> rows[k] == items[k].lib
  {
    seq(|items|, k requires 0 <= k < |items| => items[k].lib)
  }

  lemma {:induction false} DistinctMultiset(s: seq<nat>)
    requires forall k, l :: 0 <= k < l < |s| ==> s[k] != s[l]
    ensures forall x :: multiset(s)[x] == if x in s then 1 else 0
  {
    if s != [] {
      var n := |s| - 1;
      assert s == s[..n] + [s[n]];
      DistinctMultiset(s[..n]);
    }
  }

  lemma SameMembersPermute(s: seq<nat>, t: seq<nat>)
    requires forall k, l :: 0 <= k < l < |s| ==> s[k] != s[l]
    requires forall k, l :: 0 <= k < l < |t| ==> t[k] != t[l]
    requires forall x :: x in s <==> x in t
    ensures multiset(s) == multiset(t)
  {
    DistinctMultiset(s);
    DistinctMultiset(t);
  }

  /** What the walk approves from one root is what that root reaches. */
  lemma WalkReaches(cat: Catalog, profile: string, root: nat, scopes: set<string>)
    requires UniqueIdentities(cat)
    requires AvailableAt(cat, root)
    requires Walk(cat, profile, [RootRef(cat, root, scopes)], {}, []).Ok?
    ensures var done := Walk(cat, profile, [RootRef(cat, root, scopes)], {}, []).value;
            && (forall i: nat :: i in Rows(done) <==> Reaches(cat, root, i))
            && (forall k, l :: 0 <= k < l < |done| ==> done[k].lib != done[l].lib)
  {
    var pending := [RootRef(cat, root, scopes)];
    WalkSound(cat, profile, root, scopes, pending, {}, []);
    var done := Walk(cat, profile, pending, {}, []).value;
    var nodes := set i: nat | i in Rows(done);
    forall a: nat, b: nat | a in nodes && Edge(cat, a, b)
      ensures b in nodes
    {
      var d: nat :| Pins(cat, a, d, b);
      var k :| 0 <= k < |done| && done[k].lib == a;
      assert cat[a].manifest.dependencies[d].id in PlannedIdentities(cat, done);
    }
    assert pending[0].id in PlannedIdentities(cat, done);
    assert root in nodes;
    forall i: nat | Reaches(cat, root, i)
      ensures i in Rows(done)
    {
      var n: nat :| ReachesIn(cat, root, i, n);
      ClosedContainsReachable(cat, nodes, root, i, n);
    }
  }

  /** Whenever the planner plans a root, the walk approves a permutation of the same rows. */
  lemma WalkPermutesPlan(cat: Catalog, profile: string, root: nat, scopes: set<string>)
    requires UniqueIdentities(cat)
    requires Plan(cat, profile, root).Ok?
    requires scopes <= cat[root].manifest.scopes
    ensures var walked := Walk(cat, profile, [RootRef(cat, root, scopes)], {}, []);
            walked.Ok? && multiset(Rows(walked.value)) == multiset(Rows(Plan(cat, profile, root).value))
  {
    PlanExistsIff(cat, profile, root);
    PlanInstallsAll(cat, profile, root);
    WalkSucceeds(cat, profile, root, scopes, [RootRef(cat, root, scopes)], {}, []);
    WalkReaches(cat, profile, root, scopes);
    var done := Walk(cat, profile, [RootRef(cat, root, scopes)], {}, []).value;
    var plan := Plan(cat, profile, root).value;
    forall i: nat
      ensures i in Rows(done) <==> i in Rows(plan)
    {
      assert Installs(plan, i) <==> i in Rows(plan);
    }
    SameMembersPermute(Rows(done), Rows(plan));
  }

  // ---------------------------------------------------------------------------
  // Approved scopes
  // ---------------------------------------------------------------------------

  /** The item is what the reference asks for: all its row allows when it asks for nothing in particular. */
  predicate AskedFor(cat: Catalog, ref: Ref, item: PlanItem) {
    && item.lib < |cat| && cat[item.lib].manifest.id == ref.id
    && (ref.libraryId.Some? ==> ref.libraryId.value == item.lib)
    && ref.scopes <= cat[item.lib].manifest.scopes
    && item.scopes == if ref.scopes == {} then cat[item.lib].manifest.scopes else ref.scopes
  }

  /** Some reference, the root's or a reachable row's pin, asks for the item. */
  ghost predicate AskedBySome(cat: Catalog, root: nat, scopes: set<string>, item: PlanItem) {
    exists ref :: Asked(cat, root, scopes, ref) && AskedFor(cat, ref, item)
  }

  /** Every approved item carries the scopes some reference asks for. */
  lemma {:induction false} WalkScopes(cat: Catalog, profile: string, root: nat, scopes: set<string>, pending: seq<Ref>,
      seen: set<Identity>, approvals: seq<PlanItem>)
    requires root < |cat|
    requires forall ref :: ref in pending ==> Asked(cat, root, scopes, ref)
    requires forall k :: 0 <= k < |approvals| ==> AskedBySome(cat, root, scopes, approvals[k])
    requires Walk(cat, profile, pending, seen, approvals).Ok?
    ensures var done := Walk(cat, profile, pending, seen, approvals).value;
            && approvals <= done
            && forall k :: 0 <= k < |done| ==> AskedBySome(cat, root, scopes, done[k])
    decreases Identities(cat) - seen, |pending|
  {
    if pending != [] {
      var requested, rest := pending[0], pending[1..];
      var i := Resolve(cat, requested).value;
      var m := cat[i].manifest;
      if m.id in seen {
        WalkScopes(cat, profile, root, scopes, rest, seen, approvals);
      } else {
        assert m.id in Identities(cat);
        AskedReaches(cat, root, scopes, requested, i);
        AskedAfterApproval(cat, root, scopes, rest, i);
        var item := PlanItem(i, ApprovedScopes(cat, i, requested.scopes));
        assert AskedFor(cat, requested, item);
        assert AskedBySome(cat, root, scopes, item);
        WalkScopes(cat, profile, root, scopes, rest + RefsOf(m.dependencies), seen + {m.id}, approvals + [item]);
      }
    }
  }

  /** The root comes first, with the scopes asked of it; every other item's scopes are asked for by some pin. */
  lemma RootApprovedFirst(cat: Catalog, profile: string, root: nat, scopes: set<string>)
    requires AvailableAt(cat, root)
    requires Walk(cat, profile, [RootRef(cat, root, scopes)], {}, []).Ok?
    ensures var done := Walk(cat, profile, [RootRef(cat, root, scopes)], {}, []).value;
            && scopes <= cat[root].manifest.scopes
            && done != []
            && done[0] == PlanItem(root, if scopes == {} then cat[root].manifest.scopes else scopes)
            && forall k :: 0 <= k < |done| ==> AskedBySome(cat, root, scopes, done[k])
  {
    var ref := RootRef(cat, root, scopes);
    assert [ref][1..] == [];
    var m := cat[root].manifest;
    var item := PlanItem(root, ApprovedScopes(cat, root, scopes));
    assert m.id in Identities(cat);
    assert AskedFor(cat, ref, item);
    assert AskedBySome(cat, root, scopes, item);
    ReachesSelf(cat, root);
    AskedAfterApproval(cat, root, scopes, [], root);
    WalkScopes(cat, profile, root, scopes, [] + RefsOf(m.dependencies), {} + {m.id}, [] + [item]);
  }
}
