/** The versioned package registry as a table, its lookups, and the dependency graph it spans. */
module Library {
  import opened Prelude
  import opened Bundles
  import opened SemanticVersions

  /** What a pinned dependency names: one exact published version. */
  datatype Identity = Identity(stableId: string, version: string, contentHash: string)

  datatype Dependency = Dependency(id: Identity, scopes: set<string>)

  /**
   * A normalised manifest. Sorted duplicate-free lists are represented as sets; `document` is the manifest as stored,
   * with provenance, label and every other field that only registration compares.
   */
  datatype Manifest = Manifest(
    id: Identity,
    profiles: set<string>,
    scopes: set<string>,
    dependencies: seq<Dependency>,
    probe: Probe,
    bundles: map<string, Bundle>,
    document: Bundle)

  /** What validation leaves of a manifest, as far as the control plane relies on it. */
  predicate Acceptable(m: Manifest) {
    && IsVersion(m.id.version)
    && m.profiles != {}
    && (forall d :: 0 <= d < |m.dependencies| ==> m.dependencies[d].id.stableId != m.id.stableId)
    && (forall p :: p in m.profiles ==> p in m.bundles)
  }

  datatype Status = Available | Disabled | Removed

  datatype Row = Row(manifest: Manifest, status: Status)

  /** Rows are only ever appended, so a row's position stands for its `library_id`. */
  type Catalog = seq<Row>

  /** The table's UNIQUE(stable_id, version, content_hash) constraint. */
  ghost predicate UniqueIdentities(cat: Catalog) {
    forall i, j :: 0 <= i < j < |cat| ==> cat[i].manifest.id != cat[j].manifest.id
  }

  predicate AvailableAt(cat: Catalog, i: nat) {
    i < |cat| && cat[i].status == Available
  }

  /** The first available row from position `start` on that carries the pinned identity. */
  function FindFrom(cat: Catalog, id: Identity, start: nat): (r: Option<nat>)
    requires start <= |cat|
    ensures r.Some? ==> start <= r.value && AvailableAt(cat, r.value) && cat[r.value].manifest.id == id
    ensures r.None? ==> forall i :: start <= i < |cat| ==> !(cat[i].manifest.id == id && cat[i].status == Available)
    decreases |cat| - start
  {
    if start == |cat| then None
    else if cat[start].manifest.id == id && cat[start].status == Available then Some(start)
    else FindFrom(cat, id, start + 1)
  }

  function FindAvailable(cat: Catalog, id: Identity): (r: Option<nat>)
    ensures r.Some? ==> AvailableAt(cat, r.value) && cat[r.value].manifest.id == id
    ensures r.None? ==> forall i :: 0 <= i < |cat| ==> !(cat[i].manifest.id == id && cat[i].status == Available)
  {
    FindFrom(cat, id, 0)
  }

  function Identities(cat: Catalog): set<Identity> {
    set i | 0 <= i < |cat| :: cat[i].manifest.id
  }

  /** Row `i` pins an available row `j` through its dependency number `d`. */
  ghost predicate Pins(cat: Catalog, i: nat, d: nat, j: nat) {
    i < |cat| && d < |cat[i].manifest.dependencies| && FindAvailable(cat, cat[i].manifest.dependencies[d].id) == Some(j)
  }

  ghost predicate Edge(cat: Catalog, i: nat, j: nat) {
    exists d: nat :: Pins(cat, i, d, j)
  }

  /** `j` is reached from `i` along exactly `n` edges. */
  ghost predicate ReachesIn(cat: Catalog, i: nat, j: nat, n: nat)
    decreases n
  {
    if n == 0 then i == j else exists m: nat :: Edge(cat, i, m) && ReachesIn(cat, m, j, n - 1)
  }

  ghost predicate Reaches(cat: Catalog, i: nat, j: nat) {
    exists n: nat :: ReachesIn(cat, i, j, n)
  }

  lemma {:induction false} ReachesInCompose(cat: Catalog, i: nat, m: nat, j: nat, a: nat, b: nat)
    requires ReachesIn(cat, i, m, a)
    requires ReachesIn(cat, m, j, b)
    ensures ReachesIn(cat, i, j, a + b)
    decreases a
  {
    if a != 0 {
      var k: nat :| Edge(cat, i, k) && ReachesIn(cat, k, m, a - 1);
      ReachesInCompose(cat, k, m, j, a - 1, b);
    }
  }

  /** The last step of a walk. */
  lemma {:induction false} LastEdge(cat: Catalog, i: nat, j: nat, n: nat) returns (a: nat)
    requires n > 0 && ReachesIn(cat, i, j, n)
    ensures ReachesIn(cat, i, a, n - 1) && Edge(cat, a, j)
    decreases n
  {
    var m: nat :| Edge(cat, i, m) && ReachesIn(cat, m, j, n - 1);
    if n == 1 {
      a := i;
    } else {
      a := LastEdge(cat, m, j, n - 1);
    }
  }

  lemma ReachesSelf(cat: Catalog, i: nat)
    ensures Reaches(cat, i, i)
  {
    assert ReachesIn(cat, i, i, 0);
  }

  lemma ReachesVia(cat: Catalog, i: nat, m: nat, j: nat)
    requires Reaches(cat, i, m)
    requires Reaches(cat, m, j)
    ensures Reaches(cat, i, j)
  {
    var a: nat :| ReachesIn(cat, i, m, a);
    var b: nat :| ReachesIn(cat, m, j, b);
    ReachesInCompose(cat, i, m, j, a, b);
  }

  lemma EdgeReaches(cat: Catalog, i: nat, j: nat)
    requires Edge(cat, i, j)
    ensures ReachesIn(cat, i, j, 1)
    ensures Reaches(cat, i, j)
  {
    assert ReachesIn(cat, j, j, 0);
    assert ReachesIn(cat, i, j, 1);
  }

  /** A set that contains the start and is closed under edges contains everything reachable. */
  lemma {:induction false} ClosedContainsReachable(cat: Catalog, nodes: set<nat>, i: nat, j: nat, n: nat)
    requires i in nodes
    requires forall a, b :: a in nodes && Edge(cat, a, b) ==> b in nodes
    requires ReachesIn(cat, i, j, n)
    ensures j in nodes
    decreases n
  {
    if n != 0 {
      var m: nat :| Edge(cat, i, m) && ReachesIn(cat, m, j, n - 1);
      ClosedContainsReachable(cat, nodes, m, j, n - 1);
    }
  }
}
