/** Workspace bootstrap bundles: JSON objects, their structural merge, and the activation probe. */
module Bundles {
  import opened Prelude
  import opened Strings
  import opened KeyedLists

  datatype Json =
    | Null | Bool(flag: bool) | Number(value: real) | Text(text: string)
    | List(items: seq<Json>) | Object(fields: map<string, Json>)

  type Bundle = map<string, Json>

  /** A manifest's health probe: what must be present once its bundle is merged. */
  datatype Probe = Probe(files: set<string>, keys: set<string>, servers: set<string>)

  const FILES := "files"
  const CLAUDE := "claude_project_mcp"
  const CODEX := "codex_config_append"
  const MCP_SERVERS := "mcpServers"

  function Lookup(b: Bundle, key: string): Option<Json> {
    if key in b then Some(b[key]) else None
  }

  /** The trimmed path of a file entry; blank for anything that is not an entry with a path. */
  function PathOf(item: Json): string {
    if item.Object? && "path" in item.fields && item.fields["path"].Text? then Trim(item.fields["path"].text) else ""
  }

  // ---------------------------------------------------------------------------
  // Structural merge
  // ---------------------------------------------------------------------------

  /** What a key holds once `value` arrives over `current`. */
  function MergeValue(key: string, current: Option<Json>, value: Json): Json
    decreases value
  {
    if key == FILES && value.List? then
      List(MergeLists(PathOf, if current.Some? && current.value.List? then current.value.items else [], value.items))
    else if current.Some? && current.value.Object? && value.Object? then
      Object(map k | k in current.value.fields.Keys + value.fields.Keys ::
        if k in value.fields then MergeValue(k, Lookup(current.value.fields, k), value.fields[k])
        else current.value.fields[k])
    else value
  }

  function Merge(existing: Bundle, incoming: Bundle): (merged: Bundle)
    ensures merged.Keys == existing.Keys + incoming.Keys
    ensures forall k :: k in incoming ==> merged[k] == MergeValue(k, Lookup(existing, k), incoming[k])
    ensures forall k :: k in existing && k !in incoming ==> merged[k] == existing[k]
  {
    MergeValue("", Some(Object(existing)), Object(incoming)).fields
  }

  /** `_merge_bootstrap`: a copy of the existing object, updated key by key. */
  method MergeBootstrap(existing: Bundle, incoming: Bundle) returns (merged: Bundle)
    ensures merged == Merge(existing, incoming)
    decreases Object(incoming), 0
  {
    merged := existing;
    var todo := incoming.Keys;
    while todo != {}
      invariant todo <= incoming.Keys
      invariant merged.Keys == existing.Keys + (incoming.Keys - todo)
      invariant forall k :: k in merged ==>
        merged[k] == if k in incoming && k !in todo then MergeValue(k, Lookup(existing, k), incoming[k])
          else existing[k]
    {
      var key :| key in todo;
      assert incoming[key] < Object(incoming);
      var value := MergeKey(key, Lookup(merged, key), incoming[key]);
      merged := merged[key := value];
      todo := todo - {key};
    }
  }

  /** One round of the update: the value a key takes. */
  method MergeKey(key: string, current: Option<Json>, value: Json) returns (r: Json)
    ensures r == MergeValue(key, current, value)
    decreases value, 1
  {
    if key == FILES && value.List? {
      var prior := if current.Some? && current.value.List? then current.value.items else [];
      prior := MergeByIndex(PathOf, prior, value.items);
      r := List(prior);
    } else if current.Some? && current.value.Object? && value.Object? {
      var inner := MergeBootstrap(current.value.fields, value.fields);
      r := Object(inner);
    } else {
      r := value;
    }
  }

  // ---------------------------------------------------------------------------
  // Associativity and idempotence
  // ---------------------------------------------------------------------------

  function Items(v: Option<Json>): seq<Json> {
    if v.Some? && v.value.List? then v.value.items else []
  }

  ghost predicate AssociativeAt(key: string, a: Option<Json>, b: Json, c: Json) {
    MergeValue(key, Some(MergeValue(key, a, b)), c) == MergeValue(key, a, MergeValue(key, Some(b), c))
  }

  /** The later value leaves nothing of the earlier one. */
  ghost predicate Covers(key: string, a: Option<Json>, c: Json)
    decreases c
  {
    if key == FILES && c.List? then MergeLists(PathOf, Items(a), c.items) == c.items
    else a.Some? && a.value.Object? && c.Object? ==>
      a.value.fields.Keys <= c.fields.Keys && forall k :: k in c.fields ==>
        Covers(k, Lookup(a.value.fields, k), c.fields[k])
  }

  /**
   * Where the middle value is of a kind the outer two would not merge with, the last must leave nothing of the first
   * one anyway: a file list whose paths lead those of the last, an object that the last one covers.
   */
  ghost predicate Associates(key: string, a: Option<Json>, b: Json, c: Json)
    decreases c
  {
    if key == FILES && c.List? then !b.List? ==> Leads(PathOf, Items(a), c.items)
    else a.Some? && a.value.Object? && c.Object? ==>
      if !b.Object? then Covers(key, a, c)
      else forall k :: k in b.fields && k in c.fields ==>
        Associates(k, Lookup(a.value.fields, k), b.fields[k], c.fields[k])
  }

  lemma MergeObjects(key: string, a: Bundle, b: Bundle)
    ensures MergeValue(key, Some(Object(a)), Object(b)) == Object(Merge(a, b))
  {
  }

  lemma {:induction false} CoversIff(key: string, a: Option<Json>, c: Json)
    ensures MergeValue(key, a, c) == c <==> Covers(key, a, c)
    decreases c
  {
    if !(key == FILES && c.List?) && a.Some? && a.value.Object? && c.Object? {
      var merged := Merge(a.value.fields, c.fields);
      MergeObjects(key, a.value.fields, c.fields);
      forall k | k in c.fields
        ensures merged[k] == c.fields[k] <==> Covers(k, Lookup(a.value.fields, k), c.fields[k])
      {
        CoversIff(k, Lookup(a.value.fields, k), c.fields[k]);
      }
      if merged.Keys == c.fields.Keys {
        assert (forall k :: k in c.fields ==> merged[k] == c.fields[k]) <==> merged == c.fields;
      } else {
        assert merged != c.fields;
      }
    }
  }

  lemma {:induction false} MergeValueAssociativeIff(key: string, a: Option<Json>, b: Json, c: Json)
    ensures AssociativeAt(key, a, b, c) <==> Associates(key, a, b, c)
    decreases c
  {
    if key == FILES && c.List? {
      var middle := Items(Some(b));
      MergeAssociative(PathOf, Items(a), middle, c.items);
      MergeAssociative(PathOf, Items(a), [], c.items);
      LeadsIff(PathOf, Items(a), c.items);
    } else if a.Some? && a.value.Object? && c.Object? {
      if b.Object? {
        forall k | k in b.fields && k in c.fields
          ensures AssociativeAt(k, Lookup(a.value.fields, k), b.fields[k], c.fields[k])
             <==> Associates(k, Lookup(a.value.fields, k), b.fields[k], c.fields[k])
        {
          MergeValueAssociativeIff(k, Lookup(a.value.fields, k), b.fields[k], c.fields[k]);
        }
        ObjectsAssociateIff(key, a.value.fields, b.fields, c.fields);
      } else {
        CoversIff(key, a, c);
      }
    }
  }

  ghost predicate MergeAssociatively(a: Bundle, b: Bundle, c: Bundle) {
    Merge(Merge(a, b), c) == Merge(a, Merge(b, c))
  }

  lemma SameBundles(x: Bundle, y: Bundle)
    requires x.Keys == y.Keys
    ensures x == y <==> forall k :: k in x.Keys ==> x[k] == y[k]
  {
  }

  /** Objects merge associatively exactly when the keys the later two share do. */
  lemma MergeObjectsAssociativeIff(a: Bundle, b: Bundle, c: Bundle)
    ensures MergeAssociatively(a, b, c)
       <==> forall k :: k in b && k in c ==> AssociativeAt(k, Lookup(a, k), b[k], c[k])
  {
    forall k | k in a || k in b || k in c
      ensures Merge(Merge(a, b), c)[k] == Merge(a, Merge(b, c))[k]
         <==> (k in b && k in c ==> AssociativeAt(k, Lookup(a, k), b[k], c[k]))
    {
      AssociativeKey(a, b, c, k);
    }
    SameBundles(Merge(Merge(a, b), c), Merge(a, Merge(b, c)));
  }

  lemma AssociativeKey(a: Bundle, b: Bundle, c: Bundle, k: string)
    requires k in a || k in b || k in c
    ensures Merge(Merge(a, b), c)[k] == Merge(a, Merge(b, c))[k]
       <==> (k in b && k in c ==> AssociativeAt(k, Lookup(a, k), b[k], c[k]))
  {
    var ab, bc := Merge(a, b), Merge(b, c);
    if k in c {
      assert Merge(ab, c)[k] == MergeValue(k, Lookup(ab, k), c[k]);
      assert Merge(a, bc)[k] == MergeValue(k, Lookup(a, k), bc[k]);
      assert bc[k] == MergeValue(k, Lookup(b, k), c[k]);
      if k in b {
        assert Lookup(ab, k) == Some(MergeValue(k, Lookup(a, k), b[k]));
      } else {
        AppearsOnce(k, Lookup(a, k), c[k]);
      }
    }
  }

  lemma AppearsOnce(k: string, a: Option<Json>, c: Json)
    ensures MergeValue(k, a, MergeValue(k, None, c)) == MergeValue(k, a, c)
  {
    if k == FILES && c.List? {
      MergeAssociative(PathOf, Items(a), [], c.items);
    }
  }

  lemma ObjectsAssociateIff(key: string, a: Bundle, b: Bundle, c: Bundle)
    ensures AssociativeAt(key, Some(Object(a)), Object(b), Object(c))
       <==> forall k :: k in b && k in c ==> AssociativeAt(k, Lookup(a, k), b[k], c[k])
  {
    MergeObjectsAssociativeIff(a, b, c);
    MergeObjects(key, a, b);
    MergeObjects(key, b, c);
    MergeObjects(key, Merge(a, b), c);
    MergeObjects(key, a, Merge(b, c));
  }

  /** Merging three bundles is associative exactly when they associate. */
  lemma MergeBundlesAssociativeIff(a: Bundle, b: Bundle, c: Bundle)
    ensures MergeAssociatively(a, b, c) <==> Associates("", Some(Object(a)), Object(b), Object(c))
  {
    MergeValueAssociativeIff("", Some(Object(a)), Object(b), Object(c));
    ObjectsAssociateIff("", a, b, c);
    MergeObjectsAssociativeIff(a, b, c);
  }

  /** Where the outer values are mergeable with each other, the middle one does not change their kind. */
  ghost predicate KeepsKind(key: string, a: Option<Json>, b: Json, c: Json)
    decreases c
  {
    && (key == FILES && a.Some? && a.value.List? && c.List? ==> b.List?)
    && (a.Some? && a.value.Object? && c.Object? ==>
          && b.Object?
          && forall k :: k in b.fields && k in c.fields ==>
               KeepsKind(k, Lookup(a.value.fields, k), b.fields[k], c.fields[k]))
  }

  lemma {:induction false} KeepsKindAssociates(key: string, a: Option<Json>, b: Json, c: Json)
    requires KeepsKind(key, a, b, c)
    ensures Associates(key, a, b, c)
    decreases c
  {
    if !(key == FILES && c.List?) && a.Some? && a.value.Object? && c.Object? {
      forall k | k in b.fields && k in c.fields
        ensures Associates(k, Lookup(a.value.fields, k), b.fields[k], c.fields[k])
      {
        KeepsKindAssociates(k, Lookup(a.value.fields, k), b.fields[k], c.fields[k]);
      }
    }
  }

  /** In particular when no middle bundle turns a mergeable key into another kind. */
  lemma MergeBundlesAssociative(a: Bundle, b: Bundle, c: Bundle)
    requires KeepsKind("", Some(Object(a)), Object(b), Object(c))
    ensures MergeAssociatively(a, b, c)
  {
    KeepsKindAssociates("", Some(Object(a)), Object(b), Object(c));
    MergeBundlesAssociativeIff(a, b, c);
  }

  lemma OneKeyAssociativeIff(k: string, a: Json, b: Json, c: Json)
    ensures MergeAssociatively(map[k := a], map[k := b], map[k := c]) <==> Associates(k, Some(a), b, c)
  {
    var outer: Bundle, middle: Bundle, last: Bundle := map[k := a], map[k := b], map[k := c];
    assert Lookup(outer, k) == Some(a);
    MergeObjectsAssociativeIff(outer, middle, last);
    MergeValueAssociativeIff(k, Some(a), b, c);
    assert k in middle && k in last;
  }

  /** A scalar in the middle hides an object before it exactly when the last object does not cover that one. */
  lemma ScalarHidesEarlierObject(k: string, a: Bundle, c: Bundle)
    ensures MergeAssociatively(map[k := Object(a)], map[k := Null], map[k := Object(c)])
       <==> Covers(k, Some(Object(a)), Object(c))
  {
    OneKeyAssociativeIff(k, Object(a), Null, Object(c));
  }

  /** And a file list exactly when its paths do not lead those of the last list. */
  lemma ScalarHidesEarlierFiles(a: seq<Json>, c: seq<Json>)
    ensures MergeAssociatively(map[FILES := List(a)], map[FILES := Null], map[FILES := List(c)])
      <==> Leads(PathOf, a, c)
  {
    OneKeyAssociativeIff(FILES, List(a), Null, List(c));
  }

  /** Every entry of every file list has a path. */
  ghost predicate PathsNamed(key: string, v: Json)
    decreases v
  {
    if key == FILES && v.List? then "" !in Keys(PathOf, v.items)
    else v.Object? ==> forall k :: k in v.fields ==> PathsNamed(k, v.fields[k])
  }

  lemma {:induction false} MergeValueIdempotentIff(key: string, v: Json)
    ensures MergeValue(key, Some(v), v) == v <==> PathsNamed(key, v)
    decreases v
  {
    if key == FILES && v.List? {
      MergeIdempotentIff(PathOf, v.items);
    } else if v.Object? {
      var merged := MergeValue(key, Some(v), v).fields;
      forall k | k in v.fields
        ensures merged[k] == v.fields[k] <==> PathsNamed(k, v.fields[k])
      {
        MergeValueIdempotentIff(k, v.fields[k]);
      }
      assert merged.Keys == v.fields.Keys;
      assert (forall k :: k in v.fields ==> merged[k] == v.fields[k]) <==> merged == v.fields;
    }
  }

  /** Merging a bundle into itself changes nothing, exactly when its file entries all have paths. */
  lemma MergeBundlesIdempotentIff(b: Bundle)
    ensures Merge(b, b) == b <==> PathsNamed("", Object(b))
  {
    MergeValueIdempotentIff("", Object(b));
  }

  // ---------------------------------------------------------------------------
  // Growth, and the activation probe
  // ---------------------------------------------------------------------------

  predicate FilesAreListed(b: Bundle) {
    FILES in b ==> b[FILES].List?
  }

  /** The paths of the bundle's file entries. */
  function FilePaths(b: Bundle): set<string> {
    if FILES in b && b[FILES].List? then Keys(PathOf, b[FILES].items) else {}
  }

  /** File paths accumulate, unless the newcomer holds something other than a list in their place. */
  lemma MergeFilePaths(a: Bundle, b: Bundle)
    ensures FilePaths(Merge(a, b)) ==
            if FILES !in b then FilePaths(a) else if b[FILES].List? then FilePaths(a) + FilePaths(b) else {}
  {
    if FILES in b && b[FILES].List? { MergeKeys(PathOf, Items(Lookup(a, FILES)), b[FILES].items); }
  }

  /** The servers of a Claude project configuration: its `mcpServers` object, or the object itself. */
  function ClaudeServers(b: Bundle): set<string> {
    if CLAUDE !in b || !b[CLAUDE].Object? then {}
    else
      var raw := b[CLAUDE].fields;
      var servers := if MCP_SERVERS in raw then raw[MCP_SERVERS] else b[CLAUDE];
      if servers.Object? then servers.fields.Keys else {}
  }

  predicate CodexDeclares(b: Bundle, server: string) {
    var config := if CODEX in b && b[CODEX].Text? then b[CODEX].text else "";
    Contains(config, "[mcp_servers." + server + "]") || Contains(config, "[mcp_servers.\"" + server + "\"]")
  }

  predicate ServerFound(profile: string, b: Bundle, server: string) {
    if profile == "claude-code" then server in ClaudeServers(b) else CodexDeclares(b, server)
  }

  /** Looking through `files` fails on a value that cannot be iterated; a text or an object has no file entries. */
  predicate FilesReadable(b: Bundle) {
    FILES in b ==> b[FILES].List? || b[FILES].Object? || b[FILES].Text?
  }

  /** `probe_activation`: the merged bundle holds every required file, key and server. */
  predicate ProbePasses(probe: Probe, profile: string, b: Bundle) {
    && FilesReadable(b)
    && probe.files <= FilePaths(b)
    && probe.keys <= b.Keys
    && forall s :: s in probe.servers ==> ServerFound(profile, b, s)
  }

  /** Required keys that passed a probe survive any further merge; required files, unless `files` is replaced. */
  lemma RequirementsSurviveIff(probe: Probe, profile: string, b: Bundle, later: Bundle)
    requires ProbePasses(probe, profile, b)
    ensures probe.keys <= Merge(b, later).Keys
    ensures probe.files <= FilePaths(Merge(b, later)) <==> (FilesAreListed(later) || probe.files == {})
  {
    MergeFilePaths(b, later);
  }

  /** A Claude configuration in the shape library validation accepts. */
  predicate ClaudeShaped(b: Bundle) {
    CLAUDE in b && b[CLAUDE].Object? && (MCP_SERVERS in b[CLAUDE].fields ==> b[CLAUDE].fields[MCP_SERVERS].Object?)
  }

  predicate Nested(b: Bundle) {
    CLAUDE in b && b[CLAUDE].Object? && MCP_SERVERS in b[CLAUDE].fields
  }

  /** Servers accumulate, except that the nested form hides flat entries on the other side. */
  lemma ClaudeServersAfterMerge(a: Bundle, b: Bundle)
    requires ClaudeShaped(a) && ClaudeShaped(b)
    ensures ClaudeShaped(Merge(a, b))
    ensures ClaudeServers(Merge(a, b)) ==
            if Nested(a) && !Nested(b) then ClaudeServers(a)
            else if Nested(b) && !Nested(a) then ClaudeServers(b)
            else ClaudeServers(a) + ClaudeServers(b)
  {
    var x, y := a[CLAUDE].fields, b[CLAUDE].fields;
    assert Merge(a, b)[CLAUDE] == MergeValue(CLAUDE, Some(Object(x)), Object(y));
    MergeObjects(CLAUDE, x, y);
    if MCP_SERVERS in x && MCP_SERVERS in y {
      MergeObjects(MCP_SERVERS, x[MCP_SERVERS].fields, y[MCP_SERVERS].fields);
    }
  }

  /** A Codex configuration is replaced, not merged: a server survives only if the newcomer repeats it. */
  lemma CodexSurvivesIff(b: Bundle, later: Bundle, server: string)
    requires CodexDeclares(b, server)
    ensures CodexDeclares(Merge(b, later), server) <==> (CODEX in later ==> CodexDeclares(later, server))
  {
  }
}
