/** What a merged bundle holds at every path, and what a probe looks for, without the functions that compute them. */
module BundleMeaning {
  import opened Prelude
  import opened Strings
  import opened KeyedLists
  import opened Bundles

  // ---------------------------------------------------------------------------
  // Lists
  // ---------------------------------------------------------------------------

  /** Of the entries with one key, the newcomer's last one counts, else the prior list's. */
  lemma {:induction false} MergeLatest<T>(key: T -> string, prior: seq<T>, incoming: seq<T>, k: string)
    requires k != ""
    ensures var merged := MergeLists(key, prior, incoming);
            var at, old_, new_ := LastWith(key, merged, k), LastWith(key, prior, k), LastWith(key, incoming, k);
            if new_.Some? then at.Some? && merged[at.value] == incoming[new_.value]
            else if old_.Some? then at.Some? && merged[at.value] == prior[old_.value]
            else at.None?
  {
    if incoming != [] {
      var n := |incoming| - 1;
      var before := MergeLists(key, prior, incoming[..n]);
      MergeLatest(key, prior, incoming[..n], k);
      UpsertLatest(key, before, incoming[n], k);
    }
  }

  lemma UpsertLatest<T>(key: T -> string, items: seq<T>, item: T, k: string)
    requires k != ""
    ensures var out := Upsert(key, items, item);
            var at, before := LastWith(key, out, k), LastWith(key, items, k);
            if key(item) == k then at.Some? && out[at.value] == item
            else at == before && (at.Some? ==> out[at.value] == items[before.value])
  {
    var out := Upsert(key, items, item);
    var before := LastWith(key, items, k);
    if key(item) == k {
      LastWithIs(key, out, k, if before.Some? then before.value else |items|);
    } else if before.Some? {
      LastWithIs(key, out, k, before.value);
    }
  }

  /** Prior entries whose key no newcomer has stay where they were; nothing is reordered. */
  lemma {:induction false} MergeLeavesOthers<T>(key: T -> string, prior: seq<T>, incoming: seq<T>, i: nat)
    requires i < |prior| && (key(prior[i]) == "" || key(prior[i]) !in Keys(key, incoming))
    ensures i < |MergeLists(key, prior, incoming)| && MergeLists(key, prior, incoming)[i] == prior[i]
  {
    if incoming != [] {
      var n := |incoming| - 1;
      assert forall j :: 0 <= j < n ==> incoming[..n][j] == incoming[j];
      MergeLeavesOthers(key, prior, incoming[..n], i);
    }
  }

  // ---------------------------------------------------------------------------
  // Values at paths
  // ---------------------------------------------------------------------------

  /** What objects within objects hold under a path of keys. */
  function At(b: Bundle, path: seq<string>): Option<Json>
    requires path != []
    decreases |path|
  {
    if path[0] !in b then None
    else if |path| == 1 then Some(b[path[0]])
    else if b[path[0]].Object? then At(b[path[0]].fields, path[1..])
    else None
  }

  /** Something other than an object stands in the path's way. */
  predicate Blocked(b: Bundle, path: seq<string>)
    requires path != []
    decreases |path|
  {
    path[0] in b && |path| > 1 && (b[path[0]].Object? ==> Blocked(b[path[0]].fields, path[1..]))
  }

  /** The path's last key is looked up in an object. */
  predicate Reached(b: Bundle, path: seq<string>)
    requires path != []
    decreases |path|
  {
    |path| > 1 ==> path[0] in b && b[path[0]].Object? && Reached(b[path[0]].fields, path[1..])
  }

  predicate IsFileList(path: seq<string>, v: Json)
    requires path != []
  {
    path[|path| - 1] == "files" && v.List?
  }

  /** What is at a path once two bundles are merged. */
  ghost predicate MergedAt(a: Bundle, b: Bundle, path: seq<string>, merged: Option<Json>)
    requires path != []
  {
    var earlier, later := At(a, path), At(b, path);
    if later.None? then merged == if Blocked(b, path) then None else earlier
    else if IsFileList(path, later.value) && Reached(a, path) then
      merged == Some(List(MergeLists(PathOf, Items(earlier), later.value.items)))
    else if later.value.Object? && earlier.Some? && earlier.value.Object? then
      && merged.Some? && merged.value.Object?
      && merged.value.fields.Keys == earlier.value.fields.Keys + later.value.fields.Keys
    else merged == later
  }

  lemma MergeAtKey(a: Bundle, b: Bundle, path: seq<string>)
    requires |path| == 1
    ensures MergedAt(a, b, path, At(Merge(a, b), path))
  {
    var k := path[0];
    if k in b && k in a && a[k].Object? && b[k].Object? { MergeObjects(k, a[k].fields, b[k].fields); }
  }

  lemma MergeBelow(a: Bundle, b: Bundle, path: seq<string>)
    requires |path| > 1
    requires path[0] in a && path[0] in b && a[path[0]].Object? && b[path[0]].Object?
    ensures At(Merge(a, b), path) == At(Merge(a[path[0]].fields, b[path[0]].fields), path[1..])
  {
    MergeObjects(path[0], a[path[0]].fields, b[path[0]].fields);
  }

  lemma MergedAtBelow(a: Bundle, b: Bundle, path: seq<string>, merged: Option<Json>)
    requires |path| > 1
    requires path[0] in a && path[0] in b && a[path[0]].Object? && b[path[0]].Object?
    requires MergedAt(a[path[0]].fields, b[path[0]].fields, path[1..], merged)
    ensures MergedAt(a, b, path, merged)
  {
    assert path[1..][|path| - 2] == path[|path| - 1];
  }

  lemma {:induction false} FoundUnblocked(b: Bundle, path: seq<string>)
    requires path != []
    ensures At(b, path).Some? ==> !Blocked(b, path)
    decreases |path|
  {
    if |path| > 1 && path[0] in b && b[path[0]].Object? { FoundUnblocked(b[path[0]].fields, path[1..]); }
  }

  lemma MergeAtOneSide(a: Bundle, b: Bundle, path: seq<string>)
    requires |path| > 1
    requires !(path[0] in a && path[0] in b && a[path[0]].Object? && b[path[0]].Object?)
    ensures MergedAt(a, b, path, At(Merge(a, b), path))
  {
    var k := path[0];
    assert k in b && b[k].Object? ==> Merge(a, b)[k] == b[k];
    if k in b && b[k].Object? { FoundUnblocked(b[k].fields, path[1..]); }
  }

  /**
   * At every path the later bundle wins: over anything that is not an object with it, and over everything below what
   * it replaces; file lists within shared objects are merged by path, and where the later bundle says nothing the
   * earlier one stays.
   */
  lemma {:induction false} MergeAt(a: Bundle, b: Bundle, path: seq<string>)
    requires path != []
    ensures MergedAt(a, b, path, At(Merge(a, b), path))
    decreases |path|
  {
    var k := path[0];
    if |path| == 1 {
      MergeAtKey(a, b, path);
    } else if k in a && k in b && a[k].Object? && b[k].Object? {
      MergeAt(a[k].fields, b[k].fields, path[1..]);
      MergeBelow(a, b, path);
      MergedAtBelow(a, b, path, At(Merge(a, b), path));
    } else {
      MergeAtOneSide(a, b, path);
    }
  }

  // ---------------------------------------------------------------------------
  // Probes
  // ---------------------------------------------------------------------------

  /** An entry of the file list has the path. */
  ghost predicate ListsFile(b: Bundle, path: string) {
    "files" in b && b["files"].List? && exists i :: 0 <= i < |b["files"].items| && HasPath(b["files"].items[i], path)
  }

  predicate HasPath(entry: Json, path: string) {
    entry.Object? && "path" in entry.fields && entry.fields["path"].Text? && Trim(entry.fields["path"].text) == path
  }

  lemma ListsFileIff(b: Bundle, path: string)
    requires path != ""
    ensures ListsFile(b, path) <==> path in FilePaths(b)
  {
    if path in FilePaths(b) {
      var i :| 0 <= i < |b["files"].items| && PathOf(b["files"].items[i]) == path;
      assert HasPath(b["files"].items[i], path);
    }
    if ListsFile(b, path) {
      var i :| 0 <= i < |b["files"].items| && HasPath(b["files"].items[i], path);
      assert PathOf(b["files"].items[i]) == path;
    }
  }

  /** The text is somewhere in the whole, with anything around it. */
  ghost predicate Within(part: string, whole: string) {
    exists before, after :: Around(before, part, after, whole)
  }

  ghost predicate Around(before: string, part: string, after: string, whole: string) {
    whole == before + part + after
  }

  lemma AroundOccurs(before: string, part: string, after: string, whole: string)
    requires Around(before, part, after, whole)
    ensures OccursAt(whole, part, |before|)
  {
    forall k | 0 <= k < |part| ensures whole[|before| + k] == part[k] {
      assert (before + part)[|before| + k] == part[k];
    }
  }

  lemma OccursAround(part: string, whole: string, i: nat)
    requires OccursAt(whole, part, i)
    ensures Around(whole[..i], part, whole[i + |part|..], whole)
  {
    assert whole[i..i + |part|] == part;
    assert whole[..i + |part|] == whole[..i] + whole[i..i + |part|];
  }

  lemma WithinIff(part: string, whole: string)
    ensures Within(part, whole) <==> Contains(whole, part)
  {
    if Within(part, whole) {
      var before, after :| Around(before, part, after, whole);
      AroundOccurs(before, part, after, whole);
    }
    if Contains(whole, part) {
      var i :| 0 <= i <= |whole| && OccursAt(whole, part, i);
      OccursAround(part, whole, i);
    }
  }

  /** The Codex text shows a header of the server, bare or in double quotes. */
  ghost predicate ShowsHeader(b: Bundle, server: string) {
    && "codex_config_append" in b && b["codex_config_append"].Text?
    && (Within("[mcp_servers." + server + "]", b["codex_config_append"].text)
        || Within("[mcp_servers.\"" + server + "\"]", b["codex_config_append"].text))
  }

  /** The Claude configuration has the server under "mcpServers", or at its top where there is no such key. */
  predicate HasEntry(b: Bundle, server: string) {
    && "claude_project_mcp" in b && b["claude_project_mcp"].Object?
    && var raw := b["claude_project_mcp"].fields;
       if "mcpServers" in raw then raw["mcpServers"].Object? && server in raw["mcpServers"].fields else server in raw
  }

  lemma ServerFoundIff(profile: string, b: Bundle, server: string)
    ensures ServerFound(profile, b, server) <==>
            if profile == "claude-code" then HasEntry(b, server) else ShowsHeader(b, server)
  {
    var config := if CODEX in b && b[CODEX].Text? then b[CODEX].text else "";
    WithinIff("[mcp_servers." + server + "]", config);
    WithinIff("[mcp_servers.\"" + server + "\"]", config);
    if config == "" {
      assert |"[mcp_servers." + server + "]"| > 0 && |"[mcp_servers.\"" + server + "\"]"| > 0;
    }
  }

  /** A probe passes exactly when every file, key and server it requires is there, as its profile spells servers. */
  lemma ProbePassesIff(probe: Probe, profile: string, b: Bundle)
    requires "" !in probe.files
    ensures ProbePasses(probe, profile, b) <==>
            && ("files" in b ==> !b["files"].Null? && !b["files"].Bool? && !b["files"].Number?)
            && (forall f :: f in probe.files ==> ListsFile(b, f))
            && (forall k :: k in probe.keys ==> k in b)
            && (forall s :: s in probe.servers ==>
                  if profile == "claude-code" then HasEntry(b, s) else ShowsHeader(b, s))
  {
    forall f | f in probe.files ensures ListsFile(b, f) <==> f in FilePaths(b) { ListsFileIff(b, f); }
    forall s | s in probe.servers
      ensures ServerFound(profile, b, s) <==> if profile == "claude-code" then HasEntry(b, s) else ShowsHeader(b, s)
    {
      ServerFoundIff(profile, b, s);
    }
  }
}
