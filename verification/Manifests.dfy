/** Validating and normalising library manifests. */
module Manifests {
  import opened Prelude
  import opened Strings
  import opened Bundles
  import opened SemanticVersions
  import opened SortedTexts
  import Library

  type Fields = map<string, Json>

  /**
   * What validation asks of code outside this model: `str()` of values that are not text, URI and configuration
   * schema checks, a file entry and its casefolded path, a bundle's server configurations and credential shapes,
   * the content hash, credential patterns, and the encoded size.
   */
  datatype Checks = Checks(
    show: Json -> string,
    uri: string -> bool,
    schema: Json -> bool,
    file: Json -> bool,
    path: Json -> string,
    servers: (Bundle, string) -> bool,
    hash: Json -> string,
    leaks: Json -> bool,
    size: Json -> nat)

  datatype Refusal =
    | MissingFields | UnsupportedFields | BadSchemaVersion | BadStableId | BadVersion | BadProfiles | BadScopes
    | BadProvenance | BadConfiguration | BadActivation | BadHash | BadDependencies | BadLifecycle | BadProbe
    | Credentials | TooLarge

  const REQUIRED := {"schema_version", "stable_id", "version", "content_hash", "provenance", "supported_profiles",
    "requested_scopes", "configuration_schema", "dependencies", "health_probe", "lifecycle", "activation"}
  const OPTIONAL := {"description", "homepage", "kind", "label", "license", "name"}
  const PROFILES := {"codex-cli", "claude-code"}
  const BUNDLE_KEYS := {CLAUDE, CODEX, FILES}
  const LIFECYCLE := Object(map["upgrade" := Text("replace_same_stable_id"), "remove" := Text("restore_prior_bundle")])
  const MAX_MANIFEST := 5 * 1024 * 1024

  // ---------------------------------------------------------------------------
  // Texts
  // ---------------------------------------------------------------------------

  predicate Truthy(v: Json) {
    match v
    case Null => false
    case Bool(flag) => flag
    case Number(n) => n != 0.0
    case Text(t) => t != ""
    case List(items) => items != []
    case Object(fields) => fields != map[]
  }

  function Str(c: Checks, v: Json): string {
    if v.Text? then v.text else c.show(v)
  }

  /** `str(value or "").strip()`. */
  function Shown(c: Checks, v: Json): string {
    Trim(if Truthy(v) then Str(c, v) else "")
  }

  function LowerChar(ch: char): char {
    if 'A' <= ch <= 'Z' then (ch as int + 32) as char else ch
  }

  /** `str.lower()`, for letters the expressions below can accept. */
  function Lower(s: string): string {
    seq(|s|, i requires 0 <= i < |s| => LowerChar(s[i]))
  }

  predicate IsLowerOrDigit(ch: char) {
    'a' <= ch <= 'z' || '0' <= ch <= '9'
  }

  predicate IsMark(ch: char) {
    ch == '.' || ch == '_' || ch == '-'
  }

  predicate IsStableId(s: string) {
    3 <= |s| <= 200 && IsLowerOrDigit(s[0]) && forall i :: 0 <= i < |s| ==> IsLowerOrDigit(s[i]) || IsMark(s[i])
  }

  predicate IsLabel(s: string) {
    1 <= |s| <= 64 && 'a' <= s[0] <= 'z' && forall i :: 0 <= i < |s| ==> IsLowerOrDigit(s[i]) || IsMark(s[i])
  }

  predicate IsScope(s: string) {
    var parts := SplitOn(s, ':');
    |parts| == 2 && IsLabel(parts[0]) && IsLabel(parts[1])
  }

  predicate IsServer(s: string) {
    1 <= |s| <= 120 &&
    forall i :: 0 <= i < |s| ==> IsLowerOrDigit(s[i]) || 'A' <= s[i] <= 'Z' || IsMark(s[i]) || s[i] == ':'
  }

  predicate IsHash(s: string) {
    |s| == 71 && "sha256:" <= s && forall i :: 7 <= i < 71 ==> '0' <= s[i] <= '9' || 'a' <= s[i] <= 'f'
  }

  function Texts(xs: seq<string>): seq<Json> {
    seq(|xs|, i requires 0 <= i < |xs| => Text(xs[i]))
  }

  function Sorted(xs: seq<string>): Json {
    List(Texts(SortedSet(xs)))
  }

  // ---------------------------------------------------------------------------
  // Parts of a manifest
  // ---------------------------------------------------------------------------

  /** Trimmed texts, none blank, too long or repeated: `_clean_strings`, and the scope list's own loop. */
  function Clean(c: Checks, values: seq<Json>, maximum: nat, result: seq<string>): Option<seq<string>>
    decreases |values|
  {
    if values == [] then Some(result)
    else
      var text := Shown(c, values[0]);
      if text == "" || |text| > maximum || text in result then None else Clean(c, values[1..], maximum, result + [text])
  }

  function StableId(c: Checks, v: Json): Result<string, Refusal> {
    var id := Lower(Shown(c, v));
    if IsStableId(id) then Ok(id) else Err(BadStableId)
  }

  function Version(c: Checks, v: Json): Result<string, Refusal> {
    var version := Shown(c, v);
    if IsVersion(version) then Ok(version) else Err(BadVersion)
  }

  method CleanStrings(c: Checks, values: seq<Json>, maximum: nat) returns (r: Option<seq<string>>)
    ensures r == Clean(c, values, maximum, [])
  {
    var result: seq<string> := [];
    assert values[0..] == values;
    for i := 0 to |values|
      invariant Clean(c, values, maximum, []) == Clean(c, values[i..], maximum, result)
    {
      assert values[i..][1..] == values[i + 1..] && values[i..][0] == values[i];
      var text := Shown(c, values[i]);
      if text == "" || |text| > maximum || text in result { return None; }
      result := result + [text];
    }
    return Some(result);
  }

  function Profiles(c: Checks, v: Json): Result<seq<string>, Refusal> {
    if !v.List? || v.items == [] then Err(BadProfiles)
    else
      var xs := Clean(c, v.items, 64, []);
      if xs.None? || !(forall x :: x in xs.value ==> x in PROFILES) then Err(BadProfiles) else Ok(xs.value)
  }

  function Scopes(c: Checks, v: Json): Result<seq<string>, Refusal> {
    if !v.List? then Err(BadScopes)
    else
      var xs := Clean(c, v.items, 129, []);
      if xs.None? || !(forall x :: x in xs.value ==> IsScope(x)) then Err(BadScopes) else Ok(xs.value)
  }

  function Get(c: Checks, fields: Fields, key: string): string {
    if key in fields then Shown(c, fields[key]) else ""
  }

  function Provenance(c: Checks, v: Json): Result<Json, Refusal> {
    if !v.Object? then Err(BadProvenance)
    else
      var source, publisher, revision := Get(c, v.fields, "source"), Get(c, v.fields, "publisher"),
        Get(c, v.fields, "revision");
      if !c.uri(source) || publisher == "" || |publisher| > 160 || revision == "" ||
        |revision| > 200 then Err(BadProvenance)
      else Ok(ProvenanceObject(source, publisher, revision))
  }

  function ProvenanceObject(source: string, publisher: string, revision: string): Json {
    Object(map["source" := Text(source), "publisher" := Text(publisher), "revision" := Text(revision)])
  }

  /** `_activation_bundle_for_profile`: one common bundle or one per profile, not both. */
  function BundleFor(activation: Fields, profile: string): Option<Bundle> {
    var common, profiles := Lookup(activation, "bundle"), Lookup(activation, "profiles");
    var one := common.Some? && common.value != Null;
    var each := profiles.Some? && profiles.value != Null;
    if one && each then None
    else if each && (!profiles.value.Object? || !(profiles.value.fields.Keys <= PROFILES)) then None
    else
      var b := if each then Lookup(profiles.value.fields, profile) else common;
      if b.Some? && b.value.Object? && b.value.fields != map[] then Some(b.value.fields) else None
  }

  function BundleKeys(profile: string): set<string> {
    if profile == "codex-cli" then {CODEX, FILES} else {CLAUDE, FILES}
  }

  /** The file list: bounded, each entry acceptable, no path twice; a falsy value in its place is not looked at. */
  predicate FilesFit(c: Checks, files: Option<Json>) {
    files.Some? && Truthy(files.value) ==>
      && files.value.List? && |files.value.items| <= 128
      && (forall i :: 0 <= i < |files.value.items| ==> c.file(files.value.items[i]))
      && forall i, j :: 0 <= i < j < |files.value.items| ==>
        c.path(files.value.items[i]) != c.path(files.value.items[j])
  }

  /** `_validate_bundle`. */
  predicate BundleFits(c: Checks, b: Bundle, profile: string) {
    b.Keys <= BundleKeys(profile) && FilesFit(c, Lookup(b, FILES)) && c.servers(b, profile)
  }

  /** The activation is of the one supported kind and holds an acceptable bundle for every profile. */
  predicate Activates(c: Checks, v: Json, profiles: seq<string>) {
    && v.Object? && Lookup(v.fields, "type") == Some(Text("bootstrap_bundle"))
    && v.fields.Keys <= {"type", "bundle", "profiles"}
    && forall p :: p in profiles ==> BundleFor(v.fields, p).Some? && BundleFits(c, BundleFor(v.fields, p).value, p)
  }

  const PIN_FIELDS := {"stable_id", "version", "content_hash", "scopes"}

  /** One dependency, normalised. */
  function Pin(c: Checks, v: Json, own: string, result: seq<Json>): Option<Json> {
    if !v.Object? || v.fields.Keys != PIN_FIELDS then None
    else
      var id, version := Lower(Shown(c, v.fields["stable_id"])), Shown(c, v.fields["version"]);
      var hash, scopes := Lower(Shown(c, v.fields["content_hash"])), v.fields["scopes"];
      if !IsStableId(id) || !IsVersion(version) || id == own || Pinned(result, id) || !IsHash(hash) then None
      else if !scopes.List? || !(forall i :: 0 <= i < |scopes.items| ==> IsScope(Str(c, scopes.items[i]))) then None
      else Some(PinObject(id, version, hash, Sorted(Strs(c, scopes.items))))
  }

  function PinObject(id: string, version: string, hash: string, scopes: Json): Json {
    Object(map["stable_id" := Text(id), "version" := Text(version), "content_hash" := Text(hash), "scopes" := scopes])
  }

  function Strs(c: Checks, items: seq<Json>): seq<string> {
    seq(|items|, i requires 0 <= i < |items| => Str(c, items[i]))
  }

  predicate Pinned(result: seq<Json>, id: string) {
    exists i :: 0 <= i < |result| && result[i].Object? && Lookup(result[i].fields, "stable_id") == Some(Text(id))
  }

  /** The entries taken one by one, each seeing those taken before it. */
  function Take(step: (Json, seq<Json>) -> Option<Json>, values: seq<Json>, result: seq<Json>): Option<seq<Json>>
    decreases |values|
  {
    if values == [] then Some(result)
    else
      var p := step(values[0], result);
      if p.None? then None else Take(step, values[1..], result + [p.value])
  }

  method NormaliseDependencies(c: Checks, dependencies: seq<Json>, own: string) returns (r: Option<seq<Json>>)
    ensures r == Take(Pins(c, own), dependencies, [])
  {
    var result: seq<Json> := [];
    var step := Pins(c, own);
    assert dependencies[0..] == dependencies;
    for i := 0 to |dependencies|
      invariant Take(step, dependencies, []) == Take(step, dependencies[i..], result)
    {
      assert dependencies[i..][1..] == dependencies[i + 1..] && dependencies[i..][0] == dependencies[i];
      var p := step(dependencies[i], result);
      if p.None? { return None; }
      result := result + [p.value];
    }
    return Some(result);
  }

  function Pins(c: Checks, own: string): (Json, seq<Json>) -> Option<Json> {
    (v, result) => Pin(c, v, own, result)
  }

  function Dependencies(c: Checks, v: Json, own: string): Result<seq<Json>, Refusal> {
    if !v.List? || |v.items| > 32 then Err(BadDependencies)
    else
      var r := Take(Pins(c, own), v.items, []);
      if r.None? then Err(BadDependencies) else Ok(r.value)
  }

  /** A list of required things; a text is read as its characters. */
  function Required(c: Checks, fields: Fields, key: string): Option<seq<string>> {
    var v := Lookup(fields, key);
    if v.None? then Some([])
    else if v.value.List? then
      Some(seq(|v.value.items|, i requires 0 <= i < |v.value.items| => Shown(c, v.value.items[i])))
    else if v.value.Text? then Some(seq(|v.value.text|, i requires 0 <= i < |v.value.text| => Trim([v.value.text[i]])))
    else None
  }

  const PROBE_FIELDS := {"type", "required_files", "required_bundle_keys", "required_mcp_servers"}

  predicate ProbeFits(files: seq<string>, keys: seq<string>, servers: seq<string>) {
    && (forall x :: x in files ==> x != "" && |x| <= 240)
    && (forall x :: x in keys ==> x in BUNDLE_KEYS)
    && (forall x :: x in servers ==> IsServer(x))
    && (files != [] || keys != [] || servers != [])
  }

  function ProbeOf(c: Checks, v: Json): Result<Json, Refusal> {
    if !v.Object? || Lookup(v.fields, "type") != Some(Text("bootstrap_contract")) ||
      !(v.fields.Keys <= PROBE_FIELDS) then Err(BadProbe)
    else
      ProbeFrom(Required(c, v.fields, "required_files"), Required(c, v.fields, "required_bundle_keys"),
                Required(c, v.fields, "required_mcp_servers"))
  }

  function ProbeFrom(files: Option<seq<string>>, keys: Option<seq<string>>, servers: Option<seq<string>>)
    : Result<Json, Refusal>
  {
    if files.None? || keys.None? || servers.None? || !ProbeFits(files.value, keys.value, servers.value) then
      Err(BadProbe)
    else Ok(ProbeObject(Sorted(files.value), Sorted(keys.value), Sorted(servers.value)))
  }

  function ProbeObject(files: Json, keys: Json, servers: Json): Json {
    Object(map["type" := Text("bootstrap_contract"), "required_files" := files, "required_bundle_keys" := keys,
               "required_mcp_servers" := servers])
  }

  /** `schema_version == 1`, which `1.0` and `true` also satisfy. */
  predicate IsOne(v: Json) {
    v == Number(1.0) || v == Bool(true)
  }

  // ---------------------------------------------------------------------------
  // The whole manifest
  // ---------------------------------------------------------------------------

  /** The required fields of a manifest. */
  datatype Raw = Raw(schemaVersion: Json, stableId: Json, version: Json, contentHash: Json, provenance: Json,
    profiles: Json,
                     scopes: Json, configuration: Json, dependencies: Json, probe: Json, lifecycle: Json,
                       activation: Json)

  function RawOf(m: Fields): Raw
    requires REQUIRED <= m.Keys
  {
    Raw(m["schema_version"], m["stable_id"], m["version"], m["content_hash"], m["provenance"], m["supported_profiles"],
        m["requested_scopes"], m["configuration_schema"], m["dependencies"], m["health_probe"], m["lifecycle"],
          m["activation"])
  }

  /** What validation computes from them. */
  datatype Parts = Parts(id: string, version: string, hash: string, provenance: Json, profiles: seq<string>,
                         scopes: seq<string>, dependencies: seq<Json>, probe: Json)

  /** How each part that is normalised is read. */
  datatype Readers = Readers(
    stableId: Json -> Result<string, Refusal>,
    version: Json -> Result<string, Refusal>,
    hash: Json -> string,
    profiles: Json -> Result<seq<string>, Refusal>,
    scopes: Json -> Result<seq<string>, Refusal>,
    provenance: Json -> Result<Json, Refusal>,
    dependencies: (Json, string) -> Result<seq<Json>, Refusal>,
    probe: Json -> Result<Json, Refusal>,
    activates: (Json, seq<string>) -> bool,
    lifecycle: Json -> bool)

  function ReadersOf(c: Checks): Readers {
    Readers(
      v => StableId(c, v), v => Version(c, v), v => Lower(Shown(c, v)), v => Profiles(c, v), v => Scopes(c, v), v =>
        Provenance(c, v), (v, own) => Dependencies(c, v, own), v => ProbeOf(c, v),
      (v, profiles) => Activates(c, v, profiles), v => v == LIFECYCLE)
  }

  function Read(c: Checks, read: Readers, m: Raw): Result<Parts, Refusal> {
    if !IsOne(m.schemaVersion) then Err(BadSchemaVersion)
    else
      var id :- read.stableId(m.stableId);
      var version :- read.version(m.version);
      var profiles :- read.profiles(m.profiles);
      var scopes :- read.scopes(m.scopes);
      var provenance :- read.provenance(m.provenance);
      if !c.schema(m.configuration) then Err(BadConfiguration)
      else if !read.activates(m.activation, profiles) then Err(BadActivation)
      else if read.hash(m.contentHash) != c.hash(m.activation) then Err(BadHash)
      else
        var dependencies :- read.dependencies(m.dependencies, id);
        if !read.lifecycle(m.lifecycle) then Err(BadLifecycle)
        else
          var probe :- read.probe(m.probe);
          Ok(Parts(id, version, c.hash(m.activation), provenance, SortedSet(profiles), SortedSet(scopes), dependencies,
            probe))
  }

  function Update(p: Parts): Fields {
    map["schema_version" := Number(1.0), "stable_id" := Text(p.id), "version" := Text(p.version),
        "content_hash" := Text(p.hash), "provenance" := p.provenance, "supported_profiles" := List(Texts(p.profiles)),
        "requested_scopes" := List(Texts(p.scopes)), "dependencies" := List(p.dependencies), "health_probe" := p.probe]
  }

  /** `validate_library_manifest`: the normalised manifest, or why it is refused. */
  function Validate(c: Checks, m: Fields): Result<Fields, Refusal> {
    ValidateWith(c, ReadersOf(c), m)
  }

  function ValidateWith(c: Checks, read: Readers, m: Fields): Result<Fields, Refusal> {
    if !(REQUIRED <= m.Keys) then Err(MissingFields)
    else if !(m.Keys <= REQUIRED + OPTIONAL) then Err(UnsupportedFields)
    else
      var p :- Read(c, read, RawOf(m));
      var n := m + Update(p);
      if c.leaks(Object(n)) then Err(Credentials)
      else if c.size(Object(n)) > MAX_MANIFEST then Err(TooLarge)
      else Ok(n)
  }
}
