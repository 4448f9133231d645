/** Normalised manifests validate to themselves. */
module ManifestNormalForm {
  import opened Prelude
  import opened Strings
  import opened Bundles
  import opened SemanticVersions
  import opened SortedTexts
  import opened Manifests
  import Library

  // ---------------------------------------------------------------------------
  // Stripping and lower case
  // ---------------------------------------------------------------------------

  lemma LowerKeepsSpace(ch: char)
    ensures IsSpace(LowerChar(ch)) == IsSpace(ch)
  {
  }

  lemma {:induction false} TrimStartLower(s: string)
    ensures TrimStart(Lower(s)) == Lower(TrimStart(s))
  {
    if s != "" {
      LowerKeepsSpace(s[0]);
      assert Lower(s)[1..] == Lower(s[1..]);
      if IsSpace(s[0]) { TrimStartLower(s[1..]); }
    }
  }

  lemma {:induction false} TrimEndLower(s: string)
    ensures TrimEnd(Lower(s)) == Lower(TrimEnd(s))
  {
    if s != "" {
      var n := |s| - 1;
      LowerKeepsSpace(s[n]);
      assert Lower(s)[..n] == Lower(s[..n]);
      if IsSpace(s[n]) { TrimEndLower(s[..n]); }
    }
  }

  /** A text stripped and put in lower case stays as it is when that is done again. */
  lemma LowerTrimTwice(s: string)
    ensures Lower(Trim(Lower(Trim(s)))) == Lower(Trim(s))
  {
    var t := Trim(s);
    TrimTwice(s);
    TrimStartLower(t);
    TrimEndLower(TrimStart(t));
    assert Lower(Lower(t)) == Lower(t);
  }

  lemma ShownText(c: Checks, t: string)
    ensures Shown(c, Text(t)) == Trim(t)
  {
  }

  lemma ShownTwice(c: Checks, v: Json)
    ensures Shown(c, Text(Shown(c, v))) == Shown(c, v)
  {
    TrimTwice(if Truthy(v) then Str(c, v) else "");
    ShownText(c, Shown(c, v));
  }

  lemma LowerShownTwice(c: Checks, v: Json)
    ensures Lower(Shown(c, Text(Lower(Shown(c, v))))) == Lower(Shown(c, v))
  {
    LowerTrimTwice(if Truthy(v) then Str(c, v) else "");
    ShownText(c, Lower(Shown(c, v)));
  }

  // ---------------------------------------------------------------------------
  // Lists of texts
  // ---------------------------------------------------------------------------

  predicate Neat(x: string, maximum: nat) {
    x != "" && |x| <= maximum && Trim(x) == x
  }

  predicate Tidy(xs: seq<string>, maximum: nat) {
    Distinct(xs) && forall i :: 0 <= i < |xs| ==> Neat(xs[i], maximum)
  }

  lemma {:induction false} CleanIsTidy(c: Checks, values: seq<Json>, maximum: nat, result: seq<string>)
    requires Tidy(result, maximum)
    ensures var r := Clean(c, values, maximum, result);
            r.Some? ==> Tidy(r.value, maximum) && |r.value| == |result| + |values|
    decreases |values|
  {
    if values != [] {
      var text := Shown(c, values[0]);
      TrimTwice(if Truthy(values[0]) then Str(c, values[0]) else "");
      if text != "" && |text| <= maximum && text !in result {
        CleanIsTidy(c, values[1..], maximum, result + [text]);
      }
    }
  }

  lemma {:induction false} CleanStays(c: Checks, xs: seq<string>, maximum: nat, k: nat)
    requires Tidy(xs, maximum) && k <= |xs|
    ensures Clean(c, Texts(xs)[k..], maximum, xs[..k]) == Some(xs)
    decreases |xs| - k
  {
    if k < |xs| {
      ShownText(c, xs[k]);
      assert Texts(xs)[k..][0] == Text(xs[k]) && Texts(xs)[k..][1..] == Texts(xs)[k + 1..];
      assert xs[..k] + [xs[k]] == xs[..k + 1];
      assert Neat(xs[k], maximum);
      CleanStays(c, xs, maximum, k + 1);
    } else {
      assert xs[..k] == xs;
    }
  }

  lemma SortedIsTidy(xs: seq<string>, maximum: nat)
    requires Tidy(xs, maximum)
    ensures Tidy(SortedSet(xs), maximum)
  {
    SortedTwice(xs);
    SortedElements(xs);
    var ys := SortedSet(xs);
    forall i | 0 <= i < |ys| ensures Neat(ys[i], maximum) { assert ys[i] in xs; }
  }

  /** A cleaned list, sorted, cleans to itself. */
  lemma CleanTwice(c: Checks, values: seq<Json>, maximum: nat)
    requires Clean(c, values, maximum, []).Some?
    ensures var xs := Clean(c, values, maximum, []).value;
            Clean(c, Texts(SortedSet(xs)), maximum, []) == Some(SortedSet(xs))
  {
    CleanIsTidy(c, values, maximum, []);
    var ys := SortedSet(Clean(c, values, maximum, []).value);
    SortedIsTidy(Clean(c, values, maximum, []).value, maximum);
    CleanStays(c, ys, maximum, 0);
    assert Texts(ys)[0..] == Texts(ys) && ys[..0] == [];
  }

  lemma ProfilesTwice(c: Checks, v: Json)
    requires Profiles(c, v).Ok?
    ensures var xs := Profiles(c, v).value; xs != [] && Profiles(c, Sorted(xs)) == Ok(SortedSet(xs))
  {
    CleanTwice(c, v.items, 64);
    CleanIsTidy(c, v.items, 64, []);
    SortedElements(Profiles(c, v).value);
    assert Profiles(c, v).value[0] in SortedSet(Profiles(c, v).value);
  }

  lemma ScopesTwice(c: Checks, v: Json)
    requires Scopes(c, v).Ok?
    ensures var xs := Scopes(c, v).value; Scopes(c, Sorted(xs)) == Ok(SortedSet(xs))
  {
    CleanTwice(c, v.items, 129);
    SortedElements(Scopes(c, v).value);
  }

  lemma ProvenanceTwice(c: Checks, v: Json)
    requires Provenance(c, v).Ok?
    ensures Provenance(c, Provenance(c, v).value) == Provenance(c, v)
  {
    forall key | key in v.fields ensures Shown(c, Text(Shown(c, v.fields[key]))) == Shown(c, v.fields[key]) {
      ShownTwice(c, v.fields[key]);
    }
    ShownText(c, "");
  }

  // ---------------------------------------------------------------------------
  // Dependencies
  // ---------------------------------------------------------------------------

  lemma SortedStrs(c: Checks, items: seq<Json>)
    requires forall i :: 0 <= i < |items| ==> IsScope(Str(c, items[i]))
    ensures var ys := SortedSet(Strs(c, items));
            Strs(c, Texts(ys)) == ys && forall i :: 0 <= i < |ys| ==> IsScope(ys[i])
  {
    var ys := SortedSet(Strs(c, items));
    SortedElements(Strs(c, items));
    forall i | 0 <= i < |ys| ensures IsScope(ys[i]) { assert ys[i] in Strs(c, items); }
    assert Strs(c, Texts(ys)) == ys;
  }

  lemma PinFields(id: string, version: string, hash: string, scopes: Json)
    ensures var p := PinObject(id, version, hash, scopes);
            && p.Object? && p.fields.Keys == PIN_FIELDS
            && p.fields["stable_id"] == Text(id) && p.fields["version"] == Text(version)
            && p.fields["content_hash"] == Text(hash) && p.fields["scopes"] == scopes
  {
  }

  /** An entry whose fields are already normal is pinned as it is. */
  lemma PinNormal(c: Checks, p: Json, id: string, version: string, hash: string, ys: seq<string>, own: string,
      result: seq<Json>)
    requires p.Object? && p.fields.Keys == PIN_FIELDS
    requires p.fields["stable_id"] == Text(id) && p.fields["version"] == Text(version)
    requires p.fields["content_hash"] == Text(hash) && p.fields["scopes"] == List(Texts(ys))
    requires Lower(Trim(id)) == id && Trim(version) == version && Lower(Trim(hash)) == hash
    requires IsStableId(id) && IsVersion(version) && id != own && !Pinned(result, id) && IsHash(hash)
    requires Strs(c, Texts(ys)) == ys && SortedSet(ys) == ys && forall i :: 0 <= i < |ys| ==> IsScope(ys[i])
    ensures Pin(c, p, own, result) == Some(PinObject(id, version, hash, List(Texts(ys))))
  {
    ShownText(c, id);
    ShownText(c, version);
    ShownText(c, hash);
    forall i | 0 <= i < |Texts(ys)| ensures IsScope(Str(c, Texts(ys)[i])) { assert Texts(ys)[i] == Text(ys[i]); }
  }

  lemma PinTwice(c: Checks, v: Json, own: string, result: seq<Json>)
    requires Pin(c, v, own, result).Some?
    ensures Pin(c, Pin(c, v, own, result).value, own, result) == Pin(c, v, own, result)
  {
    var id, version, hash := Lower(Shown(c, v.fields["stable_id"])), Shown(c, v.fields["version"]),
      Lower(Shown(c, v.fields["content_hash"]));
    var items := v.fields["scopes"].items;
    var ys := SortedSet(Strs(c, items));
    LowerShownTwice(c, v.fields["stable_id"]);
    ShownTwice(c, v.fields["version"]);
    LowerShownTwice(c, v.fields["content_hash"]);
    ShownText(c, id);
    ShownText(c, version);
    ShownText(c, hash);
    SortedStrs(c, items);
    SortedTwice(Strs(c, items));
    PinFields(id, version, hash, List(Texts(ys)));
    PinNormal(c, PinObject(id, version, hash, List(Texts(ys))), id, version, hash, ys, own, result);
  }

  /** Taking what was taken changes nothing when that is true of every single step. */
  lemma {:induction false} TakeTwice(step: (Json, seq<Json>) -> Option<Json>, values: seq<Json>, result: seq<Json>)
    requires forall v, before :: step(v, before).Some? ==> step(step(v, before).value, before) == step(v, before)
    requires Take(step, values, result).Some?
    ensures var ps := Take(step, values, result).value;
            && |ps| == |result| + |values| && result <= ps
            && Take(step, ps[|result|..], result) == Some(ps)
    decreases |values|
  {
    var ps := Take(step, values, result).value;
    if values == [] {
      assert ps[|result|..] == [];
    } else {
      var p := step(values[0], result).value;
      TakeTwice(step, values[1..], result + [p]);
      assert ps[|result|] == (result + [p])[|result|];
      assert ps[|result|..] == [p] + ps[|result + [p]|..];
    }
  }

  lemma PinsSettle(c: Checks, own: string)
    ensures var step := Pins(c, own);
            forall v, before :: step(v, before).Some? ==> step(step(v, before).value, before) == step(v, before)
  {
    var step := Pins(c, own);
    forall v, before | step(v, before).Some? ensures step(step(v, before).value, before) == step(v, before) {
      PinTwice(c, v, own, before);
    }
  }

  lemma DependenciesTwice(c: Checks, v: Json, own: string)
    requires Dependencies(c, v, own).Ok?
    ensures Dependencies(c, List(Dependencies(c, v, own).value), own) == Dependencies(c, v, own)
  {
    PinsSettle(c, own);
    TakeTwice(Pins(c, own), v.items, []);
    var ps := Take(Pins(c, own), v.items, []).value;
    assert ps[0..] == ps;
  }

  // ---------------------------------------------------------------------------
  // The probe
  // ---------------------------------------------------------------------------

  lemma RequiredTrimmed(c: Checks, fields: Fields, key: string)
    ensures Required(c, fields, key).Some? ==> forall x :: x in Required(c, fields, key).value ==> Trim(x) == x
  {
    var v := Lookup(fields, key);
    if v.Some? && v.value.List? {
      forall i | 0 <= i < |v.value.items| ensures Trim(Shown(c, v.value.items[i])) == Shown(c, v.value.items[i]) {
        TrimTwice(if Truthy(v.value.items[i]) then Str(c, v.value.items[i]) else "");
      }
    } else if v.Some? && v.value.Text? {
      forall i | 0 <= i < |v.value.text| ensures Trim(Trim([v.value.text[i]])) == Trim([v.value.text[i]]) {
        TrimTwice([v.value.text[i]]);
      }
    }
  }

  lemma RequiredStays(c: Checks, fields: Fields, key: string, xs: seq<string>)
    requires Lookup(fields, key) == Some(Sorted(xs)) && forall x :: x in xs ==> Trim(x) == x
    ensures Required(c, fields, key) == Some(SortedSet(xs))
  {
    var ys := SortedSet(xs);
    SortedElements(xs);
    var items := Texts(ys);
    forall i | 0 <= i < |items| ensures Shown(c, items[i]) == ys[i] {
      assert ys[i] in xs;
      ShownText(c, ys[i]);
    }
    assert seq(|items|, i requires 0 <= i < |items| => Shown(c, items[i])) == ys;
  }

  lemma FitsSorted(files: seq<string>, keys: seq<string>, servers: seq<string>)
    requires ProbeFits(files, keys, servers)
    ensures ProbeFits(SortedSet(files), SortedSet(keys), SortedSet(servers))
  {
    SortedElements(files);
    SortedElements(keys);
    SortedElements(servers);
    if files != [] { assert files[0] in SortedSet(files); }
    if keys != [] { assert keys[0] in SortedSet(keys); }
    if servers != [] { assert servers[0] in SortedSet(servers); }
  }

  lemma ProbeFields(files: Json, keys: Json, servers: Json)
    ensures var p := ProbeObject(files, keys, servers);
            && p.Object? && p.fields.Keys == PROBE_FIELDS &&
              Lookup(p.fields, "type") == Some(Text("bootstrap_contract"))
            && Lookup(p.fields, "required_files") == Some(files) &&
              Lookup(p.fields, "required_bundle_keys") == Some(keys)
            && Lookup(p.fields, "required_mcp_servers") == Some(servers)
  {
  }

  lemma ProbeNormal(c: Checks, p: Json, files: seq<string>, keys: seq<string>, servers: seq<string>)
    requires p.Object? && p.fields.Keys == PROBE_FIELDS && Lookup(p.fields, "type") == Some(Text("bootstrap_contract"))
    requires Required(c, p.fields, "required_files") == Some(SortedSet(files))
    requires Required(c, p.fields, "required_bundle_keys") == Some(SortedSet(keys))
    requires Required(c, p.fields, "required_mcp_servers") == Some(SortedSet(servers))
    requires ProbeFits(files, keys, servers)
    ensures ProbeOf(c, p) == Ok(ProbeObject(Sorted(files), Sorted(keys), Sorted(servers)))
  {
    FitsSorted(files, keys, servers);
    SortedTwice(files);
    SortedTwice(keys);
    SortedTwice(servers);
  }

  lemma ProbeAgain(c: Checks, files: seq<string>, keys: seq<string>, servers: seq<string>)
    requires ProbeFits(files, keys, servers)
    requires forall x :: x in files || x in keys || x in servers ==> Trim(x) == x
    ensures var p := ProbeObject(Sorted(files), Sorted(keys), Sorted(servers)); ProbeOf(c, p) == Ok(p)
  {
    var p := ProbeObject(Sorted(files), Sorted(keys), Sorted(servers));
    ProbeFields(Sorted(files), Sorted(keys), Sorted(servers));
    RequiredStays(c, p.fields, "required_files", files);
    RequiredStays(c, p.fields, "required_bundle_keys", keys);
    RequiredStays(c, p.fields, "required_mcp_servers", servers);
    ProbeNormal(c, p, files, keys, servers);
  }

  lemma ProbeTwice(c: Checks, v: Json)
    ensures ProbeOf(c, v).Ok? ==> ProbeOf(c, ProbeOf(c, v).value) == ProbeOf(c, v)
  {
    if ProbeOf(c, v).Err? { return; }
    RequiredTrimmed(c, v.fields, "required_files");
    RequiredTrimmed(c, v.fields, "required_bundle_keys");
    RequiredTrimmed(c, v.fields, "required_mcp_servers");
    ProbeAgain(c, Required(c, v.fields, "required_files").value, Required(c, v.fields, "required_bundle_keys").value,
               Required(c, v.fields, "required_mcp_servers").value);
  }

  // ---------------------------------------------------------------------------
  // The whole manifest
  // ---------------------------------------------------------------------------

  /** The required fields of a normalised manifest. */
  function Settled(r: Raw, p: Parts): Raw {
    Raw(Number(1.0), Text(p.id), Text(p.version), Text(p.hash), p.provenance, List(Texts(p.profiles)),
      List(Texts(p.scopes)),
        r.configuration, List(p.dependencies), p.probe, r.lifecycle, r.activation)
  }

  /** Each reader accepts what it, sorted where that is done later, has returned. */
  ghost predicate Settle(read: Readers) {
    && (forall v :: read.stableId(v).Ok? ==> read.stableId(Text(read.stableId(v).value)) == read.stableId(v))
    && (forall v :: read.version(v).Ok? ==> read.version(Text(read.version(v).value)) == read.version(v))
    && (forall v :: read.hash(Text(read.hash(v))) == read.hash(v))
    && (forall v :: read.profiles(v).Ok? ==>
      read.profiles(Sorted(read.profiles(v).value)) == Ok(SortedSet(read.profiles(v).value)))
    && (forall v :: read.scopes(v).Ok? ==>
      read.scopes(Sorted(read.scopes(v).value)) == Ok(SortedSet(read.scopes(v).value)))
    && (forall v :: read.provenance(v).Ok? ==> read.provenance(read.provenance(v).value) == read.provenance(v))
    && (forall v, own :: read.dependencies(v, own).Ok? ==>
          read.dependencies(List(read.dependencies(v, own).value), own) == read.dependencies(v, own))
    && (forall v :: read.probe(v).Ok? ==> read.probe(read.probe(v).value) == read.probe(v))
    && (forall v, profiles :: read.activates(v, profiles) ==> read.activates(v, SortedSet(profiles)))
  }

  lemma ReadersSettle(c: Checks)
    ensures Settle(ReadersOf(c))
  {
    var read := ReadersOf(c);
    forall v ensures read.hash(Text(read.hash(v))) == read.hash(v)
      && (read.stableId(v).Ok? ==> read.stableId(Text(read.stableId(v).value)) == read.stableId(v))
    {
      LowerShownTwice(c, v);
    }
    forall v | read.version(v).Ok? ensures read.version(Text(read.version(v).value)) == read.version(v) {
      ShownTwice(c, v);
    }
    forall v | read.profiles(v).Ok? ensures read.profiles(Sorted(read.profiles(v).value)) ==
      Ok(SortedSet(read.profiles(v).value)) {
      ProfilesTwice(c, v);
    }
    forall v | read.scopes(v).Ok? ensures read.scopes(Sorted(read.scopes(v).value)) ==
      Ok(SortedSet(read.scopes(v).value)) {
      ScopesTwice(c, v);
    }
    forall v | read.provenance(v).Ok? ensures read.provenance(read.provenance(v).value) == read.provenance(v) {
      ProvenanceTwice(c, v);
    }
    forall v, own | read.dependencies(v, own).Ok?
      ensures read.dependencies(List(read.dependencies(v, own).value), own) == read.dependencies(v, own)
    {
      DependenciesTwice(c, v, own);
    }
    forall v | read.probe(v).Ok? ensures read.probe(read.probe(v).value) == read.probe(v) {
      ProbeTwice(c, v);
    }
    forall v, profiles | read.activates(v, profiles) ensures read.activates(v, SortedSet(profiles)) {
      SortedElements(profiles);
    }
  }

  lemma ReadTwice(c: Checks, read: Readers, r: Raw)
    requires Settle(read) && Read(c, read, r).Ok?
    ensures Read(c, read, Settled(r, Read(c, read, r).value)) == Read(c, read, r)
  {
    var profiles, scopes := read.profiles(r.profiles).value, read.scopes(r.scopes).value;
    SortedTwice(profiles);
    SortedTwice(scopes);
  }

  lemma UpdateTwice(m: Fields, u: Fields)
    ensures (m + u) + u == m + u
  {
  }

  lemma RawSettled(m: Fields, p: Parts)
    requires REQUIRED <= m.Keys
    ensures (m + Update(p)).Keys == m.Keys
    ensures RawOf(m + Update(p)) == Settled(RawOf(m), p)
  {
  }

  lemma ReadAgain(c: Checks, read: Readers, m: Fields, p: Parts)
    requires Settle(read) && REQUIRED <= m.Keys && Read(c, read, RawOf(m)) == Ok(p)
    ensures (m + Update(p)).Keys == m.Keys && Read(c, read, RawOf(m + Update(p))) == Ok(p)
  {
    RawSettled(m, p);
    ReadTwice(c, read, RawOf(m));
  }

  /** What validation amounts to when the update it would make is already made. */
  lemma Revalidated(c: Checks, read: Readers, n: Fields, p: Parts)
    requires n + Update(p) == n && !c.leaks(Object(n)) && c.size(Object(n)) <= MAX_MANIFEST
    ensures REQUIRED <= n.Keys <= REQUIRED + OPTIONAL && Read(c, read, RawOf(n)) == Ok(p) ==>
      ValidateWith(c, read, n) == Ok(n)
  {
  }

  lemma Validated(c: Checks, read: Readers, m: Fields) returns (p: Parts)
    requires ValidateWith(c, read, m).Ok?
    ensures REQUIRED <= m.Keys <= REQUIRED + OPTIONAL && Read(c, read, RawOf(m)) == Ok(p)
    ensures var n := m + Update(p);
            ValidateWith(c, read, m) == Ok(n) && !c.leaks(Object(n)) && c.size(Object(n)) <= MAX_MANIFEST
  {
    p := Read(c, read, RawOf(m)).value;
  }

  lemma ValidateTwiceWith(c: Checks, read: Readers, m: Fields)
    requires Settle(read)
    ensures ValidateWith(c, read, m).Ok? ==>
      ValidateWith(c, read, ValidateWith(c, read, m).value) == ValidateWith(c, read, m)
  {
    if ValidateWith(c, read, m).Err? { return; }
    var p := Validated(c, read, m);
    ReadAgain(c, read, m, p);
    UpdateTwice(m, Update(p));
    Revalidated(c, read, m + Update(p), p);
  }

  /** Validating a normalised manifest gives the same manifest, whatever the outside checks are. */
  lemma ValidateTwice(c: Checks, m: Fields)
    ensures Validate(c, m).Ok? ==> Validate(c, Validate(c, m).value) == Validate(c, m)
  {
    ReadersSettle(c);
    ValidateTwiceWith(c, ReadersOf(c), m);
  }

  // ---------------------------------------------------------------------------
  // The registry's view of a manifest
  // ---------------------------------------------------------------------------

  function TextAt(v: Json, key: string): string {
    if v.Object? && key in v.fields && v.fields[key].Text? then v.fields[key].text else ""
  }

  function TextsAt(v: Json, key: string): set<string> {
    if v.Object? && key in v.fields && v.fields[key].List? then
      set i | 0 <= i < |v.fields[key].items| && v.fields[key].items[i].Text? :: v.fields[key].items[i].text
    else {}
  }

  function IdentityAt(v: Json): Library.Identity {
    Library.Identity(TextAt(v, "stable_id"), TextAt(v, "version"), TextAt(v, "content_hash"))
  }

  function BundlesFor(activation: Fields, profiles: seq<string>): map<string, Bundle> {
    map p | p in profiles && BundleFor(activation, p).Some? :: BundleFor(activation, p).value
  }

  /** The registry's row for what validation read. */
  function RowOf(p: Parts, activation: Fields, document: Fields): Library.Manifest {
    Library.Manifest(
      Library.Identity(p.id, p.version, p.hash),
      set x | x in p.profiles,
      set x | x in p.scopes,
      seq(|p.dependencies|, i requires 0 <= i < |p.dependencies| =>
        Library.Dependency(IdentityAt(p.dependencies[i]), TextsAt(p.dependencies[i], "scopes"))),
      Probe(TextsAt(p.probe, "required_files"), TextsAt(p.probe, "required_bundle_keys"),
            TextsAt(p.probe, "required_mcp_servers")),
      BundlesFor(activation, p.profiles),
      document)
  }

  /** Where an entry of a normalised list comes from. */
  lemma {:induction false} TakeEach(step: (Json, seq<Json>) -> Option<Json>, values: seq<Json>, result: seq<Json>,
      k: nat) returns (v: Json)
    requires Take(step, values, result).Some? && |result| <= k < |Take(step, values, result).value|
    ensures var ps := Take(step, values, result).value; result <= ps && step(v, ps[..k]) == Some(ps[k])
    decreases |values|
  {
    var ps := Take(step, values, result).value;
    var p := step(values[0], result).value;
    TakeGrows(step, values, result);
    TakeGrows(step, values[1..], result + [p]);
    if k == |result| {
      v := values[0];
      assert ps[..k] == result && ps[k] == (result + [p])[k];
    } else {
      v := TakeEach(step, values[1..], result + [p], k);
    }
  }

  lemma {:induction false} TakeGrows(step: (Json, seq<Json>) -> Option<Json>, values: seq<Json>, result: seq<Json>)
    requires Take(step, values, result).Some?
    ensures result <= Take(step, values, result).value
    decreases |values|
  {
    if values != [] { TakeGrows(step, values[1..], result + [step(values[0], result).value]); }
  }

  lemma PinnedId(c: Checks, v: Json, own: string, result: seq<Json>)
    requires Pin(c, v, own, result).Some?
    ensures var p := Pin(c, v, own, result).value;
            TextAt(p, "stable_id") != own && !Pinned(result, TextAt(p, "stable_id")) &&
              IsStableId(TextAt(p, "stable_id"))
  {
  }

  /** Normalised dependencies name other packages, each at most once. */
  lemma DependenciesDistinct(c: Checks, v: Json, own: string)
    requires Dependencies(c, v, own).Ok?
    ensures var ps := Dependencies(c, v, own).value;
            && (forall i :: 0 <= i < |ps| ==> TextAt(ps[i], "stable_id") != own)
            && (forall i, j :: 0 <= i < j < |ps| ==> TextAt(ps[i], "stable_id") != TextAt(ps[j], "stable_id"))
  {
    var ps := Dependencies(c, v, own).value;
    forall j | 0 <= j < |ps|
      ensures TextAt(ps[j], "stable_id") != own
      ensures forall i :: 0 <= i < j ==> TextAt(ps[i], "stable_id") != TextAt(ps[j], "stable_id")
    {
      var v' := TakeEach(Pins(c, own), v.items, [], j);
      PinnedId(c, v', own, ps[..j]);
      forall i | 0 <= i < j ensures TextAt(ps[i], "stable_id") != TextAt(ps[j], "stable_id") {
        var v' := TakeEach(Pins(c, own), v.items, [], i);
        PinnedId(c, v', own, ps[..i]);
        assert ps[..j][i] == ps[i];
      }
    }
  }

  lemma BundlesFound(c: Checks, activation: Json, profiles: seq<string>, sorted: seq<string>)
    requires Activates(c, activation, profiles) && forall x :: x in sorted <==> x in profiles
    ensures forall p :: p in sorted ==> p in BundlesFor(activation.fields, sorted)
  {
  }

  lemma ReadParts(c: Checks, read: Readers, r: Raw)
    requires Read(c, read, r).Ok?
    ensures var p := Read(c, read, r).value;
            && read.version(r.version) == Ok(p.version)
            && read.profiles(r.profiles).Ok? && p.profiles == SortedSet(read.profiles(r.profiles).value)
            && read.activates(r.activation, read.profiles(r.profiles).value)
            && read.dependencies(r.dependencies, p.id) == Ok(p.dependencies)
  {
  }

  lemma PartsAcceptable(p: Parts, activation: Fields, document: Fields)
    requires IsVersion(p.version) && p.profiles != []
    requires forall i :: 0 <= i < |p.dependencies| ==> TextAt(p.dependencies[i], "stable_id") != p.id
    requires forall x :: x in p.profiles ==> x in BundlesFor(activation, p.profiles)
    ensures Library.Acceptable(RowOf(p, activation, document))
  {
    var row := RowOf(p, activation, document);
    assert p.profiles[0] in row.profiles;
    forall d | 0 <= d < |row.dependencies| ensures row.dependencies[d].id.stableId != row.id.stableId {
      assert row.dependencies[d].id == IdentityAt(p.dependencies[d]);
    }
  }

  /** What the registry relies on holds of everything validation reads from an accepted manifest. */
  lemma ReadIsAcceptable(c: Checks, r: Raw, document: Fields)
    requires Read(c, ReadersOf(c), r).Ok?
    ensures r.activation.Object?
    ensures Library.Acceptable(RowOf(Read(c, ReadersOf(c), r).value, r.activation.fields, document))
  {
    var p := Read(c, ReadersOf(c), r).value;
    ReadParts(c, ReadersOf(c), r);
    var profiles := Profiles(c, r.profiles).value;
    ProfilesTwice(c, r.profiles);
    SortedElements(profiles);
    assert profiles[0] in p.profiles;
    DependenciesDistinct(c, r.dependencies, p.id);
    BundlesFound(c, r.activation, profiles, p.profiles);
    PartsAcceptable(p, r.activation.fields, document);
  }

  /** So a manifest that validates becomes a row the registry can rely on. */
  lemma ValidIsAcceptable(c: Checks, m: Fields) returns (p: Parts, activation: Fields)
    requires Validate(c, m).Ok?
    ensures Validate(c, m) == Ok(m + Update(p)) && "activation" in m && m["activation"] == Object(activation)
    ensures Library.Acceptable(RowOf(p, activation, m + Update(p)))
  {
    p := Validated(c, ReadersOf(c), m);
    ReadIsAcceptable(c, RawOf(m), m + Update(p));
    activation := RawOf(m).activation.fields;
  }

  /** An accepted bundle holds a list under `files`, exactly unless it holds a falsy value of another kind there. */
  lemma FilesListedIff(c: Checks, b: Bundle, profile: string)
    requires BundleFits(c, b, profile)
    ensures FilesAreListed(b) <==> (FILES in b ==> Truthy(b[FILES]) || b[FILES] == List([]))
  {
  }

  /** Such a value is accepted, an empty object even passes the probe, and every file required so far is lost. */
  lemma EmptyFilesLoseRequired(c: Checks, profile: string, before: Bundle, probe: Probe)
    requires profile in PROFILES && c.servers(map[FILES := Object(map[])], profile)
    requires ProbePasses(probe, profile, before) && probe.files != {}
    ensures var empty := map[FILES := Object(map[])];
            && BundleFits(c, empty, profile)
            && FilesReadable(Merge(before, empty)) && !(probe.files <= FilePaths(Merge(before, empty)))
  {
    var empty: Bundle := map[FILES := Object(map[])];
    RequirementsSurviveIff(probe, profile, before, empty);
    assert empty[FILES].Object?;
  }
}
