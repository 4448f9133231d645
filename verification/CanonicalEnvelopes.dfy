/** Which envelopes turn a Feeling capsule on or off, field by field, and where capsules are looked for. */
module CanonicalEnvelopes {
  import opened Prelude
  import opened Strings
  import opened FeelingCapsules
  import opened FeelingProjection
  import opened CanonicalInstructions

  // ---------------------------------------------------------------------------
  // Fields by their values
  // ---------------------------------------------------------------------------

  /** The dictionary holds the value under the key. */
  ghost predicate HasField(d: Value, key: string, v: Value)
    requires IsDict(d)
  {
    exists i :: 0 <= i < |d.keys| && d.keys[i] == key && d.values[i] == v && key !in d.keys[..i]
  }

  lemma {:induction false} IndexOfFirst(keys: seq<string>, key: string, i: nat)
    requires i < |keys| && keys[i] == key && key !in keys[..i]
    ensures IndexOf(keys, key) == Some(i)
  {
    if i > 0 {
      assert keys[0] in keys[..i];
      assert keys[1..][..i - 1] == keys[..i][1..];
      IndexOfFirst(keys[1..], key, i - 1);
    }
  }

  lemma {:induction false} IndexIsFirst(keys: seq<string>, key: string)
    ensures IndexOf(keys, key).Some? <==> key in keys
    ensures IndexOf(keys, key).Some? ==> key !in keys[..IndexOf(keys, key).value]
  {
    if keys != [] && keys[0] != key {
      IndexIsFirst(keys[1..], key);
      assert forall k :: k in keys <==> k == keys[0] || k in keys[1..];
      var r := IndexOf(keys[1..], key);
      if r.Some? { assert keys[..r.value + 1] == [keys[0]] + keys[1..][..r.value]; }
    }
  }

  lemma GetIff(d: Value, key: string, v: Value)
    requires IsDict(d)
    ensures Get(d, key) == Some(v) <==> HasField(d, key, v)
  {
    IndexIsFirst(d.keys, key);
    if i :| 0 <= i < |d.keys| && d.keys[i] == key && d.values[i] == v && key !in d.keys[..i] {
      IndexOfFirst(d.keys, key, i);
    }
  }

  lemma AbsentIff(d: Value, key: string)
    requires IsDict(d)
    ensures Get(d, key).None? <==> key !in d.keys
  {
    IndexIsFirst(d.keys, key);
  }

  // ---------------------------------------------------------------------------
  // Envelopes
  // ---------------------------------------------------------------------------

  predicate IsDigest(s: string) {
    |s| == 64 && forall i :: 0 <= i < 64 ==> s[i] in "0123456789abcdef"
  }

  /** Exactly six fields; version 1; the capsule belongs into `agents_md`. */
  ghost predicate WellFormed(p: Value)
    requires IsDict(p)
  {
    && (forall k :: k in p.keys <==>
          k in {"version", "enabled", "scope", "canonical_instruction_field", "snapshot_sha256",
                "expected_capsule_count"})
    && HasField(p, "version", Number(1))
    && HasField(p, "canonical_instruction_field", Text("agents_md"))
  }

  /** Enabled for all agents, expecting one capsule, the only one there is, by its digest. */
  ghost predicate TurnsOn(p: Value, sha: string -> string, capsules: seq<string>)
    requires IsDict(p)
  {
    && WellFormed(p)
    && HasField(p, "enabled", Flag(true)) && HasField(p, "scope", Text("all_agents"))
    && HasField(p, "expected_capsule_count", Number(1))
    && |capsules| == 1 && IsDigest(sha(capsules[0])) && HasField(p, "snapshot_sha256", Text(sha(capsules[0])))
  }

  ghost predicate HasScope(p: Value)
    requires IsDict(p)
  {
    || HasField(p, "scope", Text("all_agents"))
    || HasField(p, "scope", Text("conscious_agent"))
    || HasField(p, "scope", Text("unknown"))
  }

  ghost predicate HasHash(p: Value)
    requires IsDict(p)
  {
    exists h :: HasField(p, "snapshot_sha256", Text(h)) && (h == "" || h == "none" || IsDigest(h))
  }

  /** Disabled, expecting no capsule; any of the three scopes. */
  ghost predicate TurnsOff(p: Value)
    requires IsDict(p)
  {
    && WellFormed(p)
    && HasField(p, "enabled", Flag(false)) && HasField(p, "expected_capsule_count", Number(0))
    && HasScope(p) && HasHash(p)
  }

  ghost predicate RoomForCapsule(clean: Value)
    requires IsDict(clean)
  {
    "agents_md" !in clean.keys || exists t :: HasField(clean, "agents_md", Text(t))
  }

  lemma ShapeIff(p: Value)
    requires IsDict(p)
    ensures WellFormed(p) <==>
            && (set k | k in p.keys) == FIELDS && Get(p, "version") == Some(Number(1))
            && TextOf(Get(p, "canonical_instruction_field")) == Some(AGENTS)
  {
    GetIff(p, "version", Number(1));
    GetIff(p, "canonical_instruction_field", Text("agents_md"));
    var keys := set k | k in p.keys;
    assert forall k :: k in keys <==> k in p.keys;
    if keys == FIELDS { assert forall k :: k in p.keys <==> k in FIELDS; }
  }

  lemma DigestIff(s: string)
    ensures IsDigest(s) <==> IsHash(s)
  {
    forall i | 0 <= i < |s|
      ensures s[i] in "0123456789abcdef" <==> ('0' <= s[i] <= '9' || 'a' <= s[i] <= 'f')
    {
      HexDigit(s[i]);
    }
  }

  lemma HexDigit(c: char)
    ensures c in "0123456789abcdef" <==> ('0' <= c <= '9' || 'a' <= c <= 'f')
  {
    var hex := "0123456789abcdef";
    if '0' <= c <= '9' { assert hex[c as int - '0' as int] == c; }
    if 'a' <= c <= 'f' { assert hex[10 + c as int - 'a' as int] == c; }
  }

  lemma OnIff(p: Value, sha: string -> string, capsules: seq<string>)
    requires IsDict(p)
    ensures TurnsOn(p, sha, capsules) <==>
            && ReadContract(p).Ok? && ReadContract(p).value.enabled
            && ReadContract(p).value.hash !in {"", "none"} && |capsules| == 1
            && sha(capsules[0]) == ReadContract(p).value.hash
  {
    ShapeIff(p);
    GetIff(p, "enabled", Flag(true));
    GetIff(p, "scope", Text("all_agents"));
    GetIff(p, "expected_capsule_count", Number(1));
    if |capsules| == 1 {
      GetIff(p, "snapshot_sha256", Text(sha(capsules[0])));
      DigestIff(sha(capsules[0]));
    }
  }

  lemma HashIff(p: Value)
    requires IsDict(p)
    ensures HasHash(p) <==>
            var hash := TextOf(Get(p, "snapshot_sha256"));
            hash.Some? && (hash.value in {"", "none"} || IsHash(hash.value))
  {
    var hash := TextOf(Get(p, "snapshot_sha256"));
    if hash.Some? {
      GetIff(p, "snapshot_sha256", Text(hash.value));
      DigestIff(hash.value);
    }
    if h :| HasField(p, "snapshot_sha256", Text(h)) && (h == "" || h == "none" || IsDigest(h)) {
      GetIff(p, "snapshot_sha256", Text(h));
      DigestIff(h);
    }
  }

  lemma ScopeIff(p: Value)
    requires IsDict(p)
    ensures HasScope(p) <==> var scope := TextOf(Get(p, "scope")); scope.Some? && scope.value in SCOPES
  {
    GetIff(p, "scope", Text("all_agents"));
    GetIff(p, "scope", Text("conscious_agent"));
    GetIff(p, "scope", Text("unknown"));
  }

  lemma OffIff(p: Value)
    requires IsDict(p)
    ensures TurnsOff(p) <==> ReadContract(p).Ok? && !ReadContract(p).value.enabled
  {
    ShapeIff(p);
    GetIff(p, "enabled", Flag(false));
    GetIff(p, "expected_capsule_count", Number(0));
    HashIff(p);
    ScopeIff(p);
  }

  lemma RoomIff(clean: Value)
    requires IsDict(clean)
    ensures RoomForCapsule(clean) <==> !(Get(clean, AGENTS).Some? && TextOf(Get(clean, AGENTS)).None?)
  {
    AbsentIff(clean, AGENTS);
    var text := TextOf(Get(clean, AGENTS));
    if text.Some? { GetIff(clean, AGENTS, Text(text.value)); }
    if t :| HasField(clean, "agents_md", Text(t)) { GetIff(clean, AGENTS, Text(t)); }
  }

  /** The text `agents_md` ends up with: what it held, trimmed, a blank line, and the capsule. */
  ghost predicate AgentsHold(clean: Value, result: Value, capsule: string)
    requires IsDict(clean) && IsDict(result)
  {
    if forall t :: HasField(clean, "agents_md", Text(t)) ==> Trim(t) == ""
    then HasField(result, "agents_md", Text(capsule))
    else
      exists t ::
        HasField(clean, "agents_md", Text(t)) && HasField(result, "agents_md", Text(Trim(t) + "\n\n" + capsule))
  }

  lemma SetHas(d: Value, key: string, v: Value)
    requires IsDict(d)
    ensures IsDict(Set(d, key, v)) && HasField(Set(d, key, v), key, v)
    ensures forall other, w :: other != key ==> (HasField(Set(d, key, v), other, w) <==> HasField(d, other, w))
  {
    var r := Set(d, key, v);
    IndexIsFirst(d.keys, key);
    var at := IndexOf(d.keys, key);
    if at.None? {
      assert r.keys[..|d.keys|] == d.keys;
      assert r.keys[|d.keys|] == key;
    }
    assert HasField(r, key, v) by {
      var i := if at.Some? then at.value else |d.keys|;
      assert r.keys[i] == key && r.values[i] == v && key !in r.keys[..i];
    }
    forall other, w | other != key
      ensures HasField(r, other, w) <==> HasField(d, other, w)
    {
      SetKeepsOther(d, key, v, other, w);
    }
  }

  /** The key stands at the position and nowhere before it. */
  predicate FirstAt(keys: seq<string>, key: string, i: nat) {
    i < |keys| && keys[i] == key && key !in keys[..i]
  }

  lemma SetShape(d: Value, key: string, v: Value, i: nat)
    requires IsDict(d) && i < |d.keys| && d.keys[i] != key
    ensures var r := Set(d, key, v);
            i < |r.keys| && r.keys[i] == d.keys[i] && r.values[i] == d.values[i] && r.keys[..i] == d.keys[..i]
  {
  }

  lemma SetKeepsOther(d: Value, key: string, v: Value, other: string, w: Value)
    requires IsDict(d) && other != key
    ensures HasField(Set(d, key, v), other, w) <==> HasField(d, other, w)
  {
    var r := Set(d, key, v);
    if i :| 0 <= i < |d.keys| && d.keys[i] == other && d.values[i] == w && other !in d.keys[..i] {
      SetShape(d, key, v, i);
      assert FirstAt(r.keys, other, i);
    }
    if i :| 0 <= i < |r.keys| && r.keys[i] == other && r.values[i] == w && other !in r.keys[..i] {
      assert i < |d.keys| && d.keys[i] == other;
      SetShape(d, key, v, i);
      assert FirstAt(d.keys, other, i);
    }
  }

  lemma CapsuleAppended(clean: Value, capsule: string)
    requires IsDict(clean) && RoomForCapsule(clean) && capsule != ""
    ensures var result := Set(clean, AGENTS, Text(WithCapsule(AgentsText(clean), capsule)));
            IsDict(result) && AgentsHold(clean, result, capsule)
  {
    var result := Set(clean, AGENTS, Text(WithCapsule(AgentsText(clean), capsule)));
    SetHas(clean, AGENTS, Text(WithCapsule(AgentsText(clean), capsule)));
    RoomIff(clean);
    var text := TextOf(Get(clean, AGENTS));
    if text.Some? { GetIff(clean, AGENTS, Text(text.value)); }
    forall t | HasField(clean, "agents_md", Text(t)) ensures text == Some(t) { GetIff(clean, AGENTS, Text(t)); }
  }

  /**
   * A bundle with an envelope is accepted exactly when the envelope turns the one capsule on and `agents_md` has
   * room for it, or turns it off. On, `agents_md` ends with the capsule and no other field changes; off, the cleaned
   * bundle is the result.
   */
  lemma CanonicalizeByFields(m: Markers, sha: string -> string, bundle: Value, p: Value)
    requires Bracketed(m) && IsDict(bundle) && StripValue(m, bundle).Ok? && IsDict(p)
    requires var clean := StripValue(m, bundle).value.value;
             IsDict(clean) && HasField(clean, "viventium_feelings_projection", p)
    ensures var clean, capsules := StripValue(m, bundle).value.value, StripValue(m, bundle).value.capsules;
            var on := TurnsOn(p, sha, capsules) && RoomForCapsule(clean);
            && (Canonicalize(m, sha, bundle).Ok? <==> on || TurnsOff(p))
            && (TurnsOff(p) ==> Canonicalize(m, sha, bundle) == Ok(clean))
            && (on ==>
                  && Canonicalize(m, sha, bundle).Ok?
                  && var result := Canonicalize(m, sha, bundle).value;
                     && IsDict(result) && AgentsHold(clean, result, capsules[0])
                     && forall k, v :: k != "agents_md" ==> (HasField(result, k, v) <==> HasField(clean, k, v)))
  {
    var clean, capsules := StripValue(m, bundle).value.value, StripValue(m, bundle).value.capsules;
    GetIff(clean, PROJECTION, p);
    OnIff(p, sha, capsules);
    OffIff(p);
    RoomIff(clean);
    if TurnsOn(p, sha, capsules) && RoomForCapsule(clean) {
      CapsulesGenuine(m, bundle);
      CapsuleAppended(clean, capsules[0]);
      SetHas(clean, AGENTS, Text(WithCapsule(AgentsText(clean), capsules[0])));
    }
  }

  // ---------------------------------------------------------------------------
  // Bundles without an envelope
  // ---------------------------------------------------------------------------

  /** The field holds a text that splits into the given clean text and capsules; anything else counts as no text. */
  ghost predicate FieldSplits(m: Markers, d: Value, key: string, clean: string, capsules: seq<string>)
    requires Bracketed(m) && IsDict(d)
  {
    if exists t :: HasField(d, key, Text(t))
    then exists t :: HasField(d, key, Text(t)) && Split(m, t) == Ok(Cleaned(clean, capsules))
    else clean == "" && capsules == []
  }

  predicate EndsWith(t: string, suffix: string) {
    |suffix| <= |t| && t[|t| - |suffix|..] == suffix
  }

  /** The capsule stands once in each of two instruction fields, at the end of the second, and alone in the tail. */
  ghost predicate MirrorOf(m: Markers, d: Value, capsule: string, a: string, b: string, t: string)
    requires Bracketed(m) && IsDict(d)
  {
    && FieldSplits(m, d, "application_developer_instructions", a, [capsule])
    && FieldSplits(m, d, "developer_instructions", b, [capsule])
    && FieldSplits(m, d, "declared_developer_instruction_tail", "", [capsule])
    && HasField(d, "developer_instructions", Text(t)) && EndsWith(Trim(t), capsule)
  }

  /** A conversation holding one capsule three times, and no other. */
  ghost predicate Mirrored(m: Markers, d: Value, capsules: seq<string>)
    requires Bracketed(m) && IsDict(d)
  {
    HasField(d, "run_mode", Text("conversation")) && |capsules| == 3 &&
    exists capsule, a, b, t :: MirrorOf(m, d, capsule, a, b, t)
  }

  lemma FieldSplitsIff(m: Markers, d: Value, key: string, clean: string, capsules: seq<string>)
    requires Bracketed(m) && IsDict(d)
    ensures FieldSplits(m, d, key, clean, capsules) <==> FieldSplit(m, d, key) == Ok(Cleaned(clean, capsules))
  {
    var text := TextOf(Get(d, key));
    if text.Some? { GetIff(d, key, Text(text.value)); }
    forall t | HasField(d, key, Text(t)) ensures text == Some(t) { GetIff(d, key, Text(t)); }
  }

  lemma ExactGives(m: Markers, d: Value, capsules: seq<string>)
    returns (capsule: string, a: string, b: string, t: string)
    requires Bracketed(m) && IsDict(d) && ExactMirror(m, d, capsules)
    ensures TextOf(Get(d, "run_mode")) == Some("conversation") && |capsules| == 3
    ensures FieldSplit(m, d, APPLICATION) == Ok(Cleaned(a, [capsule]))
    ensures FieldSplit(m, d, DEVELOPER) == Ok(Cleaned(b, [capsule]))
    ensures FieldSplit(m, d, TAIL) == Ok(Cleaned("", [capsule]))
    ensures Get(d, DEVELOPER) == Some(Text(t)) && EndsWith(Trim(t), capsule)
  {
    capsule := FieldSplit(m, d, TAIL).value.capsules[0];
    assert FieldSplit(m, d, TAIL).value.capsules == [capsule];
    a, b := FieldSplit(m, d, APPLICATION).value.text, FieldSplit(m, d, DEVELOPER).value.text;
    t := TextOf(Get(d, DEVELOPER)).value;
  }

  lemma ExactFrom(m: Markers, d: Value, capsules: seq<string>, capsule: string, a: string, b: string, t: string)
    requires Bracketed(m) && IsDict(d)
    requires TextOf(Get(d, "run_mode")) == Some("conversation") && |capsules| == 3
    requires FieldSplit(m, d, APPLICATION) == Ok(Cleaned(a, [capsule]))
    requires FieldSplit(m, d, DEVELOPER) == Ok(Cleaned(b, [capsule]))
    requires FieldSplit(m, d, TAIL) == Ok(Cleaned("", [capsule]))
    requires Get(d, DEVELOPER) == Some(Text(t)) && EndsWith(Trim(t), capsule)
    ensures ExactMirror(m, d, capsules)
  {
  }

  lemma MirrorOfIff(m: Markers, d: Value, capsule: string, a: string, b: string, t: string)
    requires Bracketed(m) && IsDict(d)
    ensures MirrorOf(m, d, capsule, a, b, t) <==>
            && FieldSplit(m, d, APPLICATION) == Ok(Cleaned(a, [capsule]))
            && FieldSplit(m, d, DEVELOPER) == Ok(Cleaned(b, [capsule]))
            && FieldSplit(m, d, TAIL) == Ok(Cleaned("", [capsule]))
            && Get(d, DEVELOPER) == Some(Text(t)) && EndsWith(Trim(t), capsule)
  {
    FieldSplitsIff(m, d, APPLICATION, a, [capsule]);
    FieldSplitsIff(m, d, DEVELOPER, b, [capsule]);
    FieldSplitsIff(m, d, TAIL, "", [capsule]);
    GetIff(d, DEVELOPER, Text(t));
  }

  lemma MirrorIff(m: Markers, d: Value, capsules: seq<string>)
    requires Bracketed(m) && IsDict(d)
    ensures Mirrored(m, d, capsules) <==> ExactMirror(m, d, capsules)
  {
    GetIff(d, "run_mode", Text("conversation"));
    if Mirrored(m, d, capsules) { MirroredIsExact(m, d, capsules); }
    if ExactMirror(m, d, capsules) {
      var capsule, a, b, t := ExactGives(m, d, capsules);
      MirrorOfIff(m, d, capsule, a, b, t);
    }
  }

  lemma MirroredIsExact(m: Markers, d: Value, capsules: seq<string>)
    requires Bracketed(m) && IsDict(d) && Mirrored(m, d, capsules)
    ensures ExactMirror(m, d, capsules)
  {
    GetIff(d, "run_mode", Text("conversation"));
    var capsule, a, b, t :| MirrorOf(m, d, capsule, a, b, t);
    MirrorOfIff(m, d, capsule, a, b, t);
    ExactFrom(m, d, capsules, capsule, a, b, t);
  }

  /** Without an envelope the bundle is returned as it is, unless it holds several capsules that are no such mirror. */
  lemma CanonicalizeWithoutEnvelope(m: Markers, sha: string -> string, bundle: Value)
    requires Bracketed(m) && IsDict(bundle) && StripValue(m, bundle).Ok?
    requires var clean := StripValue(m, bundle).value.value;
             IsDict(clean) && forall p :: HasField(clean, "viventium_feelings_projection", p) ==> !IsDict(p)
    ensures var capsules := StripValue(m, bundle).value.capsules;
            if |capsules| <= 1 || Mirrored(m, bundle, capsules) then Canonicalize(m, sha, bundle) == Ok(bundle)
            else Canonicalize(m, sha, bundle) == Err(Conflicting)
  {
    var clean, capsules := StripValue(m, bundle).value.value, StripValue(m, bundle).value.capsules;
    var projection := Get(clean, PROJECTION);
    if projection.Some? { GetIff(clean, PROJECTION, projection.value); }
    MirrorIff(m, bundle, capsules);
  }

  // ---------------------------------------------------------------------------
  // Every text is looked at
  // ---------------------------------------------------------------------------

  /** The text stands somewhere in the value, in any list or dictionary at any depth. */
  ghost predicate Holds(v: Value, t: string)
    decreases v, 1
  {
    match v
    case Text(text) => text == t
    case List(items) => SomeHolds(items, t)
    case Dict(_, values) => SomeHolds(values, t)
    case _ => false
  }

  ghost predicate SomeHolds(vs: seq<Value>, t: string)
    decreases vs, 0
  {
    vs != [] && (Holds(vs[0], t) || SomeHolds(vs[1..], t))
  }

  /** No text of a cleaned value has a marker or blank ends, wherever it stands. */
  lemma {:induction false} CleanEverywhere(m: Markers, v: Value, t: string)
    requires Bracketed(m) && StripValue(m, v).Ok? && Holds(StripValue(m, v).value.value, t)
    ensures Free(m, t) && Trim(t) == t
    decreases v, 1
  {
    match v
    case Text(text) => SplitIsClean(m, text);
    case List(items) => CleanEverywhereIn(m, items, t);
    case Dict(_, values) => CleanEverywhereIn(m, values, t);
    case _ =>
  }

  lemma {:induction false} CleanEverywhereIn(m: Markers, vs: seq<Value>, t: string)
    requires Bracketed(m) && StripAll(m, vs).Ok? && SomeHolds(StripAll(m, vs).value.values, t)
    ensures Free(m, t) && Trim(t) == t
    decreases vs, 0
  {
    if vs != [] {
      var out := StripAll(m, vs).value.values;
      assert out[1..] == StripAll(m, vs[1..]).value.values;
      if Holds(out[0], t) { CleanEverywhere(m, vs[0], t); } else { CleanEverywhereIn(m, vs[1..], t); }
    }
  }

  /** And every capsule of every text is collected. */
  lemma {:induction false} AllCollected(m: Markers, v: Value, t: string)
    requires Bracketed(m) && StripValue(m, v).Ok? && Holds(v, t)
    ensures Split(m, t).Ok? && forall c :: c in Split(m, t).value.capsules ==> c in StripValue(m, v).value.capsules
    decreases v, 1
  {
    match v
    case Text(text) =>
    case List(items) => AllCollectedIn(m, items, t);
    case Dict(_, values) => AllCollectedIn(m, values, t);
  }

  lemma {:induction false} AllCollectedIn(m: Markers, vs: seq<Value>, t: string)
    requires Bracketed(m) && StripAll(m, vs).Ok? && SomeHolds(vs, t)
    ensures Split(m, t).Ok? && forall c :: c in Split(m, t).value.capsules ==> c in StripAll(m, vs).value.capsules
    decreases vs, 0
  {
    if Holds(vs[0], t) { AllCollected(m, vs[0], t); } else { AllCollectedIn(m, vs[1..], t); }
  }

  /** A value is cleaned exactly when each of its texts splits. */
  lemma {:induction false} CleanedIff(m: Markers, v: Value)
    requires Bracketed(m)
    ensures StripValue(m, v).Ok? <==> forall t :: Holds(v, t) ==> Split(m, t).Ok?
    decreases v, 1
  {
    match v
    case Text(text) => assert Holds(v, text);
    case List(items) =>
      CleanedAllIff(m, items);
      assert forall t :: Holds(v, t) <==> SomeHolds(items, t);
    case Dict(_, values) =>
      CleanedAllIff(m, values);
      assert forall t :: Holds(v, t) <==> SomeHolds(values, t);
    case _ =>
  }

  lemma {:induction false} CleanedAllIff(m: Markers, vs: seq<Value>)
    requires Bracketed(m)
    ensures StripAll(m, vs).Ok? <==> forall t :: SomeHolds(vs, t) ==> Split(m, t).Ok?
    decreases vs, 0
  {
    if vs != [] {
      CleanedIff(m, vs[0]);
      CleanedAllIff(m, vs[1..]);
      assert forall t :: SomeHolds(vs, t) <==> Holds(vs[0], t) || SomeHolds(vs[1..], t);
    }
  }
}
