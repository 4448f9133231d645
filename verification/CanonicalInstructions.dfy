/** The canonical form of an instruction bundle: one Feeling capsule at the end of `agents_md`, or none. */
module CanonicalInstructions {
  import opened Prelude
  import opened Strings
  import opened FeelingCapsules
  import opened FeelingProjection

  /** A bundle value; dictionaries keep their insertion order, which is the order capsules are collected in. */
  datatype Value =
    | Nil
    | Flag(on: bool)
    | Number(n: int)
    | Text(text: string)
    | List(items: seq<Value>)
    | Dict(keys: seq<string>, values: seq<Value>)

  datatype Stripped = Stripped(value: Value, capsules: seq<string>)

  datatype StrippedAll = StrippedAll(values: seq<Value>, capsules: seq<string>)

  /** Every text of the value cleaned, and every capsule found, in traversal order. */
  function StripValue(m: Markers, v: Value): Result<Stripped, Malformed>
    requires Bracketed(m)
    decreases v, 1
  {
    match v
    case Text(text) => var c :- Split(m, text); Ok(Stripped(Text(c.text), c.capsules))
    case List(items) => var all :- StripAll(m, items); Ok(Stripped(List(all.values), all.capsules))
    case Dict(keys, values) => var all :- StripAll(m, values); Ok(Stripped(Dict(keys, all.values), all.capsules))
    case _ => Ok(Stripped(v, []))
  }

  function StripAll(m: Markers, vs: seq<Value>): Result<StrippedAll, Malformed>
    requires Bracketed(m)
    decreases vs, 0
  {
    if vs == [] then Ok(StrippedAll([], []))
    else
      var first :- StripValue(m, vs[0]);
      var rest :- StripAll(m, vs[1..]);
      Ok(StrippedAll([first.value] + rest.values, first.capsules + rest.capsules))
  }

  function IndexOf(keys: seq<string>, key: string): (r: Option<nat>)
    ensures r.Some? ==> r.value < |keys| && keys[r.value] == key
    ensures r.None? ==> key !in keys
  {
    if keys == [] then None
    else if keys[0] == key then Some(0)
    else var r := IndexOf(keys[1..], key); if r.None? then None else Some(r.value + 1)
  }

  /** Keys and values pair up. */
  predicate IsDict(d: Value) {
    d.Dict? && |d.keys| == |d.values|
  }

  function Get(d: Value, key: string): Option<Value>
    requires IsDict(d)
  {
    var i := IndexOf(d.keys, key);
    if i.None? then None else Some(d.values[i.value])
  }

  function Set(d: Value, key: string, v: Value): Value
    requires IsDict(d)
  {
    var i := IndexOf(d.keys, key);
    if i.None? then Dict(d.keys + [key], d.values + [v]) else Dict(d.keys, d.values[i.value := v])
  }

  datatype Objection =
    | BadBlock | Conflicting | BadContract | ContradictsScope | ScopeOffCount | NotOneCapsule | HashMismatch | NotText

  const PROJECTION := "viventium_feelings_projection"
  const AGENTS := "agents_md"
  const FIELDS: set<string> :=
    {"version", "enabled", "scope", "canonical_instruction_field", "snapshot_sha256", "expected_capsule_count"}
  const SCOPES: set<string> := {"all_agents", "conscious_agent", "unknown"}

  datatype Contract = Contract(enabled: bool, hash: string)

  predicate IsHash(s: string) {
    |s| == 64 && forall i :: 0 <= i < |s| ==> '0' <= s[i] <= '9' || 'a' <= s[i] <= 'f'
  }

  function TextOf(v: Option<Value>): Option<string> {
    if v.Some? && v.value.Text? then Some(v.value.text) else None
  }

  /** The envelope's own checks. */
  function ReadContract(p: Value): Result<Contract, Objection>
    requires IsDict(p)
  {
    var enabled, count := Get(p, "enabled"), Get(p, "expected_capsule_count");
    var scope, hash := TextOf(Get(p, "scope")), TextOf(Get(p, "snapshot_sha256"));
    if (set k | k in p.keys) != FIELDS
       || Get(p, "version") != Some(Number(1))
       || !(enabled.Some? && enabled.value.Flag?)
       || !(scope.Some? && scope.value in SCOPES)
       || count !in {Some(Number(0)), Some(Number(1))}
       || TextOf(Get(p, "canonical_instruction_field")) != Some(AGENTS)
       || !(hash.Some? && (hash.value in {"", "none"} || IsHash(hash.value)))
    then Err(BadContract)
    else if enabled.value.on != (scope == Some("all_agents") && count == Some(Number(1))) then Err(ContradictsScope)
    else if !enabled.value.on && count != Some(Number(0)) then Err(ScopeOffCount)
    else Ok(Contract(enabled.value.on, hash.value))
  }

  const APPLICATION := "application_developer_instructions"
  const DEVELOPER := "developer_instructions"
  const TAIL := "declared_developer_instruction_tail"

  function FieldSplit(m: Markers, d: Value, key: string): Result<Cleaned, Malformed>
    requires Bracketed(m) && IsDict(d)
  {
    var text := TextOf(Get(d, key));
    if text.None? then Ok(Cleaned("", [])) else Split(m, text.value)
  }

  /** The one case of several capsules a bundle without an envelope may hold: three mirrors of the same one. */
  predicate ExactMirror(m: Markers, d: Value, capsules: seq<string>)
    requires Bracketed(m) && IsDict(d)
  {
    TextOf(Get(d, "run_mode")) == Some("conversation") &&
    var a, b, t := FieldSplit(m, d, APPLICATION), FieldSplit(m, d, DEVELOPER), FieldSplit(m, d, TAIL);
    && a.Ok? && b.Ok? && t.Ok?
    && |a.value.capsules| + |b.value.capsules| + |t.value.capsules| == |capsules|
    && |t.value.capsules| == 1 && t.value.text == ""
    && a.value.capsules == b.value.capsules == t.value.capsules
    && var developer, capsule := Trim(TextOf(Get(d, DEVELOPER)).value), t.value.capsules[0];
       |capsule| <= |developer| && developer[|developer| - |capsule|..] == capsule
  }

  /** `canonicalize_viventium_feeling_projection`; `sha` stands for SHA-256. */
  function Canonicalize(m: Markers, sha: string -> string, bundle: Value): Result<Value, Objection>
    requires Bracketed(m) && IsDict(bundle)
  {
    var stripped := StripValue(m, bundle);
    if stripped.Err? then Err(BadBlock)
    else
      var clean, capsules := stripped.value.value, stripped.value.capsules;
      StripKeepsDict(m, bundle);
      var projection := Get(clean, PROJECTION);
      if projection.None? || !IsDict(projection.value) then
        if |capsules| > 1 && !ExactMirror(m, bundle, capsules) then Err(Conflicting) else Ok(bundle)
      else
        var contract :- ReadContract(projection.value);
        if !contract.enabled then Ok(clean)
        else if contract.hash in {"", "none"} || |capsules| != 1 then Err(NotOneCapsule)
        else if sha(capsules[0]) != contract.hash then Err(HashMismatch)
        else if Get(clean, AGENTS).Some? && TextOf(Get(clean, AGENTS)).None? then Err(NotText)
        else Ok(Set(clean, AGENTS, Text(WithCapsule(AgentsText(clean), capsules[0]))))
  }

  /** The trimmed `agents_md`, or nothing. */
  function AgentsText(d: Value): string
    requires IsDict(d)
  {
    var text := TextOf(Get(d, AGENTS));
    if text.None? then "" else Trim(text.value)
  }

  lemma {:induction false} StripAllLength(m: Markers, vs: seq<Value>)
    requires Bracketed(m) && StripAll(m, vs).Ok?
    ensures |StripAll(m, vs).value.values| == |vs|
  {
    if vs != [] { StripAllLength(m, vs[1..]); }
  }

  lemma StripKeepsDict(m: Markers, d: Value)
    requires Bracketed(m) && IsDict(d) && StripValue(m, d).Ok?
    ensures var clean := StripValue(m, d).value.value; IsDict(clean) && clean.keys == d.keys
  {
    StripAllLength(m, d.values);
  }

  // ---------------------------------------------------------------------------
  // Cleaning is idempotent
  // ---------------------------------------------------------------------------

  lemma {:induction false} StripIsFixed(m: Markers, v: Value)
    requires Bracketed(m) && StripValue(m, v).Ok?
    ensures var w := StripValue(m, v).value.value; StripValue(m, w) == Ok(Stripped(w, []))
    decreases v, 1
  {
    match v
    case Text(text) => SplitIdempotent(m, text);
    case List(items) => StripAllIsFixed(m, items);
    case Dict(keys, values) => StripAllIsFixed(m, values);
    case _ =>
  }

  lemma {:induction false} StripAllIsFixed(m: Markers, vs: seq<Value>)
    requires Bracketed(m) && StripAll(m, vs).Ok?
    ensures var ws := StripAll(m, vs).value.values; StripAll(m, ws) == Ok(StrippedAll(ws, []))
    decreases vs, 0
  {
    if vs != [] {
      StripIsFixed(m, vs[0]);
      StripAllIsFixed(m, vs[1..]);
      var first, rest := StripValue(m, vs[0]).value.value, StripAll(m, vs[1..]).value.values;
      assert ([first] + rest)[1..] == rest;
      var none: seq<string> := [];
      assert none + none == none;
    }
  }

  /** In a cleaned list, one changed element contributes its capsules and nothing else changes. */
  lemma {:induction false} StripUpdated(m: Markers, ws: seq<Value>, i: nat, x: Value)
    requires Bracketed(m) && StripAll(m, ws) == Ok(StrippedAll(ws, [])) && i < |ws|
    requires StripValue(m, x).Ok?
    ensures var s := StripValue(m, x).value; StripAll(m, ws[i := x]) == Ok(StrippedAll(ws[i := s.value], s.capsules))
    decreases |ws|
  {
    FixedHeadTail(m, ws);
    var s := StripValue(m, x).value;
    if i == 0 {
      assert ws[0 := x][1..] == ws[1..] && ws[0 := s.value] == [s.value] + ws[1..];
      assert s.capsules + [] == s.capsules;
    } else {
      StripUpdated(m, ws[1..], i - 1, x);
      assert ws[i := x][1..] == ws[1..][i - 1 := x];
      assert ws[i := s.value] == [ws[0]] + ws[1..][i - 1 := s.value];
      assert [] + s.capsules == s.capsules;
    }
  }

  lemma FixedHeadTail(m: Markers, ws: seq<Value>)
    requires Bracketed(m) && StripAll(m, ws) == Ok(StrippedAll(ws, [])) && ws != []
    ensures StripValue(m, ws[0]) == Ok(Stripped(ws[0], []))
    ensures StripAll(m, ws[1..]) == Ok(StrippedAll(ws[1..], []))
  {
    var first, rest := StripValue(m, ws[0]).value, StripAll(m, ws[1..]).value;
    assert ws == [first.value] + rest.values;
    assert ws[1..] == rest.values;
    assert first.capsules + rest.capsules == [];
  }

  lemma {:induction false} StripAppended(m: Markers, ws: seq<Value>, x: Value)
    requires Bracketed(m) && StripAll(m, ws) == Ok(StrippedAll(ws, []))
    requires StripValue(m, x).Ok?
    ensures var s := StripValue(m, x).value; StripAll(m, ws + [x]) == Ok(StrippedAll(ws + [s.value], s.capsules))
    decreases |ws|
  {
    var s := StripValue(m, x).value;
    if ws == [] {
      assert ws + [x] == [x] && [x][1..] == ws && ws + [s.value] == [s.value] == [s.value] + ws;
      assert s.capsules + [] == s.capsules;
    } else {
      FixedHeadTail(m, ws);
      StripAppended(m, ws[1..], x);
      assert (ws + [x])[1..] == ws[1..] + [x] && ws + [s.value] == [ws[0]] + (ws[1..] + [s.value]);
      assert [] + s.capsules == s.capsules;
    }
  }

  lemma {:induction false} FixedElement(m: Markers, ws: seq<Value>, i: nat)
    requires Bracketed(m) && StripAll(m, ws) == Ok(StrippedAll(ws, [])) && i < |ws|
    ensures StripValue(m, ws[i]) == Ok(Stripped(ws[i], []))
    decreases |ws|
  {
    FixedHeadTail(m, ws);
    if i > 0 { FixedElement(m, ws[1..], i - 1); }
  }

  // ---------------------------------------------------------------------------
  // The canonical form
  // ---------------------------------------------------------------------------

  /** A cleaned bundle's `agents_md` is free of markers and trimmed. */
  lemma AgentsClean(m: Markers, d: Value)
    requires Bracketed(m) && IsDict(d) && StripValue(m, d) == Ok(Stripped(d, []))
    ensures Free(m, AgentsText(d)) && Trim(AgentsText(d)) == AgentsText(d)
    ensures TextOf(Get(d, AGENTS)).Some? ==> Get(d, AGENTS) == Some(Text(AgentsText(d)))
  {
    var i := IndexOf(d.keys, AGENTS);
    assert StripAll(m, d.values) == Ok(StrippedAll(d.values, []));
    if i.Some? && d.values[i.value].Text? {
      FixedElement(m, d.values, i.value);
      SplitIsClean(m, d.values[i.value].text);
    } else {
      EmptyFree(m);
    }
  }

  /** Cleaning the canonical form finds the one capsule again, and the cleaned text under it. */
  lemma CanonicalStrips(m: Markers, d: Value, capsule: string)
    requires Bracketed(m) && IsDict(d) && StripValue(m, d) == Ok(Stripped(d, []))
    requires Get(d, AGENTS).Some? ==> TextOf(Get(d, AGENTS)).Some?
    requires IsCapsule(m, capsule)
    ensures var text := AgentsText(d);
            StripValue(m, Set(d, AGENTS, Text(WithCapsule(text, capsule)))) ==
              Ok(Stripped(Set(d, AGENTS, Text(text)), [capsule]))
  {
    AgentsClean(m, d);
    var text := AgentsText(d);
    WithCapsuleSplits(m, text, capsule);
    var x := Text(WithCapsule(text, capsule));
    assert StripValue(m, x) == Ok(Stripped(Text(text), [capsule]));
    assert StripAll(m, d.values) == Ok(StrippedAll(d.values, []));
    var i := IndexOf(d.keys, AGENTS);
    if i.Some? { StripUpdated(m, d.values, i.value, x); } else { StripAppended(m, d.values, x); }
  }

  lemma {:induction false} IndexOfAppended(keys: seq<string>, key: string, other: string)
    requires other != key
    ensures IndexOf(keys + [other], key) == IndexOf(keys, key)
    ensures other !in keys ==> IndexOf(keys + [other], other) == Some(|keys|)
  {
    if keys == [] {
      assert ([other])[1..] == [] && [] + [other] == [other];
    } else {
      IndexOfAppended(keys[1..], key, other);
      assert (keys + [other])[1..] == keys[1..] + [other];
    }
  }

  lemma SetGet(d: Value, key: string, v: Value, w: Value, other: string)
    requires IsDict(d) && other != key
    ensures IsDict(Set(d, key, v))
    ensures Get(Set(d, key, v), other) == Get(d, other) && Get(Set(d, key, v), key) == Some(v)
    ensures Set(Set(d, key, v), key, w) == Set(d, key, w)
  {
    IndexOfAppended(d.keys, other, key);
    var i := IndexOf(d.keys, key);
    if i.None? {
      assert (d.values + [v])[|d.values| := w] == d.values + [w];
    } else {
      assert d.values[i.value := v][i.value := w] == d.values[i.value := w];
    }
  }

  /** What canonicalization leaves, by cases. */
  datatype Shape = Legacy | Off | On(clean: Value, capsule: string)

  lemma CanonicalShape(m: Markers, sha: string -> string, bundle: Value) returns (shape: Shape)
    requires Bracketed(m) && IsDict(bundle) && Canonicalize(m, sha, bundle).Ok?
    ensures shape.Legacy? ==> Canonicalize(m, sha, bundle).value == bundle
    ensures !shape.Legacy? ==>
      && StripValue(m, bundle).Ok?
      && var clean := StripValue(m, bundle).value.value;
         && IsDict(clean) && Get(clean, PROJECTION).Some? && IsDict(Get(clean, PROJECTION).value)
         && ReadContract(Get(clean, PROJECTION).value).Ok?
    ensures shape.Off? ==>
      Canonicalize(m, sha, bundle) == Ok(StripValue(m, bundle).value.value) &&
        !ReadContract(Get(StripValue(m, bundle).value.value, PROJECTION).value).value.enabled
    ensures shape.On? ==>
      && StripValue(m, bundle) == Ok(Stripped(shape.clean, [shape.capsule]))
      && (Get(shape.clean, AGENTS).Some? ==> TextOf(Get(shape.clean, AGENTS)).Some?)
      && Canonicalize(m, sha, bundle) ==
        Ok(Set(shape.clean, AGENTS, Text(WithCapsule(AgentsText(shape.clean), shape.capsule))))
      && var contract := ReadContract(Get(shape.clean, PROJECTION).value).value;
         contract.enabled && contract.hash !in {"", "none"} && contract.hash == sha(shape.capsule)
  {
    var stripped := StripValue(m, bundle).value;
    StripKeepsDict(m, bundle);
    var projection := Get(stripped.value, PROJECTION);
    if projection.None? || !IsDict(projection.value) {
      shape := Legacy;
    } else if !ReadContract(projection.value).value.enabled {
      shape := Off;
    } else {
      assert stripped.capsules == [stripped.capsules[0]];
      shape := On(stripped.value, stripped.capsules[0]);
    }
  }

  /** Canonicalizing a canonical bundle changes nothing. */
  lemma CanonicalizeIdempotent(m: Markers, sha: string -> string, bundle: Value)
    requires Bracketed(m) && IsDict(bundle) && Canonicalize(m, sha, bundle).Ok?
    ensures var c := Canonicalize(m, sha, bundle).value; IsDict(c) && Canonicalize(m, sha, c) == Ok(c)
  {
    var shape := CanonicalShape(m, sha, bundle);
    match shape
    case Legacy =>
    case Off => StripIsFixed(m, bundle);
    case On(clean, capsule) =>
      StripIsFixed(m, bundle);
      CapsulesGenuine(m, bundle);
      OnIsFixed(m, sha, clean, capsule);
  }

  lemma OnIsFixed(m: Markers, sha: string -> string, clean: Value, capsule: string)
    requires Bracketed(m) && IsDict(clean) && StripValue(m, clean) == Ok(Stripped(clean, [])) && IsCapsule(m, capsule)
    requires Get(clean, AGENTS).Some? ==> TextOf(Get(clean, AGENTS)).Some?
    requires Get(clean, PROJECTION).Some? && IsDict(Get(clean, PROJECTION).value)
    requires var contract := ReadContract(Get(clean, PROJECTION).value);
             contract.Ok? && contract.value.enabled && contract.value.hash !in {"", "none"} &&
               contract.value.hash == sha(capsule)
    ensures var c := Set(clean, AGENTS, Text(WithCapsule(AgentsText(clean), capsule)));
            IsDict(c) && Canonicalize(m, sha, c) == Ok(c)
  {
    var text := AgentsText(clean);
    AgentsClean(m, clean);
    CanonicalStrips(m, clean, capsule);
    var x := Text(WithCapsule(text, capsule));
    SetGet(clean, AGENTS, x, x, PROJECTION);
    SetGet(clean, AGENTS, Text(text), x, PROJECTION);
  }

  /** Every capsule the traversal finds is a well-formed block. */
  lemma {:induction false} CapsulesGenuine(m: Markers, v: Value)
    requires Bracketed(m) && StripValue(m, v).Ok?
    ensures forall i :: 0 <= i < |StripValue(m, v).value.capsules| ==> IsCapsule(m, StripValue(m, v).value.capsules[i])
    decreases v, 1
  {
    match v
    case Text(text) => SplitIsClean(m, text);
    case List(items) => AllCapsulesGenuine(m, items);
    case Dict(keys, values) => AllCapsulesGenuine(m, values);
    case _ =>
  }

  lemma {:induction false} AllCapsulesGenuine(m: Markers, vs: seq<Value>)
    requires Bracketed(m) && StripAll(m, vs).Ok?
    ensures forall i :: 0 <= i < |StripAll(m, vs).value.capsules| ==> IsCapsule(m, StripAll(m, vs).value.capsules[i])
    decreases vs, 0
  {
    if vs != [] {
      CapsulesGenuine(m, vs[0]);
      AllCapsulesGenuine(m, vs[1..]);
    }
  }

  /**
   * With an envelope: exactly one capsule, at the very end of `agents_md`, when it is on; none anywhere when it is
   * off.
   */
  lemma CanonicalCapsules(m: Markers, sha: string -> string, bundle: Value)
    requires Bracketed(m) && IsDict(bundle) && Canonicalize(m, sha, bundle).Ok?
    requires StripValue(m, bundle).Ok? && var clean := StripValue(m, bundle).value.value;
             IsDict(clean) && Get(clean, PROJECTION).Some? && IsDict(Get(clean, PROJECTION).value)
    ensures var clean := StripValue(m, bundle).value.value;
            var c := Canonicalize(m, sha, bundle).value;
            var contract := ReadContract(Get(clean, PROJECTION).value);
            && contract.Ok? && IsDict(c) && StripValue(m, c).Ok?
            && if contract.value.enabled then
                 var found := StripValue(m, c).value.capsules;
                 && |found| == 1 && sha(found[0]) == contract.value.hash
                 && Get(c, AGENTS) == Some(Text(WithCapsule(AgentsText(clean), found[0])))
               else StripValue(m, c) == Ok(Stripped(c, []))
  {
    StripIsFixed(m, bundle);
    StripKeepsDict(m, bundle);
    var clean, capsules := StripValue(m, bundle).value.value, StripValue(m, bundle).value.capsules;
    var contract := ReadContract(Get(clean, PROJECTION).value).value;
    if contract.enabled {
      CapsulesGenuine(m, bundle);
      CanonicalStrips(m, clean, capsules[0]);
      var x := Text(WithCapsule(AgentsText(clean), capsules[0]));
      SetGet(clean, AGENTS, x, x, PROJECTION);
    }
  }

  // ---------------------------------------------------------------------------
  // The program's own markers
  // ---------------------------------------------------------------------------

  function StripFeeling(v: Value): Result<Stripped, Malformed> {
    FeelingIsBracketed();
    StripValue(FEELING, v)
  }

  function CanonicalizeFeeling(sha: string -> string, bundle: Value): Result<Value, Objection>
    requires IsDict(bundle)
  {
    FeelingIsBracketed();
    Canonicalize(FEELING, sha, bundle)
  }

  /**
   * Canonicalizing again changes nothing; with an envelope that is off no capsule is left, with one that is on, one.
   */
  lemma CanonicalizeFeelingTwice(sha: string -> string, bundle: Value)
    requires IsDict(bundle) && CanonicalizeFeeling(sha, bundle).Ok?
    ensures var c := CanonicalizeFeeling(sha, bundle).value; IsDict(c) && CanonicalizeFeeling(sha, c) == Ok(c)
    ensures var clean := StripFeeling(bundle);
            var c := CanonicalizeFeeling(sha, bundle).value;
            clean.Ok? && IsDict(clean.value.value) && Get(clean.value.value, PROJECTION).Some?
              && IsDict(Get(clean.value.value, PROJECTION).value) ==>
            var contract := ReadContract(Get(clean.value.value, PROJECTION).value);
            && contract.Ok? && StripFeeling(c).Ok?
            && |StripFeeling(c).value.capsules| == if contract.value.enabled then 1 else 0
  {
    FeelingIsBracketed();
    CanonicalizeIdempotent(FEELING, sha, bundle);
    var clean := StripFeeling(bundle);
    if clean.Ok? && IsDict(clean.value.value) && Get(clean.value.value, PROJECTION).Some?
      && IsDict(Get(clean.value.value, PROJECTION).value)
    {
      CanonicalCapsules(FEELING, sha, bundle);
    }
  }
}
