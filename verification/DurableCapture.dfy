/** Scrubbing transcripts: secrets learned from reserved JSON fields, removed from every later line and artifact. */
module DurableCapture {
  import opened Prelude
  import opened Strings
  import opened KeyedLists
  import opened Redaction

  /** A parsed JSON value; numbers, booleans and null are kept as their text. */
  datatype Json = Text(text: string) | Object(fields: seq<Field>) | List(items: seq<Json>) | Scalar(literal: string)

  datatype Field = Field(name: string, value: Json)

  /** `json.loads`, `str(value or "")` of a value that is no string, and `json.dumps`. */
  datatype Codec = Codec(parse: string -> Option<Json>, show: Json -> string, dump: Json -> string)

  const MAX_EMBEDDED := 2 * 1024 * 1024
  const MIN_SECRET := 16
  const MAX_SECRET := 8192

  /** Levels of nesting that are looked into: depths 0 to 64. */
  const LEVELS := 65

  // ---------------------------------------------------------------------------
  // Learning
  // ---------------------------------------------------------------------------

  function ReservedMarker(name: string): Option<Marker> {
    if name == "_viventium_operation_token" then Some(OPERATION_MARKER)
    else if name == "GLASSHIVE_CAPABILITY_BROKER_TOKEN" then Some(BROKER_MARKER)
    else None
  }

  function ValueOf(x: Secret): string {
    x.value
  }

  function Values(known: seq<Secret>): set<string> {
    Keys(ValueOf, known)
  }

  predicate Memorable(value: string) {
    MIN_SECRET <= |value| <= MAX_SECRET && !IsMarker(value)
  }

  /** `_remember`: a known value takes the new marker where it stands. */
  function Remember(known: seq<Secret>, value: string, marker: Marker): seq<Secret> {
    if Memorable(value) then Upsert(ValueOf, known, Secret(value, marker)) else known
  }

  function SecretText(c: Codec, v: Json): string {
    if v.Text? then v.text else c.show(v)
  }

  /** `_embedded_json`: the object or list a text spells. */
  function Embedded(c: Codec, s: string): Option<Json> {
    var t := Trim(s);
    if t == "" || |t| > MAX_EMBEDDED || t[0] !in "[{" || t[|t| - 1] !in "]}" then None
    else
      var v := c.parse(t);
      if v.Some? && (v.value.Object? || v.value.List?) then v else None
  }

  /** `_discover_value`, with `left` levels to go. */
  function Discover(c: Codec, known: seq<Secret>, v: Json, left: nat): seq<Secret>
    decreases left, 0, 0
  {
    if left == 0 then known
    else match v
      case Object(fields) => DiscoverFields(c, known, fields, left - 1)
      case List(items) => DiscoverItems(c, known, items, left - 1)
      case Text(text) =>
        if Embedded(c, text).Some? then Discover(c, known, Embedded(c, text).value, left - 1) else known
      case Scalar(_) => known
  }

  function DiscoverFields(c: Codec, known: seq<Secret>, fields: seq<Field>, left: nat): seq<Secret>
    decreases left, 1, |fields|
  {
    if fields == [] then known
    else
      var before := DiscoverFields(c, known, fields[..|fields| - 1], left);
      var field := fields[|fields| - 1];
      var marker := ReservedMarker(field.name);
      Discover(c, if marker.Some? then Remember(before, SecretText(c, field.value), marker.value)
        else before, field.value, left)
  }

  function DiscoverItems(c: Codec, known: seq<Secret>, items: seq<Json>, left: nat): seq<Secret>
    decreases left, 1, |items|
  {
    if items == [] then known
    else Discover(c, DiscoverItems(c, known, items[..|items| - 1], left), items[|items| - 1], left)
  }

  /** The values a JSON value gives away. */
  function Secrets(c: Codec, v: Json, left: nat): set<string>
    decreases left, 0, 0
  {
    if left == 0 then {}
    else match v
      case Object(fields) => FieldSecrets(c, fields, left - 1)
      case List(items) => ItemSecrets(c, items, left - 1)
      case Text(text) => if Embedded(c, text).Some? then Secrets(c, Embedded(c, text).value, left - 1) else {}
      case Scalar(_) => {}
  }

  function Reserved(c: Codec, field: Field): set<string> {
    var value := SecretText(c, field.value);
    if ReservedMarker(field.name).Some? && Memorable(value) then {value} else {}
  }

  function FieldSecrets(c: Codec, fields: seq<Field>, left: nat): set<string>
    decreases left, 1, |fields|
  {
    if fields == [] then {}
    else
      var field := fields[|fields| - 1];
      FieldSecrets(c, fields[..|fields| - 1], left) + Reserved(c, field) + Secrets(c, field.value, left)
  }

  function ItemSecrets(c: Codec, items: seq<Json>, left: nat): set<string>
    decreases left, 1, |items|
  {
    if items == [] then {} else ItemSecrets(c, items[..|items| - 1], left) + Secrets(c, items[|items| - 1], left)
  }

  // ---------------------------------------------------------------------------
  // Scrubbing
  // ---------------------------------------------------------------------------

  datatype Scrubbed<T> = Scrubbed(known: seq<Secret>, out: T)

  /** `_scrub_value`: the value without its secrets, and what is known afterwards. */
  function ScrubValue(c: Codec, known: seq<Secret>, v: Json, left: nat): Scrubbed<Json>
    requires Usable(known)
    ensures Usable(ScrubValue(c, known, v, left).known)
    decreases left, 0, 0
  {
    if left == 0 then Scrubbed(known, v)
    else match v
      case Object(fields) => var r := ScrubFields(c, known, fields, left - 1); Scrubbed(r.known, Object(r.out))
      case List(items) => var r := ScrubItems(c, known, items, left - 1); Scrubbed(r.known, List(r.out))
      case Text(text) =>
        if Embedded(c, text).Some? then
          var r := ScrubValue(c, known, Embedded(c, text).value, left - 1);
          Scrubbed(r.known, Text(ReplaceExact(r.known, c.dump(r.out))))
        else Scrubbed(known, Text(ReplaceExact(known, text)))
      case Scalar(_) => Scrubbed(known, v)
  }

  function ScrubFields(c: Codec, known: seq<Secret>, fields: seq<Field>, left: nat): Scrubbed<seq<Field>>
    requires Usable(known)
    ensures Usable(ScrubFields(c, known, fields, left).known)
    decreases left, 1, |fields|
  {
    if fields == [] then Scrubbed(known, [])
    else
      var before := ScrubFields(c, known, fields[..|fields| - 1], left);
      var r := ScrubField(c, before.known, fields[|fields| - 1], left);
      Scrubbed(r.known, before.out + [r.out])
  }

  /** A reserved field gives way to its marker; any other is scrubbed. */
  function ScrubField(c: Codec, known: seq<Secret>, field: Field, left: nat): Scrubbed<Field>
    requires Usable(known)
    ensures Usable(ScrubField(c, known, field, left).known)
    decreases left, 1, 0
  {
    var marker := ReservedMarker(field.name);
    if marker.Some? then
      Scrubbed(Remember(known, SecretText(c, field.value), marker.value), Field(field.name, Text(marker.value)))
    else
      var r := ScrubValue(c, known, field.value, left);
      Scrubbed(r.known, Field(field.name, r.out))
  }

  function ScrubItems(c: Codec, known: seq<Secret>, items: seq<Json>, left: nat): Scrubbed<seq<Json>>
    requires Usable(known)
    ensures Usable(ScrubItems(c, known, items, left).known)
    decreases left, 1, |items|
  {
    if items == [] then Scrubbed(known, [])
    else
      var before := ScrubItems(c, known, items[..|items| - 1], left);
      var r := ScrubValue(c, before.known, items[|items| - 1], left);
      Scrubbed(r.known, before.out + [r.out])
  }

  // ---------------------------------------------------------------------------
  // Texts
  // ---------------------------------------------------------------------------

  /** `str.splitlines(keepends=True)`. */
  function Pieces(s: string): seq<string> {
    if s == "" then []
    else if IsBreak(s[0]) then [s[..BreakLength(s)]] + Pieces(s[BreakLength(s)..])
    else
      var rest := Pieces(s[1..]);
      if rest == [] then [[s[0]]] else [[s[0]] + rest[0]] + rest[1..]
  }

  /** `piece.rstrip("\r\n")`. */
  function Body(piece: string): string {
    if piece != "" && piece[|piece| - 1] in "\r\n" then Body(piece[..|piece| - 1]) else piece
  }

  lemma {:induction false} BodyIsPrefix(piece: string)
    ensures Body(piece) <= piece
  {
    if piece != "" && piece[|piece| - 1] in "\r\n" { BodyIsPrefix(piece[..|piece| - 1]); }
  }

  /** What `discover_text` learns; stripping makes it irrelevant whether a line keeps its break. */
  function DiscoverPieces(c: Codec, known: seq<Secret>, pieces: seq<string>): seq<Secret> {
    if pieces == [] then known
    else
      var before := DiscoverPieces(c, known, pieces[..|pieces| - 1]);
      var v := Embedded(c, pieces[|pieces| - 1]);
      if v.Some? then Discover(c, before, v.value, LEVELS) else before
  }

  function ScrubPiece(c: Codec, known: seq<Secret>, piece: string): Scrubbed<string>
    requires Usable(known)
    ensures Usable(ScrubPiece(c, known, piece).known)
  {
    BodyIsPrefix(piece);
    var line := Body(piece);
    var ending := piece[|line|..];
    var v := Embedded(c, line);
    if v.Some? then
      var r := ScrubValue(c, known, v.value, LEVELS);
      Scrubbed(r.known, (if r.out != v.value then c.dump(r.out) else ReplaceExact(r.known, line)) + ending)
    else Scrubbed(known, ReplaceExact(known, line) + ending)
  }

  function ScrubPieces(c: Codec, known: seq<Secret>, pieces: seq<string>): Scrubbed<seq<string>>
    requires Usable(known)
    ensures Usable(ScrubPieces(c, known, pieces).known)
    ensures |ScrubPieces(c, known, pieces).out| == |pieces|
  {
    if pieces == [] then Scrubbed(known, [])
    else
      var before := ScrubPieces(c, known, pieces[..|pieces| - 1]);
      var r := ScrubPiece(c, before.known, pieces[|pieces| - 1]);
      Scrubbed(r.known, before.out + [r.out])
  }

  function Concat(pieces: seq<string>): string {
    if pieces == [] then "" else Concat(pieces[..|pieces| - 1]) + pieces[|pieces| - 1]
  }

  /** `scrub_text`, as the pieces it joins. */
  function ScrubLines(c: Codec, known: seq<Secret>, text: string): Scrubbed<seq<string>>
    requires Usable(known)
    ensures |ScrubLines(c, known, text).out| == |Pieces(text)|
  {
    DiscoverUsable(c, known, Pieces(text));
    ScrubPieces(c, DiscoverPieces(c, known, Pieces(text)), Pieces(text))
  }

  function ScrubText(c: Codec, known: seq<Secret>, text: string): Scrubbed<string>
    requires Usable(known)
  {
    var r := ScrubLines(c, known, text);
    Scrubbed(r.known, Concat(r.out))
  }

  // ---------------------------------------------------------------------------
  // What is known only grows, and scrubbing learns nothing that was not discovered
  // ---------------------------------------------------------------------------

  lemma UsableValues(known: seq<Secret>)
    ensures Usable(known) <==> "" !in Values(known)
  {
    if "" in Values(known) {
      var i :| 0 <= i < |known| && ValueOf(known[i]) == "";
      assert known[i].value == "";
    }
    forall i | 0 <= i < |known| ensures known[i].value in Values(known) { assert ValueOf(known[i]) == known[i].value; }
  }

  lemma RememberValues(known: seq<Secret>, value: string, marker: Marker)
    ensures Values(Remember(known, value, marker)) == Values(known) + (if Memorable(value) then {value} else {})
    ensures Usable(known) ==> Usable(Remember(known, value, marker))
  {
    if Memorable(value) { UpsertKeys(ValueOf, known, Secret(value, marker)); }
  }

  lemma {:induction false} DiscoverValues(c: Codec, known: seq<Secret>, v: Json, left: nat)
    ensures Values(Discover(c, known, v, left)) == Values(known) + Secrets(c, v, left)
    decreases left, 0, 0
  {
    if left > 0 {
      match v
      case Object(fields) => DiscoverFieldsValues(c, known, fields, left - 1);
      case List(items) => DiscoverItemsValues(c, known, items, left - 1);
      case Text(text) => if Embedded(c, text).Some? { DiscoverEmbedded(c, known, text, left - 1); }
      case Scalar(_) =>
    }
  }

  lemma {:induction false} DiscoverEmbedded(c: Codec, known: seq<Secret>, text: string, left: nat)
    requires Embedded(c, text).Some?
    ensures Values(Discover(c, known, Text(text), left + 1)) == Values(known) + Secrets(c, Text(text), left + 1)
    decreases left, 2, 0
  {
    DiscoverValues(c, known, Embedded(c, text).value, left);
  }

  lemma {:induction false} DiscoverFieldsValues(c: Codec, known: seq<Secret>, fields: seq<Field>, left: nat)
    ensures Values(DiscoverFields(c, known, fields, left)) == Values(known) + FieldSecrets(c, fields, left)
    decreases left, 1, |fields|
  {
    if fields != [] {
      var n := |fields| - 1;
      DiscoverFieldsValues(c, known, fields[..n], left);
      var before := DiscoverFields(c, known, fields[..n], left);
      var field, marker := fields[n], ReservedMarker(fields[n].name);
      var next := if marker.Some? then Remember(before, SecretText(c, field.value), marker.value) else before;
      if marker.Some? { RememberValues(before, SecretText(c, field.value), marker.value); }
      assert Values(next) == Values(before) + Reserved(c, field);
      DiscoverValues(c, next, field.value, left);
    }
  }

  lemma {:induction false} DiscoverItemsValues(c: Codec, known: seq<Secret>, items: seq<Json>, left: nat)
    ensures Values(DiscoverItems(c, known, items, left)) == Values(known) + ItemSecrets(c, items, left)
    decreases left, 1, |items|
  {
    if items != [] {
      var n := |items| - 1;
      DiscoverItemsValues(c, known, items[..n], left);
      DiscoverValues(c, DiscoverItems(c, known, items[..n], left), items[n], left);
    }
  }

  lemma {:induction false} ScrubValueValues(c: Codec, known: seq<Secret>, v: Json, left: nat)
    requires Usable(known)
    ensures Values(known) <= Values(ScrubValue(c, known, v, left).known) <= Values(known) + Secrets(c, v, left)
    decreases left, 0, 0
  {
    if left > 0 {
      match v
      case Object(fields) => ObjectValues(c, known, fields, left - 1);
      case List(items) => ListValues(c, known, items, left - 1);
      case Text(text) => TextValues(c, known, text, left - 1);
      case Scalar(_) =>
    }
  }

  lemma {:induction false} ObjectValues(c: Codec, known: seq<Secret>, fields: seq<Field>, left: nat)
    requires Usable(known)
    ensures Values(known) <= Values(ScrubValue(c, known, Object(fields), left + 1).known)
         <= Values(known) + Secrets(c, Object(fields), left + 1)
    decreases left, 2, 0
  {
    ScrubFieldsValues(c, known, fields, left);
  }

  lemma {:induction false} ListValues(c: Codec, known: seq<Secret>, items: seq<Json>, left: nat)
    requires Usable(known)
    ensures Values(known) <= Values(ScrubValue(c, known, List(items), left + 1).known)
         <= Values(known) + Secrets(c, List(items), left + 1)
    decreases left, 2, 0
  {
    ScrubItemsValues(c, known, items, left);
  }

  lemma {:induction false} TextValues(c: Codec, known: seq<Secret>, text: string, left: nat)
    requires Usable(known)
    ensures Values(known) <= Values(ScrubValue(c, known, Text(text), left + 1).known)
         <= Values(known) + Secrets(c, Text(text), left + 1)
    decreases left, 2, 0
  {
    if Embedded(c, text).Some? { ScrubValueValues(c, known, Embedded(c, text).value, left); }
  }

  lemma {:induction false} ScrubFieldsValues(c: Codec, known: seq<Secret>, fields: seq<Field>, left: nat)
    requires Usable(known)
    ensures Values(known) <= Values(ScrubFields(c, known, fields, left).known) <= Values(known) +
      FieldSecrets(c, fields, left)
    decreases left, 1, |fields|
  {
    if fields != [] {
      var n := |fields| - 1;
      ScrubFieldsValues(c, known, fields[..n], left);
      var before, field := ScrubFields(c, known, fields[..n], left), fields[n];
      var marker := ReservedMarker(field.name);
      if marker.Some? {
        RememberValues(before.known, SecretText(c, field.value), marker.value);
      } else {
        ScrubValueValues(c, before.known, field.value, left);
      }
      var r := ScrubField(c, before.known, field, left);
      assert Values(before.known) <= Values(r.known) <= Values(before.known) + Reserved(c, field) +
        Secrets(c, field.value, left);
    }
  }

  lemma {:induction false} ScrubItemsValues(c: Codec, known: seq<Secret>, items: seq<Json>, left: nat)
    requires Usable(known)
    ensures Values(known) <= Values(ScrubItems(c, known, items, left).known) <= Values(known) +
      ItemSecrets(c, items, left)
    decreases left, 1, |items|
  {
    if items != [] {
      var n := |items| - 1;
      ScrubItemsValues(c, known, items[..n], left);
      ScrubValueValues(c, ScrubItems(c, known, items[..n], left).known, items[n], left);
    }
  }

  /** The values a text gives away. */
  function TextSecrets(c: Codec, pieces: seq<string>): set<string> {
    if pieces == [] then {}
    else
      var v := Embedded(c, pieces[|pieces| - 1]);
      TextSecrets(c, pieces[..|pieces| - 1]) + (if v.Some? then Secrets(c, v.value, LEVELS) else {})
  }

  lemma {:induction false} DiscoverPiecesValues(c: Codec, known: seq<Secret>, pieces: seq<string>)
    ensures Values(DiscoverPieces(c, known, pieces)) == Values(known) + TextSecrets(c, pieces)
  {
    if pieces != [] {
      var n := |pieces| - 1;
      DiscoverPiecesValues(c, known, pieces[..n]);
      var v := Embedded(c, pieces[n]);
      if v.Some? { DiscoverValues(c, DiscoverPieces(c, known, pieces[..n]), v.value, LEVELS); }
    }
  }

  lemma {:induction false} SecretsAreMemorable(c: Codec, v: Json, left: nat)
    ensures "" !in Secrets(c, v, left)
    decreases left, 0, 0
  {
    if left > 0 {
      match v
      case Object(fields) => FieldSecretsAreMemorable(c, fields, left - 1);
      case List(items) => ItemSecretsAreMemorable(c, items, left - 1);
      case Text(text) => if Embedded(c, text).Some? { SecretsAreMemorable(c, Embedded(c, text).value, left - 1); }
      case Scalar(_) =>
    }
  }

  lemma {:induction false} FieldSecretsAreMemorable(c: Codec, fields: seq<Field>, left: nat)
    ensures "" !in FieldSecrets(c, fields, left)
    decreases left, 1, |fields|
  {
    if fields != [] {
      FieldSecretsAreMemorable(c, fields[..|fields| - 1], left);
      SecretsAreMemorable(c, fields[|fields| - 1].value, left);
    }
  }

  lemma {:induction false} ItemSecretsAreMemorable(c: Codec, items: seq<Json>, left: nat)
    ensures "" !in ItemSecrets(c, items, left)
    decreases left, 1, |items|
  {
    if items != [] {
      ItemSecretsAreMemorable(c, items[..|items| - 1], left);
      SecretsAreMemorable(c, items[|items| - 1], left);
    }
  }

  lemma {:induction false} DiscoverUsable(c: Codec, known: seq<Secret>, pieces: seq<string>)
    requires Usable(known)
    ensures Usable(DiscoverPieces(c, known, pieces))
  {
    if pieces != [] {
      var n := |pieces| - 1;
      DiscoverUsable(c, known, pieces[..n]);
      var v, before := Embedded(c, pieces[n]), DiscoverPieces(c, known, pieces[..n]);
      if v.Some? {
        DiscoverValues(c, before, v.value, LEVELS);
        SecretsAreMemorable(c, v.value, LEVELS);
        UsableValues(before);
        UsableValues(Discover(c, before, v.value, LEVELS));
      }
    }
  }
}
