/** Which fields give a secret away, by their names, and what stands in them once a transcript is scrubbed. */
module ReservedFields {
  import opened Prelude
  import opened Strings
  import opened KeyedLists
  import opened Redaction
  import opened DurableCapture

  const OPERATION_FIELD := "_viventium_operation_token"
  const BROKER_FIELD := "GLASSHIVE_CAPABILITY_BROKER_TOKEN"

  /** The marker a field of that name is left with. */
  ghost predicate MarkedBy(name: string, marker: string) {
    || (name == "_viventium_operation_token" && marker == "[REDACTED_OPERATION_TOKEN]")
    || (name == "GLASSHIVE_CAPABILITY_BROKER_TOKEN" && marker == "[REDACTED_BROKER_TOKEN]")
  }

  lemma ReservedIff(name: string)
    ensures ReservedMarker(name).Some? <==> name == OPERATION_FIELD || name == BROKER_FIELD
    ensures ReservedMarker(name).Some? ==> MarkedBy(name, ReservedMarker(name).value)
    ensures forall marker :: MarkedBy(name, marker) ==>
              ReservedMarker(name).Some? && ReservedMarker(name).value == marker
  {
    assert OPERATION_FIELD[0] != BROKER_FIELD[0];
  }

  // ---------------------------------------------------------------------------
  // Paths
  // ---------------------------------------------------------------------------

  /** The text, stripped, is bracketed, not too long, and parses as an object or a list. */
  ghost predicate Spells(c: Codec, s: string, v: Json) {
    var t := Trim(s);
    && 0 < |t| <= 2097152
    && (t[0] == '{' || t[0] == '[') && (t[|t| - 1] == '}' || t[|t| - 1] == ']')
    && c.parse(t) == Some(v) && (v.Object? || v.List?)
  }

  lemma SpellsIff(c: Codec, s: string, v: Json)
    ensures Embedded(c, s) == Some(v) <==> Spells(c, s, v)
  {
    var t := Trim(s);
    if t != "" {
      Bracket(t[0], '[', '{');
      Bracket(t[|t| - 1], ']', '}');
    }
  }

  lemma Bracket(ch: char, a: char, b: char)
    ensures ch in [a, b] <==> ch == a || ch == b
  {
  }

  /** An object with the given field is reached through objects, lists and embedded JSON, within so many levels. */
  ghost predicate FieldWithin(c: Codec, v: Json, name: string, held: Json, left: nat)
    decreases left
  {
    left > 0 &&
      match v
      case Object(fields) =>
        exists i :: 0 <= i < |fields| &&
          (fields[i] == Field(name, held) || FieldWithin(c, fields[i].value, name, held, left - 1))
      case List(items) => exists i :: 0 <= i < |items| && FieldWithin(c, items[i], name, held, left - 1)
      case Text(text) => exists w :: Spells(c, text, w) && FieldWithin(c, w, name, held, left - 1)
      case Scalar(_) => false
  }

  /** What the held value is as a text. */
  function HeldText(c: Codec, held: Json): string {
    if held.Text? then held.text else c.show(held)
  }

  /** Long enough to be a secret, short enough to be searched for, and not itself a marker. */
  ghost predicate Learnable(x: string) {
    16 <= |x| <= 8192 && x != "[REDACTED_OPERATION_TOKEN]" && x != "[REDACTED_BROKER_TOKEN]"
  }

  ghost predicate Holds(c: Codec, v: Json, name: string, x: string, left: nat) {
    exists held :: FieldWithin(c, v, name, held, left) && HeldText(c, held) == x
  }

  /** One of the two reserved fields holds the value, somewhere within reach. */
  ghost predicate Gives(c: Codec, v: Json, x: string, left: nat) {
    Holds(c, v, "_viventium_operation_token", x, left) || Holds(c, v, "GLASSHIVE_CAPABILITY_BROKER_TOKEN", x, left)
  }

  // ---------------------------------------------------------------------------
  // The reserved fields, and no other, give values away
  // ---------------------------------------------------------------------------

  ghost predicate FieldHolds(c: Codec, field: Field, name: string, x: string, left: nat) {
    (field.name == name && HeldText(c, field.value) == x) || Holds(c, field.value, name, x, left)
  }

  ghost predicate FieldGives(c: Codec, field: Field, x: string, left: nat) {
    FieldHolds(c, field, OPERATION_FIELD, x, left) || FieldHolds(c, field, BROKER_FIELD, x, left)
  }

  lemma {:induction false} FieldSecretsIff(c: Codec, fields: seq<Field>, x: string, left: nat)
    requires forall i :: 0 <= i < |fields| ==>
      (x in Secrets(c, fields[i].value, left) <==> Learnable(x) && Gives(c, fields[i].value, x, left))
    ensures x in FieldSecrets(c, fields, left) <==>
            Learnable(x) && exists i :: 0 <= i < |fields| && FieldGives(c, fields[i], x, left)
  {
    if fields != [] {
      var n := |fields| - 1;
      FieldSecretsIff(c, fields[..n], x, left);
      ReservedIff(fields[n].name);
      assert x in Reserved(c, fields[n]) <==>
        Learnable(x) && (fields[n].name == OPERATION_FIELD || fields[n].name == BROKER_FIELD)
        && HeldText(c, fields[n].value) == x;
      SomeFieldGives(c, fields, x, left);
    }
  }

  lemma SomeFieldGives(c: Codec, fields: seq<Field>, x: string, left: nat)
    requires fields != []
    ensures var n := |fields| - 1;
            (exists i :: 0 <= i < |fields| && FieldGives(c, fields[i], x, left)) <==>
            ((exists i :: 0 <= i < n && FieldGives(c, fields[..n][i], x, left)) || FieldGives(c, fields[n], x, left))
  {
    var n := |fields| - 1;
    assert forall i :: 0 <= i < n ==> fields[..n][i] == fields[i];
    if i :| 0 <= i < |fields| && FieldGives(c, fields[i], x, left) {
      if i < n { assert FieldGives(c, fields[..n][i], x, left); }
    }
  }

  lemma {:induction false} ItemSecretsIff(c: Codec, items: seq<Json>, x: string, left: nat)
    requires forall i :: 0 <= i < |items| ==>
      (x in Secrets(c, items[i], left) <==> Learnable(x) && Gives(c, items[i], x, left))
    ensures x in ItemSecrets(c, items, left) <==>
            Learnable(x) && exists i :: 0 <= i < |items| && Gives(c, items[i], x, left)
  {
    if items != [] {
      var n := |items| - 1;
      ItemSecretsIff(c, items[..n], x, left);
      assert forall i :: 0 <= i < n ==> items[..n][i] == items[i];
      if i :| 0 <= i < |items| && Gives(c, items[i], x, left) {
        if i < n { assert Gives(c, items[..n][i], x, left); }
      }
    }
  }

  lemma HoldsInObject(c: Codec, fields: seq<Field>, name: string, x: string, left: nat)
    ensures Holds(c, Object(fields), name, x, left + 1) <==>
            exists i :: 0 <= i < |fields| && FieldHolds(c, fields[i], name, x, left)
  {
    if held :| FieldWithin(c, Object(fields), name, held, left + 1) && HeldText(c, held) == x {
      var i :| 0 <= i < |fields| &&
        (fields[i] == Field(name, held) || FieldWithin(c, fields[i].value, name, held, left));
      assert FieldHolds(c, fields[i], name, x, left);
    }
    if i :| 0 <= i < |fields| && FieldHolds(c, fields[i], name, x, left) {
      if fields[i].name == name && HeldText(c, fields[i].value) == x {
        assert fields[i] == Field(name, fields[i].value);
        assert FieldWithin(c, Object(fields), name, fields[i].value, left + 1);
      } else {
        var held :| FieldWithin(c, fields[i].value, name, held, left) && HeldText(c, held) == x;
        assert FieldWithin(c, Object(fields), name, held, left + 1);
      }
    }
  }

  lemma HoldsInList(c: Codec, items: seq<Json>, name: string, x: string, left: nat)
    ensures Holds(c, List(items), name, x, left + 1) <==>
            exists i :: 0 <= i < |items| && Holds(c, items[i], name, x, left)
  {
    if held :| FieldWithin(c, List(items), name, held, left + 1) && HeldText(c, held) == x {
      var i :| 0 <= i < |items| && FieldWithin(c, items[i], name, held, left);
      assert Holds(c, items[i], name, x, left);
    }
    if i :| 0 <= i < |items| && Holds(c, items[i], name, x, left) {
      var held :| FieldWithin(c, items[i], name, held, left) && HeldText(c, held) == x;
      assert FieldWithin(c, List(items), name, held, left + 1);
    }
  }

  lemma HoldsInText(c: Codec, text: string, name: string, x: string, left: nat)
    ensures Holds(c, Text(text), name, x, left + 1) <==>
            Embedded(c, text).Some? && Holds(c, Embedded(c, text).value, name, x, left)
  {
    if held :| FieldWithin(c, Text(text), name, held, left + 1) && HeldText(c, held) == x {
      var w :| Spells(c, text, w) && FieldWithin(c, w, name, held, left);
      SpellsIff(c, text, w);
    }
    if Embedded(c, text).Some? && Holds(c, Embedded(c, text).value, name, x, left) {
      var w := Embedded(c, text).value;
      SpellsIff(c, text, w);
      var held :| FieldWithin(c, w, name, held, left) && HeldText(c, held) == x;
      assert FieldWithin(c, Text(text), name, held, left + 1);
    }
  }

  /** A value is given away exactly when a reserved field within reach holds it and it can be a secret. */
  lemma {:induction false} SecretsIff(c: Codec, v: Json, x: string, left: nat)
    ensures x in Secrets(c, v, left) <==> Learnable(x) && Gives(c, v, x, left)
    decreases left, 0
  {
    if left > 0 {
      match v
      case Object(fields) => ObjectSecretsIff(c, fields, x, left - 1);
      case List(items) => ListSecretsIff(c, items, x, left - 1);
      case Text(text) => TextSecretsIff(c, text, x, left - 1);
      case Scalar(_) =>
    }
  }

  lemma {:induction false} ObjectSecretsIff(c: Codec, fields: seq<Field>, x: string, left: nat)
    ensures x in Secrets(c, Object(fields), left + 1) <==> Learnable(x) && Gives(c, Object(fields), x, left + 1)
    decreases left, 1
  {
    forall i | 0 <= i < |fields|
      ensures x in Secrets(c, fields[i].value, left) <==> Learnable(x) && Gives(c, fields[i].value, x, left)
    {
      SecretsIff(c, fields[i].value, x, left);
    }
    FieldSecretsIff(c, fields, x, left);
    ObjectGives(c, fields, x, left);
  }

  lemma {:induction false} ListSecretsIff(c: Codec, items: seq<Json>, x: string, left: nat)
    ensures x in Secrets(c, List(items), left + 1) <==> Learnable(x) && Gives(c, List(items), x, left + 1)
    decreases left, 1
  {
    forall i | 0 <= i < |items|
      ensures x in Secrets(c, items[i], left) <==> Learnable(x) && Gives(c, items[i], x, left)
    {
      SecretsIff(c, items[i], x, left);
    }
    ItemSecretsIff(c, items, x, left);
    ListGives(c, items, x, left);
  }

  lemma {:induction false} TextSecretsIff(c: Codec, text: string, x: string, left: nat)
    ensures x in Secrets(c, Text(text), left + 1) <==> Learnable(x) && Gives(c, Text(text), x, left + 1)
    decreases left, 1
  {
    if Embedded(c, text).Some? { SecretsIff(c, Embedded(c, text).value, x, left); }
    HoldsInText(c, text, OPERATION_FIELD, x, left);
    HoldsInText(c, text, BROKER_FIELD, x, left);
  }

  lemma ObjectGives(c: Codec, fields: seq<Field>, x: string, left: nat)
    ensures Gives(c, Object(fields), x, left + 1) <==>
            exists i :: 0 <= i < |fields| && FieldGives(c, fields[i], x, left)
  {
    HoldsInObject(c, fields, OPERATION_FIELD, x, left);
    HoldsInObject(c, fields, BROKER_FIELD, x, left);
    if Gives(c, Object(fields), x, left + 1) {
      var name := if Holds(c, Object(fields), OPERATION_FIELD, x, left + 1) then OPERATION_FIELD else BROKER_FIELD;
      var i :| 0 <= i < |fields| && FieldHolds(c, fields[i], name, x, left);
      assert FieldGives(c, fields[i], x, left);
    }
    if i :| 0 <= i < |fields| && FieldGives(c, fields[i], x, left) {
      var name := if FieldHolds(c, fields[i], OPERATION_FIELD, x, left) then OPERATION_FIELD else BROKER_FIELD;
      assert FieldHolds(c, fields[i], name, x, left);
    }
  }

  lemma ListGives(c: Codec, items: seq<Json>, x: string, left: nat)
    ensures Gives(c, List(items), x, left + 1) <==> exists i :: 0 <= i < |items| && Gives(c, items[i], x, left)
  {
    HoldsInList(c, items, OPERATION_FIELD, x, left);
    HoldsInList(c, items, BROKER_FIELD, x, left);
    if Gives(c, List(items), x, left + 1) {
      var name := if Holds(c, List(items), OPERATION_FIELD, x, left + 1) then OPERATION_FIELD else BROKER_FIELD;
      var i :| 0 <= i < |items| && Holds(c, items[i], name, x, left);
      assert Gives(c, items[i], x, left);
    }
    if i :| 0 <= i < |items| && Gives(c, items[i], x, left) {
      var name := if Holds(c, items[i], OPERATION_FIELD, x, left) then OPERATION_FIELD else BROKER_FIELD;
      assert Holds(c, items[i], name, x, left);
    }
  }

  // ---------------------------------------------------------------------------
  // Markers
  // ---------------------------------------------------------------------------

  /** Every entry of the value has the marker. */
  predicate Marked(known: seq<Secret>, x: string, marker: string) {
    forall i :: 0 <= i < |known| && known[i].value == x ==> known[i].marker == marker
  }

  lemma RememberDistinct(known: seq<Secret>, value: string, marker: Marker)
    requires DistinctValues(known) && Usable(known)
    ensures DistinctValues(Remember(known, value, marker)) && Usable(Remember(known, value, marker))
  {
    if Memorable(value) {
      var at := LastWith(ValueOf, known, value);
      var after := Upsert(ValueOf, known, Secret(value, marker));
      forall i, j | 0 <= i < j < |after| ensures after[i].value != after[j].value {
        if at.None? && j == |known| { assert ValueOf(known[i]) != value; }
      }
    }
  }

  lemma RememberMarks(known: seq<Secret>, value: string, marker: Marker, x: string, expected: string)
    requires DistinctValues(known) && Usable(known)
    requires value == x ==> marker == expected
    requires Marked(known, x, expected) || (value == x && Memorable(x))
    ensures Marked(Remember(known, value, marker), x, expected)
  {
    RememberDistinct(known, value, marker);
    if Memorable(value) {
      var at := LastWith(ValueOf, known, value);
      var after := Upsert(ValueOf, known, Secret(value, marker));
      var i := if at.Some? then at.value else |known|;
      assert after[i] == Secret(value, marker);
    }
  }

  /** Wherever a reserved field holds the value, it is a field of the given marker. */
  ghost predicate OnlyBy(c: Codec, v: Json, x: string, marker: string, left: nat) {
    forall name :: (name == OPERATION_FIELD || name == BROKER_FIELD) && Holds(c, v, name, x, left) ==>
      MarkedBy(name, marker)
  }

  ghost predicate FieldsOnlyBy(c: Codec, fields: seq<Field>, x: string, marker: string, left: nat) {
    forall i, name ::
      (&& 0 <= i < |fields| && (name == OPERATION_FIELD || name == BROKER_FIELD)
       && FieldHolds(c, fields[i], name, x, left)) ==>
        MarkedBy(name, marker)
  }

  ghost predicate ItemsOnlyBy(c: Codec, items: seq<Json>, x: string, marker: string, left: nat) {
    forall i :: 0 <= i < |items| ==> OnlyBy(c, items[i], x, marker, left)
  }

  ghost predicate Sound(known: seq<Secret>) {
    DistinctValues(known) && Usable(known)
  }

  /** What discovery knows of a value: the marker of the field that holds it, if it was marked so before or is held. */
  ghost predicate Settled(known: seq<Secret>, after: seq<Secret>, x: string, marker: string, given: set<string>) {
    Sound(after) && (Marked(known, x, marker) || x in given ==> Marked(after, x, marker))
  }

  lemma {:induction false} DiscoverMarks(c: Codec, known: seq<Secret>, v: Json, x: string, marker: string, left: nat)
    requires Sound(known) && OnlyBy(c, v, x, marker, left)
    ensures Settled(known, Discover(c, known, v, left), x, marker, Secrets(c, v, left))
    decreases left, 0, 0
  {
    if left > 0 {
      match v
      case Object(fields) =>
        ObjectOnly(c, fields, x, marker, left - 1);
        FieldsMark(c, known, fields, x, marker, left - 1);
      case List(items) =>
        ListOnly(c, items, x, marker, left - 1);
        ItemsMark(c, known, items, x, marker, left - 1);
      case Text(text) =>
        if Embedded(c, text).Some? {
          TextOnly(c, text, x, marker, left - 1);
          DiscoverMarks(c, known, Embedded(c, text).value, x, marker, left - 1);
        }
      case Scalar(_) =>
    }
  }

  lemma ObjectOnly(c: Codec, fields: seq<Field>, x: string, marker: string,
      left: nat)
    requires OnlyBy(c, Object(fields), x, marker, left + 1)
    ensures FieldsOnlyBy(c, fields, x, marker, left)
  {
    forall i, name | 0 <= i < |fields| && (name == OPERATION_FIELD || name == BROKER_FIELD)
      && FieldHolds(c, fields[i], name, x, left)
      ensures MarkedBy(name, marker)
    {
      HoldsInObject(c, fields, name, x, left);
    }
  }

  lemma ListOnly(c: Codec, items: seq<Json>, x: string, marker: string,
      left: nat)
    requires OnlyBy(c, List(items), x, marker, left + 1)
    ensures ItemsOnlyBy(c, items, x, marker, left)
  {
    forall i | 0 <= i < |items| ensures OnlyBy(c, items[i], x, marker, left) {
      HoldsInList(c, items, OPERATION_FIELD, x, left);
      HoldsInList(c, items, BROKER_FIELD, x, left);
    }
  }

  lemma TextOnly(c: Codec, text: string, x: string, marker: string, left: nat)
    requires Embedded(c, text).Some? && OnlyBy(c, Text(text), x, marker, left + 1)
    ensures OnlyBy(c, Embedded(c, text).value, x, marker, left)
  {
    HoldsInText(c, text, OPERATION_FIELD, x, left);
    HoldsInText(c, text, BROKER_FIELD, x, left);
  }

  lemma {:induction false} FieldsMark(c: Codec, known: seq<Secret>, fields: seq<Field>, x: string, marker: string,
      left: nat)
    requires Sound(known) && FieldsOnlyBy(c, fields, x, marker, left)
    ensures Settled(known, DiscoverFields(c, known, fields, left), x, marker, FieldSecrets(c, fields, left))
    decreases left, 1, |fields|
  {
    if fields != [] {
      var n := |fields| - 1;
      assert FieldsOnlyBy(c, fields[..n], x, marker, left) by {
        assert forall i :: 0 <= i < n ==> fields[..n][i] == fields[i];
      }
      FieldsMark(c, known, fields[..n], x, marker, left);
      var before := DiscoverFields(c, known, fields[..n], left);
      FieldMarks(c, before, fields[n], x, marker, left);
    }
  }

  /** One field: its own value, if reserved, and whatever its value gives away. */
  lemma {:induction false} FieldMarks(c: Codec, known: seq<Secret>, field: Field, x: string, marker: string, left: nat)
    requires Sound(known)
    requires forall name :: (name == OPERATION_FIELD || name == BROKER_FIELD) && FieldHolds(c, field, name, x, left) ==>
      MarkedBy(name, marker)
    ensures var reserved := ReservedMarker(field.name);
            var next := if reserved.Some? then Remember(known, SecretText(c, field.value), reserved.value) else known;
            Settled(known, Discover(c, next, field.value, left), x, marker,
                    Reserved(c, field) + Secrets(c, field.value, left))
    decreases left, 0, 1
  {
    var reserved := ReservedMarker(field.name);
    ReservedIff(field.name);
    var next := known;
    if reserved.Some? {
      var value := SecretText(c, field.value);
      next := Remember(known, value, reserved.value);
      RememberDistinct(known, value, reserved.value);
      if Marked(known, x, marker) || (value == x && Memorable(x)) {
        assert value == x ==> FieldHolds(c, field, field.name, x, left);
        RememberMarks(known, value, reserved.value, x, marker);
      }
    }
    DiscoverMarks(c, next, field.value, x, marker, left);
  }

  lemma {:induction false} ItemsMark(c: Codec, known: seq<Secret>, items: seq<Json>, x: string, marker: string,
      left: nat)
    requires Sound(known) && ItemsOnlyBy(c, items, x, marker, left)
    ensures Settled(known, DiscoverItems(c, known, items, left), x, marker, ItemSecrets(c, items, left))
    decreases left, 1, |items|
  {
    if items != [] {
      var n := |items| - 1;
      assert ItemsOnlyBy(c, items[..n], x, marker, left);
      ItemsMark(c, known, items[..n], x, marker, left);
      DiscoverMarks(c, DiscoverItems(c, known, items[..n], left), items[n], x, marker, left);
    }
  }

  /**
   * A secret held by a reserved field within reach is known afterwards, with that field's marker as long as no field
   * of the other name holds the same.
   */
  lemma HeldIsLearned(c: Codec, known: seq<Secret>, v: Json, name: string, marker: string, x: string, left: nat)
    requires Sound(known) && MarkedBy(name, marker) && Learnable(x) && Holds(c, v, name, x, left)
    ensures var after := Discover(c, known, v, left);
            && x in Values(after)
            && (OnlyBy(c, v, x, marker, left) ==>
                  exists i :: 0 <= i < |after| && after[i].value == x && after[i].marker == marker
                    && forall j :: 0 <= j < |after| && after[j].value == x ==> j == i)
  {
    var after := Discover(c, known, v, left);
    SecretsIff(c, v, x, left);
    DiscoverValues(c, known, v, left);
    var i :| 0 <= i < |after| && ValueOf(after[i]) == x;
    if OnlyBy(c, v, x, marker, left) {
      DiscoverMarks(c, known, v, x, marker, left);
      assert after[i].value == x && after[i].marker == marker;
    }
  }

  // ---------------------------------------------------------------------------
  // What is left in the fields
  // ---------------------------------------------------------------------------

  /** The same value, but for reserved fields, which hold their markers, and texts, which may have been replaced. */
  ghost predicate Redacted(v: Json, out: Json, left: nat)
    decreases left
  {
    if left == 0 then out == v
    else match v
      case Object(fields) => out.Object? && FieldsRedacted(fields, out.fields, left)
      case List(items) =>
        && out.List? && |out.items| == |items|
        && forall i :: 0 <= i < |items| ==> Redacted(items[i], out.items[i], left - 1)
      case Text(_) => out.Text?
      case Scalar(_) => out == v
  }

  ghost predicate FieldsRedacted(fields: seq<Field>, out: seq<Field>, left: nat)
    requires left > 0
    decreases left, 0
  {
    && |out| == |fields|
    && forall i :: 0 <= i < |fields| ==>
         && out[i].name == fields[i].name
         && (fields[i].name == "_viventium_operation_token" ==> out[i].value == Text("[REDACTED_OPERATION_TOKEN]"))
         && (fields[i].name == "GLASSHIVE_CAPABILITY_BROKER_TOKEN" ==> out[i].value == Text("[REDACTED_BROKER_TOKEN]"))
         && (fields[i].name !in {"_viventium_operation_token", "GLASSHIVE_CAPABILITY_BROKER_TOKEN"} ==>
               Redacted(fields[i].value, out[i].value, left - 1))
  }

  /** Scrubbing redacts. */
  lemma {:induction false} ScrubRedacts(c: Codec, known: seq<Secret>, v: Json, left: nat)
    requires Usable(known)
    ensures Redacted(v, ScrubValue(c, known, v, left).out, left)
    decreases left, 0, 0
  {
    if left > 0 {
      match v
      case Object(fields) =>
        ScrubFieldsRedacts(c, known, fields, left);
        assert ScrubValue(c, known, v, left).out == Object(ScrubFields(c, known, fields, left - 1).out);
      case List(items) =>
        ScrubItemsRedacts(c, known, items, left);
        assert ScrubValue(c, known, v, left).out == List(ScrubItems(c, known, items, left - 1).out);
      case Text(_) =>
      case Scalar(_) =>
    }
  }

  lemma {:induction false} ScrubFieldsRedacts(c: Codec, known: seq<Secret>, fields: seq<Field>, left: nat)
    requires Usable(known) && left > 0
    ensures FieldsRedacted(fields, ScrubFields(c, known, fields, left - 1).out, left)
    decreases left - 1, 1, |fields|
  {
    if fields != [] {
      var n := |fields| - 1;
      ScrubFieldsRedacts(c, known, fields[..n], left);
      var before := ScrubFields(c, known, fields[..n], left - 1);
      FieldRedacted(c, before.known, fields[n], left);
      FieldsExtend(fields, before.out, ScrubField(c, before.known, fields[n], left - 1).out, left);
    }
  }

  lemma {:induction false} FieldRedacted(c: Codec, known: seq<Secret>, field: Field, left: nat)
    requires Usable(known) && left > 0
    ensures FieldsRedacted([field], [ScrubField(c, known, field, left - 1).out], left)
    decreases left - 1, 0, 1
  {
    ReservedIff(field.name);
    assert OPERATION_FIELD[0] != BROKER_FIELD[0];
    if ReservedMarker(field.name).None? { ScrubRedacts(c, known, field.value, left - 1); }
  }

  lemma FieldsExtend(fields: seq<Field>, out: seq<Field>, last: Field, left: nat)
    requires left > 0 && fields != []
    requires FieldsRedacted(fields[..|fields| - 1], out, left) && FieldsRedacted([fields[|fields| - 1]], [last], left)
    ensures FieldsRedacted(fields, out + [last], left)
  {
    var n := |fields| - 1;
    var all := out + [last];
    forall i | 0 <= i < |fields|
      ensures all[i].name == fields[i].name
        && (fields[i].name == "_viventium_operation_token" ==> all[i].value == Text("[REDACTED_OPERATION_TOKEN]"))
        && (fields[i].name == "GLASSHIVE_CAPABILITY_BROKER_TOKEN" ==> all[i].value == Text("[REDACTED_BROKER_TOKEN]"))
        && (fields[i].name !in {"_viventium_operation_token", "GLASSHIVE_CAPABILITY_BROKER_TOKEN"} ==>
              Redacted(fields[i].value, all[i].value, left - 1))
    {
      if i < n {
        assert fields[..n][i] == fields[i] && all[i] == out[i];
      } else {
        assert [fields[n]][0] == fields[i] && [last][0] == all[i];
      }
    }
  }

  lemma {:induction false} ScrubItemsRedacts(c: Codec, known: seq<Secret>, items: seq<Json>, left: nat)
    requires Usable(known) && left > 0
    ensures var out := ScrubItems(c, known, items, left - 1).out;
            |out| == |items| && forall i :: 0 <= i < |items| ==> Redacted(items[i], out[i], left - 1)
    decreases left - 1, 1, |items|
  {
    if items != [] {
      var n := |items| - 1;
      ScrubItemsRedacts(c, known, items[..n], left);
      ScrubRedacts(c, ScrubItems(c, known, items[..n], left - 1).known, items[n], left - 1);
    }
  }

  // ---------------------------------------------------------------------------
  // Lines and constructor values
  // ---------------------------------------------------------------------------

  /** The line is JSON, and its value gives the secret away. */
  ghost predicate LineGives(c: Codec, line: string, x: string) {
    exists w :: Spells(c, line, w) && Gives(c, w, x, 65)
  }

  lemma LineSecretsIff(c: Codec, line: string, x: string)
    ensures (Embedded(c, line).Some? && x in Secrets(c, Embedded(c, line).value, LEVELS)) <==>
            Learnable(x) && LineGives(c, line, x)
  {
    var v := Embedded(c, line);
    if v.Some? {
      SpellsIff(c, line, v.value);
      SecretsIff(c, v.value, x, 65);
    }
    forall w | Spells(c, line, w) ensures v == Some(w) { SpellsIff(c, line, w); }
  }

  ghost predicate SomeLineGives(c: Codec, pieces: seq<string>, x: string) {
    exists k :: 0 <= k < |pieces| && LineGives(c, pieces[k], x)
  }

  lemma SomeLineOfMore(c: Codec, front: seq<string>, last: string, x: string)
    ensures SomeLineGives(c, front + [last], x) <==> SomeLineGives(c, front, x) || LineGives(c, last, x)
  {
    var all := front + [last];
    assert forall k :: 0 <= k < |front| ==> all[k] == front[k];
    if k :| 0 <= k < |all| && LineGives(c, all[k], x) {
      if k < |front| { assert LineGives(c, front[k], x); }
    }
    if k :| 0 <= k < |front| && LineGives(c, front[k], x) { assert LineGives(c, all[k], x); }
    if LineGives(c, last, x) { assert LineGives(c, all[|front|], x); }
  }

  lemma SecretsOfMore(c: Codec, front: seq<string>, last: string, x: string)
    ensures x in TextSecrets(c, front + [last]) <==>
            x in TextSecrets(c, front) || (Embedded(c, last).Some? && x in Secrets(c, Embedded(c, last).value, LEVELS))
  {
    assert (front + [last])[..|front|] == front;
  }

  /** A text gives away what its lines give away. */
  lemma {:induction false} LinesGive(c: Codec, pieces: seq<string>, x: string)
    ensures x in TextSecrets(c, pieces) <==> Learnable(x) && SomeLineGives(c, pieces, x)
  {
    if pieces != [] {
      var n := |pieces| - 1;
      var front, last := pieces[..n], pieces[n];
      LinesGive(c, front, x);
      LineSecretsIff(c, last, x);
      SecretsOfMore(c, front, last, x);
      SomeLineOfMore(c, front, last, x);
      assert pieces == front + [last];
    }
  }

  /** A JSON line becomes its redacted value, rendered, unless redaction changed nothing; its ending stays. */
  lemma JsonLineRedacted(c: Codec, known: seq<Secret>, line: string, ending: string, v: Json)
    requires Usable(known) && Body(line + ending) == line && Spells(c, line, v)
    ensures var r := ScrubPiece(c, known, line + ending);
            var w := ScrubValue(c, known, v, 65).out;
            && Redacted(v, w, 65)
            && (w != v ==> r.out == c.dump(w) + ending)
  {
    SpellsIff(c, line, v);
    ScrubRedacts(c, known, v, 65);
    assert (line + ending)[|line|..] == ending;
  }
}
