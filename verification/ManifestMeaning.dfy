/** Which manifests are understood and what their normal form says, field by field. */
module ManifestMeaning {
  import opened Prelude
  import opened Strings
  import opened Bundles
  import opened SemanticVersions
  import opened SortedTexts
  import opened Manifests

  // ---------------------------------------------------------------------------
  // Patterns
  // ---------------------------------------------------------------------------

  const LETTERS := "abcdefghijklmnopqrstuvwxyz"
  const NUMERALS := "0123456789"
  const MARKS := "._-"

  predicate IsIdChar(ch: char) {
    ch in LETTERS || ch in NUMERALS || ch in MARKS
  }

  predicate IsLabelText(s: string) {
    1 <= |s| <= 64 && s[0] in LETTERS && forall i :: 0 <= i < |s| ==> IsIdChar(s[i])
  }

  /** Two labels around a colon. */
  ghost predicate IsScopeText(s: string) {
    exists k :: 0 < k < |s| && ColonAt(s, k) && IsLabelText(s[..k]) && IsLabelText(s[k + 1..])
  }

  predicate ColonAt(s: string, k: nat) {
    k < |s| && s[k] == ':'
  }

  predicate IsIdText(s: string) {
    3 <= |s| <= 200 && (s[0] in LETTERS || s[0] in NUMERALS) && forall i :: 0 <= i < |s| ==> IsIdChar(s[i])
  }

  predicate IsHashText(s: string) {
    && |s| == 71 && s[..7] == "sha256:"
    && forall i :: 7 <= i < 71 ==> s[i] in "0123456789abcdef"
  }

  lemma CharIff(ch: char)
    ensures IsLowerOrDigit(ch) <==> ch in LETTERS || ch in NUMERALS
    ensures IsMark(ch) <==> ch in MARKS
    ensures 'a' <= ch <= 'z' <==> ch in LETTERS
    ensures '0' <= ch <= '9' <==> ch in NUMERALS
    ensures '0' <= ch <= '9' || 'a' <= ch <= 'f' <==> ch in "0123456789abcdef"
  {
    LetterIff(ch);
    DigitIff(ch);
    HexIff(ch);
    assert IsMark(ch) ==> MARKS[0] == ch || MARKS[1] == ch || MARKS[2] == ch;
  }

  lemma LetterIff(ch: char)
    ensures 'a' <= ch <= 'z' <==> ch in LETTERS
  {
    if 'a' <= ch <= 'z' { assert LETTERS[(ch as int) - ('a' as int)] == ch; }
  }

  lemma DigitIff(ch: char)
    ensures '0' <= ch <= '9' <==> ch in NUMERALS
  {
    if '0' <= ch <= '9' { assert NUMERALS[(ch as int) - ('0' as int)] == ch; }
  }

  lemma HexIff(ch: char)
    ensures '0' <= ch <= '9' || 'a' <= ch <= 'f' <==> ch in "0123456789abcdef"
  {
    var hex := "0123456789abcdef";
    if '0' <= ch <= '9' { assert hex[(ch as int) - ('0' as int)] == ch; }
    if 'a' <= ch <= 'f' { assert hex[(ch as int) - ('a' as int) + 10] == ch; }
  }

  lemma LabelIff(s: string)
    ensures IsLabel(s) <==> IsLabelText(s)
  {
    forall i | 0 <= i < |s| ensures IsLowerOrDigit(s[i]) || IsMark(s[i]) <==> IsIdChar(s[i]) { CharIff(s[i]); }
    if s != "" { CharIff(s[0]); }
  }

  lemma StableIdIff(s: string)
    ensures IsStableId(s) <==> IsIdText(s)
  {
    forall i | 0 <= i < |s| ensures IsLowerOrDigit(s[i]) || IsMark(s[i]) <==> IsIdChar(s[i]) { CharIff(s[i]); }
    if s != "" { CharIff(s[0]); }
  }

  lemma HashIff(s: string)
    ensures IsHash(s) <==> IsHashText(s)
  {
    forall i | 0 <= i < |s| ensures '0' <= s[i] <= '9' || 'a' <= s[i] <= 'f' <==> s[i] in "0123456789abcdef" {
      CharIff(s[i]);
    }
    if |s| == 71 { assert "sha256:" <= s <==> s[..7] == "sha256:"; }
  }

  lemma {:induction false} SplitsAtOnly(s: string, sep: char, k: nat)
    requires k < |s| && s[k] == sep && forall i :: 0 <= i < |s| && i != k ==> s[i] != sep
    ensures SplitOn(s, sep) == [s[..k], s[k + 1..]]
  {
    if k == 0 {
      SplitsInOne(s[1..], sep);
    } else {
      SplitsAtOnly(s[1..], sep, k - 1);
      assert [s[0]] + s[1..][..k - 1] == s[..k] && s[1..][k..] == s[k + 1..];
    }
  }

  lemma {:induction false} OnePiece(s: string, sep: char)
    ensures |SplitOn(s, sep)| == 1 ==> SplitOn(s, sep)[0] == s
  {
    if s != "" {
      OnePiece(s[1..], sep);
      assert s == [s[0]] + s[1..];
    }
  }

  lemma {:induction false} TwoPieces(s: string, sep: char)
    requires |SplitOn(s, sep)| == 2
    ensures s == SplitOn(s, sep)[0] + ([sep] + SplitOn(s, sep)[1])
  {
    var rest := SplitOn(s[1..], sep);
    assert s == [s[0]] + s[1..];
    if s[0] == sep {
      OnePiece(s[1..], sep);
      assert "" + ([sep] + rest[0]) == s;
    } else {
      TwoPieces(s[1..], sep);
      assert [s[0]] + (rest[0] + ([sep] + rest[1])) == [s[0]] + rest[0] + ([sep] + rest[1]);
    }
  }

  lemma ScopeIff(s: string)
    ensures IsScope(s) <==> IsScopeText(s)
  {
    var parts := SplitOn(s, ':');
    if IsScope(s) {
      TwoPieces(s, ':');
      LabelIff(parts[0]);
      LabelIff(parts[1]);
      var k := |parts[0]|;
      assert s[..k] == parts[0] && s[k + 1..] == parts[1] && ColonAt(s, k);
    }
    if IsScopeText(s) {
      var k :| 0 < k < |s| && ColonAt(s, k) && IsLabelText(s[..k]) && IsLabelText(s[k + 1..]);
      LabelIff(s[..k]);
      LabelIff(s[k + 1..]);
      forall i | 0 <= i < |s| && i != k ensures s[i] != ':' {
        if i < k { assert IsIdChar(s[..k][i]); } else { assert IsIdChar(s[k + 1..][i - k - 1]); }
      }
      SplitsAtOnly(s, ':', k);
    }
  }

  // ---------------------------------------------------------------------------
  // Lists of texts
  // ---------------------------------------------------------------------------

  /** Every entry says something short enough, and no two the same. */
  predicate NeatEntries(c: Checks, values: seq<Json>, maximum: nat) {
    && (forall i :: 0 <= i < |values| ==> Shown(c, values[i]) != "" && |Shown(c, values[i])| <= maximum)
    && forall i, j :: 0 <= i < j < |values| ==> Shown(c, values[i]) != Shown(c, values[j])
  }

  function AllShown(c: Checks, values: seq<Json>): seq<string> {
    seq(|values|, i requires 0 <= i < |values| => Shown(c, values[i]))
  }

  lemma {:induction false} CleanFrom(c: Checks, values: seq<Json>, maximum: nat, k: nat)
    requires k <= |values| && NeatEntries(c, values[..k], maximum)
    ensures var r := Clean(c, values[k..], maximum, AllShown(c, values)[..k]);
            && (r.Some? <==> NeatEntries(c, values, maximum))
            && (r.Some? ==> r.value == AllShown(c, values))
    decreases |values| - k
  {
    var shown := AllShown(c, values);
    if k == |values| {
      assert values[..k] == values && shown[..k] == shown;
    } else {
      var text := Shown(c, values[k]);
      assert values[k..][0] == values[k] && values[k..][1..] == values[k + 1..];
      if text == "" || |text| > maximum || text in shown[..k] {
        NotNeat(c, values, maximum, k);
      } else {
        assert shown[..k] + [text] == shown[..k + 1];
        NeatMore(c, values, maximum, k);
        CleanFrom(c, values, maximum, k + 1);
      }
    }
  }

  lemma NeatMore(c: Checks, values: seq<Json>, maximum: nat, k: nat)
    requires k < |values| && NeatEntries(c, values[..k], maximum)
    requires var text := Shown(c, values[k]); text != "" && |text| <= maximum && text !in AllShown(c, values)[..k]
    ensures NeatEntries(c, values[..k + 1], maximum)
  {
    var less, more, shown := values[..k], values[..k + 1], AllShown(c, values)[..k];
    forall i | 0 <= i < |more| ensures Shown(c, more[i]) != "" && |Shown(c, more[i])| <= maximum {
      if i < k { assert more[i] == less[i]; }
    }
    forall i, j | 0 <= i < j < |more| ensures Shown(c, more[i]) != Shown(c, more[j]) {
      if j < k { assert more[i] == less[i] && more[j] == less[j]; } else { assert shown[i] == Shown(c, more[i]); }
    }
  }

  lemma NotNeat(c: Checks, values: seq<Json>, maximum: nat, k: nat)
    requires k < |values|
    requires var text := Shown(c, values[k]); text == "" || |text| > maximum || text in AllShown(c, values)[..k]
    ensures !NeatEntries(c, values, maximum)
  {
    var text := Shown(c, values[k]);
    if text in AllShown(c, values)[..k] {
      var i :| 0 <= i < k && AllShown(c, values)[..k][i] == text;
      assert Shown(c, values[i]) == Shown(c, values[k]);
    }
  }

  /** A list is cleaned exactly when it is neat, to what its entries say, in order. */
  lemma CleanIff(c: Checks, values: seq<Json>, maximum: nat)
    ensures var r := Clean(c, values, maximum, []);
            && (r.Some? <==> NeatEntries(c, values, maximum))
            && (r.Some? ==> r.value == AllShown(c, values))
  {
    CleanFrom(c, values, maximum, 0);
    assert values[0..] == values && AllShown(c, values)[..0] == [];
  }

  /** A list of just these texts, each once, in ascending order. */
  predicate ListsTexts(v: Json, xs: seq<string>) {
    && v.List? && (forall i :: 0 <= i < |v.items| ==> v.items[i].Text? && v.items[i].text in xs)
    && (forall i, j :: 0 <= i < j < |v.items| ==> TextLess(v.items[i].text, v.items[j].text))
    && forall x :: x in xs ==> Text(x) in v.items
  }

  lemma SortedLists(xs: seq<string>)
    ensures ListsTexts(Sorted(xs), xs)
  {
    SortedElements(xs);
    SortedAscends(xs);
    var ys := SortedSet(xs);
    forall i | 0 <= i < |ys| ensures ys[i] in xs { assert ys[i] in ys; }
    forall x | x in xs ensures Text(x) in Texts(ys) {
      var i :| 0 <= i < |ys| && ys[i] == x;
      assert Texts(ys)[i] == Text(x);
    }
  }

  // ---------------------------------------------------------------------------
  // Pins
  // ---------------------------------------------------------------------------

  /** The pinned package an entry names. */
  function PinnedId(c: Checks, v: Json): string
    requires v.Object? && "stable_id" in v.fields
  {
    Lower(Shown(c, v.fields["stable_id"]))
  }

  /** An entry pins another package's version and content, and scopes spelled as such. */
  ghost predicate IsPin(c: Checks, v: Json, own: string) {
    && v.Object? && v.fields.Keys == {"stable_id", "version", "content_hash", "scopes"}
    && IsIdText(PinnedId(c, v)) && PinnedId(c, v) != own
    && IsVersion(Shown(c, v.fields["version"]))
    && IsHashText(Lower(Shown(c, v.fields["content_hash"])))
    && v.fields["scopes"].List?
    && forall i :: 0 <= i < |v.fields["scopes"].items| ==> IsScopeText(Str(c, v.fields["scopes"].items[i]))
  }

  /** The pin as normalised: the same identity, and the same scopes as a sorted list. */
  predicate PinSays(c: Checks, v: Json, p: Json)
    requires v.Object? && v.fields.Keys == {"stable_id", "version", "content_hash", "scopes"}
    requires v.fields["scopes"].List?
  {
    && p.Object? && p.fields.Keys == {"stable_id", "version", "content_hash", "scopes"}
    && p.fields["stable_id"] == Text(PinnedId(c, v)) && p.fields["version"] == Text(Shown(c, v.fields["version"]))
    && p.fields["content_hash"] == Text(Lower(Shown(c, v.fields["content_hash"])))
    && ListsTexts(p.fields["scopes"], Strs(c, v.fields["scopes"].items))
  }

  predicate AllScopes(c: Checks, items: seq<Json>) {
    forall i :: 0 <= i < |items| ==> IsScope(Str(c, items[i]))
  }

  lemma AllScopesIff(c: Checks, items: seq<Json>)
    ensures AllScopes(c, items) <==> forall i :: 0 <= i < |items| ==> IsScopeText(Str(c, items[i]))
  {
    forall i | 0 <= i < |items| ensures IsScope(Str(c, items[i])) <==> IsScopeText(Str(c, items[i])) {
      ScopeIff(Str(c, items[i]));
    }
  }

  lemma PinOkIff(c: Checks, v: Json, own: string, result: seq<Json>)
    requires v.Object? && v.fields.Keys == {"stable_id", "version", "content_hash", "scopes"}
    ensures Pin(c, v, own, result).Some? <==>
            && IsStableId(PinnedId(c, v)) && PinnedId(c, v) != own && !Pinned(result, PinnedId(c, v))
            && IsVersion(Shown(c, v.fields["version"])) && IsHash(Lower(Shown(c, v.fields["content_hash"])))
            && v.fields["scopes"].List? && AllScopes(c, v.fields["scopes"].items)
  {
  }

  lemma PinSaid(c: Checks, v: Json, own: string, result: seq<Json>)
    requires Pin(c, v, own, result).Some?
    ensures PinSays(c, v, Pin(c, v, own, result).value)
  {
    SortedLists(Strs(c, v.fields["scopes"].items));
  }

  lemma PinIff(c: Checks, v: Json, own: string, result: seq<Json>)
    ensures var r := Pin(c, v, own, result);
            && (r.Some? <==> IsPin(c, v, own) && !Pinned(result, PinnedId(c, v)))
            && (r.Some? ==> PinSays(c, v, r.value))
  {
    if v.Object? && v.fields.Keys == {"stable_id", "version", "content_hash", "scopes"} {
      PinOkIff(c, v, own, result);
      StableIdIff(PinnedId(c, v));
      HashIff(Lower(Shown(c, v.fields["content_hash"])));
      if v.fields["scopes"].List? { AllScopesIff(c, v.fields["scopes"].items); }
    }
    if Pin(c, v, own, result).Some? { PinSaid(c, v, own, result); }
  }

  predicate SamePackage(c: Checks, v: Json, w: Json) {
    && v.Object? && "stable_id" in v.fields && w.Object? && "stable_id" in w.fields
    && PinnedId(c, v) == PinnedId(c, w)
  }

  /** Entries that are all pins, of different packages. */
  ghost predicate ArePins(c: Checks, values: seq<Json>, own: string) {
    && (forall i :: 0 <= i < |values| ==> IsPin(c, values[i], own))
    && forall i, j :: 0 <= i < j < |values| ==> !SamePackage(c, values[i], values[j])
  }

  ghost predicate PinsSay(c: Checks, values: seq<Json>, ps: seq<Json>, own: string)
    requires ArePins(c, values, own)
  {
    |ps| == |values| && forall i :: 0 <= i < |ps| ==> PinSays(c, values[i], ps[i])
  }

  ghost predicate AnySame(c: Checks, values: seq<Json>, v: Json) {
    exists i :: 0 <= i < |values| && SamePackage(c, values[i], v)
  }

  lemma PinnedIff(c: Checks, values: seq<Json>, ps: seq<Json>, own: string, v: Json)
    requires ArePins(c, values, own) && PinsSay(c, values, ps, own) && IsPin(c, v, own)
    ensures Pinned(ps, PinnedId(c, v)) <==> AnySame(c, values, v)
  {
    var id := PinnedId(c, v);
    forall i | 0 <= i < |values|
      ensures ps[i].Object? && (Lookup(ps[i].fields, "stable_id") == Some(Text(id)) <==> SamePackage(c, values[i], v))
    {
      assert PinSays(c, values[i], ps[i]);
    }
  }

  lemma OneMorePin(c: Checks, less: seq<Json>, more: seq<Json>, v: Json, own: string)
    requires more == less + [v] && ArePins(c, less, own) && IsPin(c, v, own) && !AnySame(c, less, v)
    ensures ArePins(c, more, own)
  {
    forall i | 0 <= i < |more| ensures IsPin(c, more[i], own) {
      if i < |less| { assert IsPin(c, less[i], own); }
    }
    forall i, j | 0 <= i < j < |more| ensures !SamePackage(c, more[i], more[j]) {
      if j < |less| { assert !SamePackage(c, less[i], less[j]); } else { assert !SamePackage(c, less[i], v); }
    }
  }

  lemma OnePinLess(c: Checks, less: seq<Json>, more: seq<Json>, v: Json, own: string)
    requires more == less + [v] && ArePins(c, more, own)
    ensures IsPin(c, v, own) && !AnySame(c, less, v)
  {
    assert IsPin(c, more[|less|], own);
    forall i | 0 <= i < |less| ensures !SamePackage(c, less[i], v) {
      assert !SamePackage(c, more[i], more[|less|]);
    }
  }

  lemma ArePinsMore(c: Checks, values: seq<Json>, own: string, k: nat)
    requires k < |values| && ArePins(c, values[..k], own)
    ensures ArePins(c, values[..k + 1], own) <==>
            IsPin(c, values[k], own) && !AnySame(c, values[..k], values[k])
  {
    var less, more := values[..k], values[..k + 1];
    assert more == less + [values[k]];
    if ArePins(c, more, own) { OnePinLess(c, less, more, values[k], own); }
    if IsPin(c, values[k], own) && !AnySame(c, less, values[k]) { OneMorePin(c, less, more, values[k], own); }
  }

  lemma {:induction false} TakeFrom(c: Checks, values: seq<Json>, own: string, k: nat, ps: seq<Json>)
    requires k <= |values| && ArePins(c, values[..k], own) && PinsSay(c, values[..k], ps, own)
    ensures var r := Take(Pins(c, own), values[k..], ps);
            && (r.Some? <==> ArePins(c, values, own))
            && (r.Some? ==> PinsSay(c, values, r.value, own))
    decreases |values| - k
  {
    if k == |values| {
      assert values[..k] == values;
    } else {
      assert values[k..][0] == values[k] && values[k..][1..] == values[k + 1..];
      PinIff(c, values[k], own, ps);
      ArePinsMore(c, values, own, k);
      var p := Pin(c, values[k], own, ps);
      if IsPin(c, values[k], own) { PinnedIff(c, values[..k], ps, own, values[k]); }
      if p.Some? {
        PinsSayMore(c, values, own, k, ps, p.value);
        TakeFrom(c, values, own, k + 1, ps + [p.value]);
      } else {
        PrefixPins(c, values, own, k + 1);
      }
    }
  }

  lemma PinsSayMore(c: Checks, values: seq<Json>, own: string, k: nat, ps: seq<Json>, p: Json)
    requires k < |values| && ArePins(c, values[..k], own) && PinsSay(c, values[..k], ps, own)
    requires ArePins(c, values[..k + 1], own) && IsPin(c, values[k], own) && PinSays(c, values[k], p)
    ensures PinsSay(c, values[..k + 1], ps + [p], own)
  {
    forall i | 0 <= i < k + 1 ensures PinSays(c, values[..k + 1][i], (ps + [p])[i]) {
      if i < k { assert PinSays(c, values[..k][i], ps[i]); }
    }
  }

  lemma PrefixPins(c: Checks, values: seq<Json>, own: string, k: nat)
    requires k <= |values|
    ensures ArePins(c, values, own) ==> ArePins(c, values[..k], own)
  {
  }

  /** Dependencies are accepted exactly when they are at most 32 pins of different packages, and each is kept. */
  lemma DependenciesIff(c: Checks, v: Json, own: string)
    ensures var r := Dependencies(c, v, own);
            && (r.Ok? <==> v.List? && |v.items| <= 32 && ArePins(c, v.items, own))
            && (r.Ok? ==> PinsSay(c, v.items, r.value, own))
  {
    if v.List? {
      TakeFrom(c, v.items, own, 0, []);
      assert v.items[0..] == v.items && v.items[..0] == [];
    }
  }

  // ---------------------------------------------------------------------------
  // Profiles, scopes, provenance and probe
  // ---------------------------------------------------------------------------

  /** At least one profile, each of the two there are, none twice. */
  predicate AreProfiles(c: Checks, v: Json) {
    && v.List? && v.items != [] && NeatEntries(c, v.items, 64)
    && forall i :: 0 <= i < |v.items| ==> Shown(c, v.items[i]) == "codex-cli" || Shown(c, v.items[i]) == "claude-code"
  }

  lemma InProfilesIff(xs: seq<string>)
    ensures (forall x :: x in xs ==> x in PROFILES) <==>
            forall i :: 0 <= i < |xs| ==> xs[i] == "codex-cli" || xs[i] == "claude-code"
  {
    if forall x :: x in xs ==> x in PROFILES {
      forall i | 0 <= i < |xs| ensures xs[i] == "codex-cli" || xs[i] == "claude-code" { assert xs[i] in PROFILES; }
    }
  }

  lemma ProfilesIff(c: Checks, v: Json)
    ensures Profiles(c, v).Ok? <==> AreProfiles(c, v)
    ensures Profiles(c, v).Ok? ==> Profiles(c, v).value == AllShown(c, v.items)
  {
    if v.List? {
      CleanIff(c, v.items, 64);
      var xs := AllShown(c, v.items);
      InProfilesIff(xs);
      assert forall i :: 0 <= i < |xs| ==> xs[i] == Shown(c, v.items[i]);
    }
  }

  /** Scopes spelled as such, none twice. */
  ghost predicate AreScopes(c: Checks, v: Json) {
    && v.List? && NeatEntries(c, v.items, 129)
    && forall i :: 0 <= i < |v.items| ==> IsScopeText(Shown(c, v.items[i]))
  }

  lemma ScopesIff(c: Checks, v: Json)
    ensures Scopes(c, v).Ok? <==> AreScopes(c, v)
    ensures Scopes(c, v).Ok? ==> Scopes(c, v).value == AllShown(c, v.items)
  {
    if v.List? {
      CleanIff(c, v.items, 129);
      var xs := AllShown(c, v.items);
      assert forall i :: 0 <= i < |xs| ==> xs[i] == Shown(c, v.items[i]) && xs[i] in xs;
      forall i | 0 <= i < |v.items| ensures IsScope(Shown(c, v.items[i])) <==> IsScopeText(Shown(c, v.items[i])) {
        ScopeIff(Shown(c, v.items[i]));
      }
    }
  }

  /** What a field says, nothing if it is not there. */
  function Said(c: Checks, fields: Fields, key: string): string {
    if key in fields then Shown(c, fields[key]) else ""
  }

  predicate IsProvenance(c: Checks, v: Json) {
    && v.Object? && c.uri(Said(c, v.fields, "source"))
    && 1 <= |Said(c, v.fields, "publisher")| <= 160 && 1 <= |Said(c, v.fields, "revision")| <= 200
  }

  /** Nothing but the three fields, as they were said. */
  predicate ProvenanceSays(c: Checks, v: Json, p: Json)
    requires v.Object?
  {
    && p.Object? && p.fields.Keys == {"source", "publisher", "revision"}
    && forall key :: key in p.fields ==> p.fields[key] == Text(Said(c, v.fields, key))
  }

  lemma ProvenanceIff(c: Checks, v: Json)
    ensures var r := Provenance(c, v);
            && (r.Ok? <==> IsProvenance(c, v))
            && (r.Ok? ==> ProvenanceSays(c, v, r.value))
  {
  }

  /** What a probe field requires: its entries, or a text's characters; nothing if it is not there. */
  predicate Requires(c: Checks, fields: Fields, key: string, xs: seq<string>) {
    if key !in fields then xs == []
    else if fields[key].List? then xs == AllShown(c, fields[key].items)
    else
      && fields[key].Text? && |xs| == |fields[key].text|
      && forall i :: 0 <= i < |xs| ==> xs[i] == Trim([fields[key].text[i]])
  }

  lemma RequiredIff(c: Checks, fields: Fields, key: string)
    ensures var r := Required(c, fields, key);
            && (r.Some? <==> Listable(fields, key))
            && (r.Some? ==> Requires(c, fields, key, r.value))
  {
  }

  predicate IsServerText(s: string) {
    1 <= |s| <= 120
    && forall i :: 0 <= i < |s| ==>
         IsIdChar(s[i]) || s[i] in "ABCDEFGHIJKLMNOPQRSTUVWXYZ" || s[i] == ':'
  }

  lemma UpperIff(ch: char)
    ensures 'A' <= ch <= 'Z' <==> ch in "ABCDEFGHIJKLMNOPQRSTUVWXYZ"
  {
    var upper := "ABCDEFGHIJKLMNOPQRSTUVWXYZ";
    if 'A' <= ch <= 'Z' { assert upper[(ch as int) - ('A' as int)] == ch; }
  }

  lemma ServerIff(s: string)
    ensures IsServer(s) <==> IsServerText(s)
  {
    forall i | 0 <= i < |s|
      ensures IsLowerOrDigit(s[i]) || IsMark(s[i]) <==> IsIdChar(s[i])
      ensures 'A' <= s[i] <= 'Z' <==> s[i] in "ABCDEFGHIJKLMNOPQRSTUVWXYZ"
    {
      CharIff(s[i]);
      UpperIff(s[i]);
    }
  }

  /** Something is required, and everything required is spelled as a file, a bundle key or a server. */
  predicate Probes(files: seq<string>, keys: seq<string>, servers: seq<string>) {
    && (files != [] || keys != [] || servers != [])
    && (forall i :: 0 <= i < |files| ==> 1 <= |files[i]| <= 240)
    && (forall i :: 0 <= i < |keys| ==> keys[i] in {"claude_project_mcp", "codex_config_append", "files"})
    && forall i :: 0 <= i < |servers| ==> IsServerText(servers[i])
  }

  lemma ProbesIff(files: seq<string>, keys: seq<string>, servers: seq<string>)
    ensures ProbeFits(files, keys, servers) <==> Probes(files, keys, servers)
  {
    forall i | 0 <= i < |servers| ensures IsServer(servers[i]) <==> IsServerText(servers[i]) { ServerIff(servers[i]); }
    assert forall i :: 0 <= i < |servers| ==> servers[i] in servers;
    assert forall i :: 0 <= i < |keys| ==> keys[i] in keys;
    assert forall i :: 0 <= i < |files| ==> files[i] in files;
  }

  predicate ProbeShaped(v: Json) {
    && v.Object? && "type" in v.fields && v.fields["type"] == Text("bootstrap_contract")
    && v.fields.Keys <= {"type", "required_files", "required_bundle_keys", "required_mcp_servers"}
    && Listable(v.fields, "required_files") && Listable(v.fields, "required_bundle_keys")
    && Listable(v.fields, "required_mcp_servers")
  }

  predicate Listable(fields: Fields, key: string) {
    key in fields ==> fields[key].List? || fields[key].Text?
  }

  predicate ProbeOfThese(c: Checks, v: Json, files: seq<string>, keys: seq<string>, servers: seq<string>) {
    && ProbeShaped(v) && Probes(files, keys, servers)
    && Requires(c, v.fields, "required_files", files)
    && Requires(c, v.fields, "required_bundle_keys", keys)
    && Requires(c, v.fields, "required_mcp_servers", servers)
  }

  ghost predicate IsProbe(c: Checks, v: Json) {
    exists files, keys, servers :: ProbeOfThese(c, v, files, keys, servers)
  }

  /** The probe as normalised: the same requirements, each list sorted and without duplicates. */
  ghost predicate ProbeSays(c: Checks, v: Json, p: Json) {
    && p.Object? && p.fields.Keys == {"type", "required_files", "required_bundle_keys", "required_mcp_servers"}
    && p.fields["type"] == Text("bootstrap_contract")
    && exists files, keys, servers ::
         && ProbeOfThese(c, v, files, keys, servers)
         && ListsTexts(p.fields["required_files"], files) && ListsTexts(p.fields["required_bundle_keys"], keys)
         && ListsTexts(p.fields["required_mcp_servers"], servers)
  }

  lemma RequiresOnce(c: Checks, fields: Fields, key: string, xs: seq<string>, ys: seq<string>)
    requires Requires(c, fields, key, xs) && Requires(c, fields, key, ys)
    ensures xs == ys
  {
  }

  lemma ShapedIs(v: Json)
    requires ProbeShaped(v)
    ensures Lookup(v.fields, "type") == Some(Text("bootstrap_contract")) && v.fields.Keys <= PROBE_FIELDS
  {
  }

  lemma ProbeOkIff(c: Checks, v: Json)
    requires v.Object? && Lookup(v.fields, "type") == Some(Text("bootstrap_contract"))
    requires v.fields.Keys <= PROBE_FIELDS
    ensures ProbeOf(c, v) == ProbeFrom(Required(c, v.fields, "required_files"),
                                       Required(c, v.fields, "required_bundle_keys"),
                                       Required(c, v.fields, "required_mcp_servers"))
  {
  }

  lemma ThoseRequired(c: Checks, v: Json, files: seq<string>, keys: seq<string>, servers: seq<string>)
    requires ProbeShaped(v)
    requires Requires(c, v.fields, "required_files", files) && Requires(c, v.fields, "required_bundle_keys", keys)
    requires Requires(c, v.fields, "required_mcp_servers", servers)
    ensures IsProbe(c, v) <==> Probes(files, keys, servers)
  {
    if Probes(files, keys, servers) { assert ProbeOfThese(c, v, files, keys, servers); }
    if IsProbe(c, v) {
      var fs, ks, ss :| ProbeOfThese(c, v, fs, ks, ss);
      RequiresOnce(c, v.fields, "required_files", fs, files);
      RequiresOnce(c, v.fields, "required_bundle_keys", ks, keys);
      RequiresOnce(c, v.fields, "required_mcp_servers", ss, servers);
    }
  }

  lemma ProbeSaid(c: Checks, v: Json, files: seq<string>, keys: seq<string>, servers: seq<string>)
    requires ProbeOfThese(c, v, files, keys, servers)
    ensures ProbeSays(c, v, ProbeObject(Sorted(files), Sorted(keys), Sorted(servers)))
  {
    SortedLists(files);
    SortedLists(keys);
    SortedLists(servers);
    ProbeFieldsSorted(Sorted(files), Sorted(keys), Sorted(servers));
  }

  lemma ProbeFieldsSorted(files: Json, keys: Json, servers: Json)
    ensures var p := ProbeObject(files, keys, servers);
            && p.Object? && p.fields.Keys == {"type", "required_files", "required_bundle_keys", "required_mcp_servers"}
            && p.fields["type"] == Text("bootstrap_contract") && p.fields["required_files"] == files
            && p.fields["required_bundle_keys"] == keys && p.fields["required_mcp_servers"] == servers
  {
  }

  /** A probe is accepted exactly when what it requires can be read and is spelled as it should, and it keeps it all. */
  lemma ProbeIff(c: Checks, v: Json)
    ensures var r := ProbeOf(c, v);
            && (r.Ok? <==> IsProbe(c, v))
            && (r.Ok? ==> ProbeSays(c, v, r.value))
  {
    if ProbeShaped(v) {
      RequiredIff(c, v.fields, "required_files");
      RequiredIff(c, v.fields, "required_bundle_keys");
      RequiredIff(c, v.fields, "required_mcp_servers");
      var files, keys, servers := Required(c, v.fields, "required_files").value,
        Required(c, v.fields, "required_bundle_keys").value, Required(c, v.fields, "required_mcp_servers").value;
      ProbesIff(files, keys, servers);
      ShapedIs(v);
      ProbeOkIff(c, v);
      ThoseRequired(c, v, files, keys, servers);
      if Probes(files, keys, servers) { ProbeSaid(c, v, files, keys, servers); }
    } else {
      UnshapedRefused(c, v);
    }
  }

  lemma UnshapedRefused(c: Checks, v: Json)
    requires !ProbeShaped(v)
    ensures ProbeOf(c, v).Err?
  {
    if v.Object? {
      RequiredIff(c, v.fields, "required_files");
      RequiredIff(c, v.fields, "required_bundle_keys");
      RequiredIff(c, v.fields, "required_mcp_servers");
    }
  }

  // ---------------------------------------------------------------------------
  // Activation
  // ---------------------------------------------------------------------------

  predicate Present(fields: Fields, key: string) {
    key in fields && !fields[key].Null?
  }

  /** The profile's bundle: the common one, or where there are bundles by profile instead, its own. */
  predicate Offers(activation: Fields, profile: string, b: Bundle) {
    && b != map[]
    && if Present(activation, "profiles") then
         && !Present(activation, "bundle") && activation["profiles"].Object?
         && activation["profiles"].fields.Keys <= {"codex-cli", "claude-code"}
         && profile in activation["profiles"].fields && activation["profiles"].fields[profile] == Object(b)
       else "bundle" in activation && activation["bundle"] == Object(b)
  }

  lemma BundleForIff(activation: Fields, profile: string, b: Bundle)
    ensures BundleFor(activation, profile) == Some(b) <==> Offers(activation, profile, b)
  {
  }

  /** Files that may be listed: few, each acceptable, all at different paths; or nothing in their place. */
  predicate FilesMay(c: Checks, b: Bundle) {
    "files" in b && Truthy(b["files"]) ==>
      && b["files"].List? && |b["files"].items| <= 128
      && (forall i :: 0 <= i < |b["files"].items| ==> c.file(b["files"].items[i]))
      && forall i, j :: 0 <= i < j < |b["files"].items| ==> c.path(b["files"].items[i]) != c.path(b["files"].items[j])
  }

  predicate BundleMay(c: Checks, b: Bundle, profile: string) {
    && b.Keys <= {"files", if profile == "codex-cli" then "codex_config_append" else "claude_project_mcp"}
    && FilesMay(c, b) && c.servers(b, profile)
  }

  ghost predicate OffersGood(c: Checks, activation: Fields, profile: string) {
    exists b :: Offers(activation, profile, b) && BundleMay(c, b, profile)
  }

  ghost predicate IsActivation(c: Checks, v: Json, profiles: seq<string>) {
    && v.Object? && v.fields.Keys <= {"type", "bundle", "profiles"}
    && "type" in v.fields && v.fields["type"] == Text("bootstrap_bundle")
    && forall i :: 0 <= i < |profiles| ==> OffersGood(c, v.fields, profiles[i])
  }

  lemma OffersGoodIff(c: Checks, activation: Fields, profile: string)
    ensures OffersGood(c, activation, profile) <==>
            var b := BundleFor(activation, profile); b.Some? && BundleFits(c, b.value, profile)
  {
    var b := BundleFor(activation, profile);
    if b.Some? {
      BundleForIff(activation, profile, b.value);
      assert BundleFits(c, b.value, profile) <==> BundleMay(c, b.value, profile);
    }
    if OffersGood(c, activation, profile) {
      var offered :| Offers(activation, profile, offered) && BundleMay(c, offered, profile);
      BundleForIff(activation, profile, offered);
    }
  }

  lemma ActivationIff(c: Checks, v: Json, profiles: seq<string>)
    ensures Activates(c, v, profiles) <==> IsActivation(c, v, profiles)
  {
    if v.Object? {
      forall i | 0 <= i < |profiles|
        ensures OffersGood(c, v.fields, profiles[i]) <==>
                BundleFor(v.fields, profiles[i]).Some? &&
                BundleFits(c, BundleFor(v.fields, profiles[i]).value, profiles[i])
      {
        OffersGoodIff(c, v.fields, profiles[i]);
      }
      assert forall i :: 0 <= i < |profiles| ==> profiles[i] in profiles;
    }
  }

  // ---------------------------------------------------------------------------
  // The whole manifest
  // ---------------------------------------------------------------------------

  /** The required fields say what they must. */
  ghost predicate RawUnderstood(c: Checks, r: Raw) {
    && (r.schemaVersion == Number(1.0) || r.schemaVersion == Bool(true))
    && IsIdText(Lower(Shown(c, r.stableId))) && IsVersion(Shown(c, r.version))
    && AreProfiles(c, r.profiles) && AreScopes(c, r.scopes) && IsProvenance(c, r.provenance)
    && c.schema(r.configuration)
    && IsActivation(c, r.activation, AllShown(c, r.profiles.items))
    && Lower(Shown(c, r.contentHash)) == c.hash(r.activation)
    && r.dependencies.List? && |r.dependencies.items| <= 32
    && ArePins(c, r.dependencies.items, Lower(Shown(c, r.stableId)))
    && r.lifecycle ==
       Object(map["upgrade" := Text("replace_same_stable_id"), "remove" := Text("restore_prior_bundle")])
    && IsProbe(c, r.probe)
  }

  lemma ReadChain(c: Checks, read: Readers, r: Raw)
    ensures Read(c, read, r).Ok? <==>
            && IsOne(r.schemaVersion) && read.stableId(r.stableId).Ok? && read.version(r.version).Ok?
            && read.profiles(r.profiles).Ok? && read.scopes(r.scopes).Ok? && read.provenance(r.provenance).Ok?
            && c.schema(r.configuration) && read.activates(r.activation, read.profiles(r.profiles).value)
            && read.hash(r.contentHash) == c.hash(r.activation)
            && read.dependencies(r.dependencies, read.stableId(r.stableId).value).Ok?
            && read.lifecycle(r.lifecycle) && read.probe(r.probe).Ok?
    ensures Read(c, read, r).Ok? ==>
              Read(c, read, r).value == Parts(
                read.stableId(r.stableId).value, read.version(r.version).value, c.hash(r.activation),
                read.provenance(r.provenance).value, SortedSet(read.profiles(r.profiles).value),
                SortedSet(read.scopes(r.scopes).value),
                read.dependencies(r.dependencies, read.stableId(r.stableId).value).value, read.probe(r.probe).value)
  {
  }

  lemma ReadIff(c: Checks, r: Raw)
    ensures Read(c, ReadersOf(c), r).Ok? <==> RawUnderstood(c, r)
  {
    ReadChain(c, ReadersOf(c), r);
    StableIdIff(Lower(Shown(c, r.stableId)));
    ProfilesIff(c, r.profiles);
    ScopesIff(c, r.scopes);
    ProvenanceIff(c, r.provenance);
    if r.profiles.List? { ActivationIff(c, r.activation, AllShown(c, r.profiles.items)); }
    DependenciesIff(c, r.dependencies, Lower(Shown(c, r.stableId)));
    ProbeIff(c, r.probe);
  }

  /** What the normal form says of the fields it restates. */
  ghost predicate Says(c: Checks, r: Raw, n: Raw)
    requires r.profiles.List? && r.scopes.List? && r.provenance.Object? && r.dependencies.List?
    requires ArePins(c, r.dependencies.items, Lower(Shown(c, r.stableId)))
  {
    && n.schemaVersion == Number(1.0)
    && n.stableId == Text(Lower(Shown(c, r.stableId))) && n.version == Text(Shown(c, r.version))
    && n.contentHash == Text(c.hash(r.activation))
    && ListsTexts(n.profiles, AllShown(c, r.profiles.items)) && ListsTexts(n.scopes, AllShown(c, r.scopes.items))
    && ProvenanceSays(c, r.provenance, n.provenance)
    && n.dependencies.List?
    && PinsSay(c, r.dependencies.items, n.dependencies.items, Lower(Shown(c, r.stableId)))
    && ProbeSays(c, r.probe, n.probe)
    && n.configuration == r.configuration && n.lifecycle == r.lifecycle && n.activation == r.activation
  }

  /** What each part of a manifest was read as. */
  predicate PartsOf(c: Checks, r: Raw, p: Parts) {
    && p.id == Lower(Shown(c, r.stableId)) && p.version == Shown(c, r.version) && p.hash == c.hash(r.activation)
    && Provenance(c, r.provenance) == Ok(p.provenance)
    && Profiles(c, r.profiles).Ok? && p.profiles == SortedSet(Profiles(c, r.profiles).value)
    && Scopes(c, r.scopes).Ok? && p.scopes == SortedSet(Scopes(c, r.scopes).value)
    && Dependencies(c, r.dependencies, p.id) == Ok(p.dependencies)
    && ProbeOf(c, r.probe) == Ok(p.probe)
  }

  lemma ReadIs(c: Checks, read: Readers, r: Raw, p: Parts)
    requires Read(c, read, r) == Ok(p)
    requires read.stableId(r.stableId) == StableId(c, r.stableId)
    requires read.version(r.version) == Manifests.Version(c, r.version)
    requires read.provenance(r.provenance) == Provenance(c, r.provenance)
    requires read.profiles(r.profiles) == Profiles(c, r.profiles) && read.scopes(r.scopes) == Scopes(c, r.scopes)
    requires forall own :: read.dependencies(r.dependencies, own) == Dependencies(c, r.dependencies, own)
    requires read.probe(r.probe) == ProbeOf(c, r.probe)
    ensures PartsOf(c, r, p)
  {
    ReadChain(c, read, r);
  }

  lemma PartsSay(c: Checks, r: Raw, p: Parts, n: Raw)
    requires PartsOf(c, r, p)
    requires n == Raw(Number(1.0), Text(p.id), Text(p.version), Text(p.hash), p.provenance, List(Texts(p.profiles)),
                      List(Texts(p.scopes)), r.configuration, List(p.dependencies), p.probe, r.lifecycle, r.activation)
    ensures r.profiles.List? && r.scopes.List? && r.provenance.Object? && r.dependencies.List?
    ensures ArePins(c, r.dependencies.items, Lower(Shown(c, r.stableId)))
    ensures Says(c, r, n)
  {
    ProfilesIff(c, r.profiles);
    ScopesIff(c, r.scopes);
    ProvenanceIff(c, r.provenance);
    DependenciesIff(c, r.dependencies, p.id);
    ProbeIff(c, r.probe);
    SortedLists(AllShown(c, r.profiles.items));
    SortedLists(AllShown(c, r.scopes.items));
  }

  /** The twelve fields there must be, six there may be, and what each says. */
  ghost predicate IsManifest(c: Checks, m: Fields) {
    && {"schema_version", "stable_id", "version", "content_hash", "provenance", "supported_profiles",
        "requested_scopes", "configuration_schema", "dependencies", "health_probe", "lifecycle", "activation"} <= m.Keys
    && m.Keys <= {"schema_version", "stable_id", "version", "content_hash", "provenance", "supported_profiles",
        "requested_scopes", "configuration_schema", "dependencies", "health_probe", "lifecycle", "activation",
        "description", "homepage", "kind", "label", "license", "name"}
    && RawUnderstood(c, Twelve(m))
  }

  function Twelve(m: Fields): Raw
    requires REQUIRED <= m.Keys
  {
    Raw(m["schema_version"], m["stable_id"], m["version"], m["content_hash"], m["provenance"], m["supported_profiles"],
        m["requested_scopes"], m["configuration_schema"], m["dependencies"], m["health_probe"], m["lifecycle"],
        m["activation"])
  }

  lemma NormalTwelve(m: Fields, p: Parts)
    requires REQUIRED <= m.Keys
    ensures var n := m + Update(p);
            && n.Keys == m.Keys
            && (forall key :: key in m && key !in REQUIRED ==> n[key] == m[key])
            && Twelve(n) == Raw(Number(1.0), Text(p.id), Text(p.version), Text(p.hash), p.provenance,
                                List(Texts(p.profiles)), List(Texts(p.scopes)), m["configuration_schema"],
                                List(p.dependencies), p.probe, m["lifecycle"], m["activation"])
  {
  }

  lemma ValidateChain(c: Checks, read: Readers, m: Fields)
    requires REQUIRED <= m.Keys <= REQUIRED + OPTIONAL
    ensures var parts, r := Read(c, read, RawOf(m)), ValidateWith(c, read, m);
            if parts.Err? then r == Err(parts.error) else Passed(c, m + Update(parts.value), r)
  {
  }

  /** The normal form, unless it shows credentials or is too large. */
  predicate Passed(c: Checks, n: Fields, r: Result<Fields, Refusal>) {
    r == if c.leaks(Object(n)) then Err(Credentials)
         else if c.size(Object(n)) > 5 * 1024 * 1024 then Err(TooLarge)
         else Ok(n)
  }

  /** The same fields, saying the same; those validation does not read are as they were. */
  ghost predicate NormalOf(c: Checks, m: Fields, n: Fields)
    requires IsManifest(c, m)
  {
    && n.Keys == m.Keys && (forall key :: key in m && key !in REQUIRED ==> n[key] == m[key])
    && Says(c, Twelve(m), Twelve(n))
  }

  /** A manifest has a normal form, and that is what validation looks at last. */
  lemma ManifestPasses(c: Checks, m: Fields) returns (n: Fields)
    requires IsManifest(c, m)
    ensures NormalOf(c, m, n) && Passed(c, n, Validate(c, m))
  {
    ReadIff(c, Twelve(m));
    ValidateChain(c, ReadersOf(c), m);
    var p := Read(c, ReadersOf(c), Twelve(m)).value;
    n := m + Update(p);
    NormalTwelve(m, p);
    ReadIs(c, ReadersOf(c), Twelve(m), p);
    PartsSay(c, Twelve(m), p, Twelve(n));
  }

  /** Anything else is turned away. */
  lemma OthersRefused(c: Checks, m: Fields)
    requires !IsManifest(c, m)
    ensures Validate(c, m).Err?
  {
    if REQUIRED <= m.Keys <= REQUIRED + OPTIONAL {
      ReadIff(c, Twelve(m));
      ValidateChain(c, ReadersOf(c), m);
    }
  }
}
