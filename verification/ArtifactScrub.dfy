/** What scrubbing guarantees of whole texts and of whole sets of artifacts. */
module ArtifactScrub {
  import opened Prelude
  import opened Strings
  import opened KeyedLists
  import opened Redaction
  import D = DurableCapture

  // ---------------------------------------------------------------------------
  // Pieces of a text
  // ---------------------------------------------------------------------------

  /** The piece is not a JSON object or list on a line of its own. */
  predicate Plain(c: D.Codec, piece: string) {
    D.Embedded(c, piece).None?
  }

  predicate AllPlain(c: D.Codec, text: string) {
    forall i :: 0 <= i < |D.Pieces(text)| ==> Plain(c, D.Pieces(text)[i])
  }

  lemma {:induction false} ConcatFront(piece: string, rest: seq<string>)
    ensures D.Concat([piece] + rest) == piece + D.Concat(rest)
  {
    var all := [piece] + rest;
    if rest == [] {
      assert all[..0] == [] && all == [piece];
      assert D.Concat(all) == D.Concat([]) + piece;
      assert "" + piece == piece + "";
    } else {
      var n := |rest| - 1;
      ConcatFront(piece, rest[..n]);
      assert all[..|all| - 1] == [piece] + rest[..n];
      assert piece + D.Concat(rest[..n]) + rest[n] == piece + (D.Concat(rest[..n]) + rest[n]);
    }
  }

  lemma ConcatWiden(c: char, first: string, rest: seq<string>)
    ensures D.Concat([[c] + first] + rest) == [c] + D.Concat([first] + rest)
  {
    ConcatFront([c] + first, rest);
    ConcatFront(first, rest);
    assert [c] + first + D.Concat(rest) == [c] + (first + D.Concat(rest));
  }

  /** The pieces of a text, put together, are the text. */
  lemma {:induction false} PiecesConserve(s: string)
    ensures D.Concat(D.Pieces(s)) == s
    decreases |s|
  {
    if s != "" {
      if IsBreak(s[0]) {
        var n := BreakLength(s);
        PiecesConserve(s[n..]);
        ConcatFront(s[..n], D.Pieces(s[n..]));
        assert s[..n] + s[n..] == s;
      } else {
        PiecesConserve(s[1..]);
        var rest := D.Pieces(s[1..]);
        assert [s[0]] + s[1..] == s;
        if rest == [] {
          assert s[1..] == "" && s == [s[0]];
          assert [[s[0]]] == [[s[0]]] + [];
          ConcatFront([s[0]], []);
        } else {
          ConcatWiden(s[0], rest[0], rest[1..]);
          assert [rest[0]] + rest[1..] == rest;
        }
      }
    }
  }

  predicate EndsWithBreak(piece: string) {
    piece != "" && IsBreak(piece[|piece| - 1])
  }

  /** Every piece but the last ends with a break. */
  predicate Broken(pieces: seq<string>) {
    forall i :: 0 <= i < |pieces| - 1 ==> EndsWithBreak(pieces[i])
  }

  /** No piece is empty, and every piece but the last ends with a break. */
  predicate WellBroken(pieces: seq<string>) {
    Broken(pieces) && forall i :: 0 <= i < |pieces| ==> pieces[i] != ""
  }

  lemma WellBrokenWiden(c: char, first: string, rest: seq<string>)
    requires WellBroken([first] + rest)
    ensures WellBroken([[c] + first] + rest)
  {
    var before, after := [first] + rest, [[c] + first] + rest;
    assert forall i :: 0 < i < |after| ==> after[i] == before[i];
    if |after| > 1 { assert EndsWithBreak(before[0]); }
  }

  lemma WellBrokenFront(piece: string, rest: seq<string>)
    requires WellBroken(rest) && EndsWithBreak(piece)
    ensures WellBroken([piece] + rest)
  {
    var all := [piece] + rest;
    assert forall i :: 0 < i < |all| ==> all[i] == rest[i - 1];
  }

  lemma {:induction false} PiecesBroken(s: string)
    ensures WellBroken(D.Pieces(s))
    decreases |s|
  {
    if s != "" {
      if IsBreak(s[0]) {
        PiecesBroken(s[BreakLength(s)..]);
        WellBrokenFront(s[..BreakLength(s)], D.Pieces(s[BreakLength(s)..]));
      } else {
        PiecesBroken(s[1..]);
        var rest := D.Pieces(s[1..]);
        if rest != [] {
          assert [rest[0]] + rest[1..] == rest;
          WellBrokenWiden(s[0], rest[0], rest[1..]);
        }
      }
    }
  }

  // ---------------------------------------------------------------------------
  // Values that cannot reach across lines
  // ---------------------------------------------------------------------------

  lemma InOneLine(value: string, c: char)
    requires Unbroken(value) && IsBreak(c)
    ensures c !in value
  {
  }

  /** No break is covered by an occurrence of a one-line value. */
  lemma BreakOutside(t: string, value: string, i: nat, p: nat)
    requires Unbroken(value) && OccursAt(t, value, i) && p < |t| && IsBreak(t[p])
    ensures !(i <= p < i + |value|)
  {
    InOneLine(value, t[p]);
    Under(t, value, i, p);
  }

  lemma OccursInPart(x: string, y: string, z: string, value: string, i: nat)
    requires OccursAt(x + y + z, value, i) && |x| <= i && i + |value| <= |x| + |y|
    ensures Contains(y, value)
  {
    var t := x + y + z;
    forall k | 0 <= k < |value| ensures y[i - |x| + k] == value[k] { assert t[i + k] == value[k]; }
    assert OccursAt(y, value, i - |x|);
  }

  /** An occurrence in a joined text that cannot cover its seam lies on one side. */
  lemma OnOneSide(x: string, y: string, value: string, i: nat)
    requires value != "" && Unbroken(value) && (x != "" ==> EndsWithBreak(x))
    requires OccursAt(x + y, value, i)
    ensures Contains(x, value) || Contains(y, value)
  {
    assert "" + x + y == x + y && x + y + "" == x + y;
    if x != "" { BreakOutside(x + y, value, i, |x| - 1); }
    if i + |value| <= |x| { OccursInPart("", x, y, value, i); } else { OccursInPart(x, y, "", value, i); }
  }

  /** A line followed by breaks contains no one-line value that it did not contain without them. */
  lemma BeforeBreaks(line: string, ending: string, value: string)
    requires value != "" && Unbroken(value) && forall k :: 0 <= k < |ending| ==> IsBreak(ending[k])
    requires Contains(line + ending, value)
    ensures Contains(line, value)
  {
    var t := line + ending;
    var i :| 0 <= i <= |t| && OccursAt(t, value, i);
    if i + |value| > |line| {
      assert t[i + |value| - 1] == ending[i + |value| - 1 - |line|];
      BreakOutside(t, value, i, i + |value| - 1);
    } else {
      assert "" + line + ending == t;
      OccursInPart("", line, ending, value, i);
    }
  }

  lemma {:induction false} ConcatEnds(pieces: seq<string>)
    requires forall i :: 0 <= i < |pieces| ==> EndsWithBreak(pieces[i])
    ensures D.Concat(pieces) != "" ==> EndsWithBreak(D.Concat(pieces))
  {
  }

  lemma {:induction false} ConcatAbsent(pieces: seq<string>, value: string)
    requires value != "" && Unbroken(value) && Broken(pieces)
    requires forall i :: 0 <= i < |pieces| ==> !Contains(pieces[i], value)
    ensures !Contains(D.Concat(pieces), value)
  {
    if pieces != [] {
      var n := |pieces| - 1;
      ConcatAbsent(pieces[..n], value);
      ConcatEnds(pieces[..n]);
      var x, y := D.Concat(pieces[..n]), pieces[n];
      if i :| 0 <= i <= |x + y| && OccursAt(x + y, value, i) { OnOneSide(x, y, value, i); }
    }
  }

  /** What a piece contains, the joined text contains. */
  lemma {:induction false} PieceWithin(pieces: seq<string>, k: nat, value: string)
    requires k < |pieces| && Contains(pieces[k], value)
    ensures Contains(D.Concat(pieces), value)
  {
    var n := |pieces| - 1;
    var front, last := D.Concat(pieces[..n]), pieces[n];
    var t := front + last;
    if k == n {
      var i :| 0 <= i <= |last| && OccursAt(last, value, i);
      forall j | 0 <= j < |value| ensures t[|front| + i + j] == value[j] { assert last[i + j] == value[j]; }
      assert OccursAt(t, value, |front| + i);
    } else {
      PieceWithin(pieces[..n], k, value);
      PrefixContains(front, last, value);
    }
  }

  lemma PrefixContains(x: string, y: string, value: string)
    requires Contains(x, value)
    ensures Contains(x + y, value)
  {
    var i :| 0 <= i <= |x| && OccursAt(x, value, i);
    forall j | 0 <= j < |value| ensures (x + y)[i + j] == value[j] { assert x[i + j] == value[j]; }
    assert OccursAt(x + y, value, i);
  }

  // ---------------------------------------------------------------------------
  // One line
  // ---------------------------------------------------------------------------

  /** A value that scrubbing removes for good: inert, and within one line. */
  predicate Removable(value: string) {
    Inert(value) && Unbroken(value)
  }

  ghost predicate AllRemovable(values: set<string>) {
    forall v :: v in values ==> Removable(v)
  }

  ghost predicate FreeOf(values: set<string>, s: string) {
    forall v :: v in values ==> !Contains(s, v)
  }

  lemma FreeIsClean(known: seq<Secret>, s: string)
    ensures Clean(known, s) <==> FreeOf(D.Values(known), s)
  {
    forall i | 0 <= i < |known| ensures known[i].value in D.Values(known) {
      assert D.ValueOf(known[i]) == known[i].value;
    }
    if Clean(known, s) {
      forall v | v in D.Values(known) ensures !Contains(s, v) {
        var i :| 0 <= i < |known| && D.ValueOf(known[i]) == v;
      }
    }
  }

  lemma RemovableIsSafe(known: seq<Secret>)
    requires AllRemovable(D.Values(known))
    ensures Safe(known)
  {
    forall i | 0 <= i < |known| ensures Inert(known[i].value) { assert D.ValueOf(known[i]) in D.Values(known); }
  }

  lemma {:induction false} ReplaceKeepsEnd(s: string, value: string, marker: Marker)
    requires value != "" && Unbroken(value) && EndsWithBreak(s)
    ensures EndsWithBreak(Replace(s, value, marker))
    decreases |s|
  {
    if OccursAt(s, value, 0) {
      BreakOutside(s, value, 0, |s| - 1);
      ReplaceKeepsEnd(s[|value|..], value, marker);
    } else if |s| > 1 {
      ReplaceKeepsEnd(s[1..], value, marker);
    } else {
      assert s[1..] == "";
    }
  }

  lemma {:induction false} ReplaceAllKeepsEnd(order: seq<Secret>, s: string)
    requires Usable(order) && EndsWithBreak(s) && forall i :: 0 <= i < |order| ==> Unbroken(order[i].value)
    ensures EndsWithBreak(ReplaceAll(order, s))
  {
    if order != [] {
      ReplaceKeepsEnd(s, order[0].value, order[0].marker);
      ReplaceAllKeepsEnd(order[1..], Replace(s, order[0].value, order[0].marker));
    }
  }

  lemma ReplaceExactKeepsEnd(known: seq<Secret>, s: string)
    requires Usable(known) && AllRemovable(D.Values(known)) && EndsWithBreak(s)
    ensures EndsWithBreak(ReplaceExact(known, s))
  {
    OrderIsSafe(known);
    SameSecrets(known);
    var order := LongestFirst(known);
    forall i | 0 <= i < |order| ensures Unbroken(order[i].value) {
      assert order[i] in known;
      var j :| 0 <= j < |known| && known[j] == order[i];
      assert D.ValueOf(known[j]) in D.Values(known);
    }
    ReplaceAllKeepsEnd(order, s);
  }

  /** Only line feeds and carriage returns follow the body of a piece. */
  lemma {:induction false} EndingIsBreaks(piece: string)
    ensures D.Body(piece) <= piece
    ensures forall i :: |D.Body(piece)| <= i < |piece| ==> piece[i] in "\r\n"
  {
    if piece != "" && piece[|piece| - 1] in "\r\n" { EndingIsBreaks(piece[..|piece| - 1]); }
  }

  lemma {:induction false} TrimStartSpaceAfter(s: string, c: char)
    requires IsSpace(c)
    ensures TrimStart(s + [c]) == if TrimStart(s) == "" then "" else TrimStart(s) + [c]
  {
    if s == "" {
      assert (s + [c])[1..] == "";
    } else if IsSpace(s[0]) {
      TrimStartSpaceAfter(s[1..], c);
      assert (s + [c])[1..] == s[1..] + [c];
    }
  }

  lemma TrimEndSpaceAfter(s: string, c: char)
    requires IsSpace(c)
    ensures TrimEnd(s + [c]) == TrimEnd(s)
  {
    assert (s + [c])[..|s|] == s;
  }

  lemma TrimDropsSpaceAfter(s: string, c: char)
    requires IsSpace(c)
    ensures Trim(s + [c]) == Trim(s)
  {
    TrimStartSpaceAfter(s, c);
    TrimEndSpaceAfter(TrimStart(s), c);
  }

  /** Dropping its line break does not change what JSON a piece spells. */
  lemma {:induction false} BodySpellsTheSame(c: D.Codec, piece: string)
    ensures D.Embedded(c, D.Body(piece)) == D.Embedded(c, piece)
  {
    if piece != "" && piece[|piece| - 1] in "\r\n" {
      var n := |piece| - 1;
      BodySpellsTheSame(c, piece[..n]);
      TrimDropsSpaceAfter(piece[..n], piece[n]);
      assert piece == piece[..n] + [piece[n]];
    }
  }

  /** A scrubbed plain line: none of the learned values is in it, and its break is where it was. */
  lemma PlainPieceScrubbed(c: D.Codec, known: seq<Secret>, piece: string)
    requires Usable(known) && AllRemovable(D.Values(known)) && Plain(c, piece)
    ensures var r := D.ScrubPiece(c, known, piece);
            && r.known == known && FreeOf(D.Values(known), r.out)
            && (EndsWithBreak(piece) ==> EndsWithBreak(r.out))
  {
    BodySpellsTheSame(c, piece);
    EndingIsBreaks(piece);
    var line := D.Body(piece);
    var ending := piece[|line|..];
    var clean := ReplaceExact(known, line);
    var out := clean + ending;
    RemovableIsSafe(known);
    ReplaceExactCleans(known, line);
    FreeIsClean(known, clean);
    forall k | 0 <= k < |ending| ensures IsBreak(ending[k]) { assert ending[k] == piece[|line| + k]; }
    forall v | v in D.Values(known) ensures !Contains(out, v) {
      if Contains(out, v) { BeforeBreaks(clean, ending, v); }
    }
    if EndsWithBreak(piece) {
      if ending == "" {
        assert line == piece;
        ReplaceExactKeepsEnd(known, line);
        assert out == clean;
      } else {
        assert out[|out| - 1] == piece[|piece| - 1];
      }
    }
  }

  // ---------------------------------------------------------------------------
  // JSON values
  // ---------------------------------------------------------------------------

  /** No text of the value, down to the given level, contains any of the values. */
  ghost predicate TextsFree(values: set<string>, v: D.Json, left: nat)
    decreases left
  {
    left > 0 ==>
      match v
      case Text(text) => FreeOf(values, text)
      case Object(fields) => forall i :: 0 <= i < |fields| ==> TextsFree(values, fields[i].value, left - 1)
      case List(items) => forall i :: 0 <= i < |items| ==> TextsFree(values, items[i], left - 1)
      case Scalar(_) => true
  }

  lemma MarkerFree(values: set<string>, marker: Marker)
    requires AllRemovable(values)
    ensures FreeOf(values, marker)
  {
    assert IsMarker(marker);
  }

  lemma ReplacedFree(known: seq<Secret>, text: string)
    requires Usable(known) && AllRemovable(D.Values(known))
    ensures FreeOf(D.Values(known), ReplaceExact(known, text))
  {
    RemovableIsSafe(known);
    ReplaceExactCleans(known, text);
    FreeIsClean(known, ReplaceExact(known, text));
  }

  ghost predicate FieldsFree(values: set<string>, fields: seq<D.Field>, left: nat) {
    forall i :: 0 <= i < |fields| ==> TextsFree(values, fields[i].value, left)
  }

  ghost predicate ItemsFree(values: set<string>, items: seq<D.Json>, left: nat) {
    forall i :: 0 <= i < |items| ==> TextsFree(values, items[i], left)
  }

  /** Once everything a JSON value gives away is known, every text in it is scrubbed of all of it. */
  lemma {:induction false} JsonScrubbed(c: D.Codec, known: seq<Secret>, v: D.Json, left: nat)
    requires Usable(known) && AllRemovable(D.Values(known)) && D.Secrets(c, v, left) <= D.Values(known)
    ensures TextsFree(D.Values(known), D.ScrubValue(c, known, v, left).out, left)
    decreases left, 0, 0
  {
    if left > 0 {
      match v
      case Object(fields) =>
        FieldsScrubbed(c, known, fields, left - 1);
        assert FieldsFree(D.Values(known), D.ScrubFields(c, known, fields, left - 1).out, left - 1);
      case List(items) =>
        ItemsScrubbed(c, known, items, left - 1);
        assert ItemsFree(D.Values(known), D.ScrubItems(c, known, items, left - 1).out, left - 1);
      case Text(text) => TextScrubbed(c, known, text, left);
      case Scalar(_) =>
    }
  }

  lemma TextScrubbed(c: D.Codec, known: seq<Secret>, text: string, left: nat)
    requires left > 0 && Usable(known) && AllRemovable(D.Values(known)) &&
      D.Secrets(c, D.Text(text), left) <= D.Values(known)
    ensures TextsFree(D.Values(known), D.ScrubValue(c, known, D.Text(text), left).out, left)
  {
    var embedded := D.Embedded(c, text);
    if embedded.Some? {
      D.ScrubValueValues(c, known, embedded.value, left - 1);
      var r := D.ScrubValue(c, known, embedded.value, left - 1);
      assert D.Values(r.known) == D.Values(known);
      ReplacedFree(r.known, c.dump(r.out));
    } else {
      ReplacedFree(known, text);
    }
  }

  lemma {:induction false} FieldsScrubbed(c: D.Codec, known: seq<Secret>, fields: seq<D.Field>, left: nat)
    requires Usable(known) && AllRemovable(D.Values(known)) && D.FieldSecrets(c, fields, left) <= D.Values(known)
    ensures FieldsFree(D.Values(known), D.ScrubFields(c, known, fields, left).out, left)
    decreases left, 1, |fields|
  {
    if fields != [] {
      var n := |fields| - 1;
      FieldsScrubbed(c, known, fields[..n], left);
      D.ScrubFieldsValues(c, known, fields[..n], left);
      var before := D.ScrubFields(c, known, fields[..n], left).known;
      assert D.Values(before) == D.Values(known);
      if D.ReservedMarker(fields[n].name).None? { JsonScrubbed(c, before, fields[n].value, left); }
      FieldScrubbed(c, before, fields[n], left);
    }
  }

  lemma FieldScrubbed(c: D.Codec, known: seq<Secret>, field: D.Field, left: nat)
    requires Usable(known) && AllRemovable(D.Values(known))
    requires D.ReservedMarker(field.name).None? ==>
      TextsFree(D.Values(known), D.ScrubValue(c, known, field.value, left).out, left)
    ensures TextsFree(D.Values(known), D.ScrubField(c, known, field, left).out.value, left)
  {
    var marker := D.ReservedMarker(field.name);
    if marker.Some? { MarkerFree(D.Values(known), marker.value); }
  }

  lemma {:induction false} ItemsScrubbed(c: D.Codec, known: seq<Secret>, items: seq<D.Json>, left: nat)
    requires Usable(known) && AllRemovable(D.Values(known)) && D.ItemSecrets(c, items, left) <= D.Values(known)
    ensures ItemsFree(D.Values(known), D.ScrubItems(c, known, items, left).out, left)
    decreases left, 1, |items|
  {
    if items != [] {
      var n := |items| - 1;
      ItemsScrubbed(c, known, items[..n], left);
      D.ScrubItemsValues(c, known, items[..n], left);
      var before := D.ScrubItems(c, known, items[..n], left).known;
      assert D.Values(before) == D.Values(known);
      JsonScrubbed(c, before, items[n], left);
    }
  }

  // ---------------------------------------------------------------------------
  // Whole texts
  // ---------------------------------------------------------------------------

  lemma {:induction false} ScrubPiecesValues(c: D.Codec, known: seq<Secret>, pieces: seq<string>)
    requires Usable(known)
    ensures D.Values(known) <= D.Values(D.ScrubPieces(c, known, pieces).known) <= D.Values(known) +
      D.TextSecrets(c, pieces)
  {
    if pieces != [] {
      var n := |pieces| - 1;
      ScrubPiecesValues(c, known, pieces[..n]);
      BodySpellsTheSame(c, pieces[n]);
      var v := D.Embedded(c, pieces[n]);
      if v.Some? { D.ScrubValueValues(c, D.ScrubPieces(c, known, pieces[..n]).known, v.value, D.LEVELS); }
    }
  }

  /** Once everything the pieces give away is known, every plain piece is scrubbed of all of it. */
  lemma {:induction false} PlainPiecesScrubbed(c: D.Codec, known: seq<Secret>, pieces: seq<string>, k: nat)
    requires Usable(known) && AllRemovable(D.Values(known)) && D.TextSecrets(c, pieces) <= D.Values(known)
    requires k < |pieces| && Plain(c, pieces[k])
    ensures var out := D.ScrubPieces(c, known, pieces).out[k];
            FreeOf(D.Values(known), out) && (EndsWithBreak(pieces[k]) ==> EndsWithBreak(out))
  {
    var n := |pieces| - 1;
    if k == n {
      ScrubPiecesValues(c, known, pieces[..n]);
      PlainPieceScrubbed(c, D.ScrubPieces(c, known, pieces[..n]).known, pieces[n]);
    } else {
      PlainPiecesScrubbed(c, known, pieces[..n], k);
    }
  }

  /** What is known after scrubbing a text: what was known, and what the text gives away. */
  lemma ScrubLinesLearns(c: D.Codec, known: seq<Secret>, text: string)
    requires Usable(known)
    ensures D.Values(D.ScrubLines(c, known, text).known) == D.Values(known) + D.TextSecrets(c, D.Pieces(text))
  {
    var pieces := D.Pieces(text);
    D.DiscoverUsable(c, known, pieces);
    D.DiscoverPiecesValues(c, known, pieces);
    ScrubPiecesValues(c, D.DiscoverPieces(c, known, pieces), pieces);
  }

  /** No plain line keeps a value known before the text was scrubbed or given away anywhere in it. */
  lemma PlainLinesScrubbed(c: D.Codec, known: seq<Secret>, text: string, k: nat)
    requires Usable(known) && k < |D.Pieces(text)| && Plain(c, D.Pieces(text)[k])
    requires AllRemovable(D.Values(known) + D.TextSecrets(c, D.Pieces(text)))
    ensures var out := D.ScrubLines(c, known, text).out[k];
            && FreeOf(D.Values(known) + D.TextSecrets(c, D.Pieces(text)), out)
            && (EndsWithBreak(D.Pieces(text)[k]) ==> EndsWithBreak(out))
  {
    var pieces := D.Pieces(text);
    D.DiscoverUsable(c, known, pieces);
    D.DiscoverPiecesValues(c, known, pieces);
    PlainPiecesScrubbed(c, D.DiscoverPieces(c, known, pieces), pieces, k);
  }

  lemma {:induction false} PlainTeachNothing(c: D.Codec, known: seq<Secret>, pieces: seq<string>)
    requires forall i :: 0 <= i < |pieces| ==> Plain(c, pieces[i])
    ensures D.TextSecrets(c, pieces) == {} && D.DiscoverPieces(c, known, pieces) == known
  {
    if pieces != [] { PlainTeachNothing(c, known, pieces[..|pieces| - 1]); }
  }

  /** A text of plain lines keeps none of the known values, within a line or across two. */
  lemma PlainTextScrubbed(c: D.Codec, known: seq<Secret>, text: string)
    requires Usable(known) && AllRemovable(D.Values(known)) && AllPlain(c, text)
    ensures FreeOf(D.Values(known), D.ScrubText(c, known, text).out)
  {
    var pieces, lines := D.Pieces(text), D.ScrubLines(c, known, text).out;
    PlainTeachNothing(c, known, pieces);
    PiecesBroken(text);
    forall k | 0 <= k < |lines| ensures FreeOf(D.Values(known), lines[k]) &&
      (k < |lines| - 1 ==> EndsWithBreak(lines[k])) {
      PlainLinesScrubbed(c, known, text, k);
    }
    forall v | v in D.Values(known) ensures !Contains(D.Concat(lines), v) { ConcatAbsent(lines, v); }
  }

  lemma BodyFree(known: seq<Secret>, piece: string)
    requires Clean(known, piece)
    ensures Clean(known, D.Body(piece))
  {
    EndingIsBreaks(piece);
    var line := D.Body(piece);
    assert piece == line + piece[|line|..];
    forall i | 0 <= i < |known| ensures !Contains(line, known[i].value) {
      if Contains(line, known[i].value) { PrefixContains(line, piece[|line|..], known[i].value); }
    }
  }

  lemma CleanPieceStays(c: D.Codec, known: seq<Secret>, piece: string)
    requires Usable(known) && Plain(c, piece) && Clean(known, piece)
    ensures D.ScrubPiece(c, known, piece) == D.Scrubbed(known, piece)
  {
    BodySpellsTheSame(c, piece);
    BodyFree(known, piece);
    ReplaceExactClean(known, D.Body(piece));
    EndingIsBreaks(piece);
    assert D.Body(piece) + piece[|D.Body(piece)|..] == piece;
  }

  lemma {:induction false} CleanPiecesStay(c: D.Codec, known: seq<Secret>, pieces: seq<string>)
    requires Usable(known) && forall i :: 0 <= i < |pieces| ==> Plain(c, pieces[i]) && Clean(known, pieces[i])
    ensures D.ScrubPieces(c, known, pieces) == D.Scrubbed(known, pieces)
  {
    if pieces != [] {
      var n := |pieces| - 1;
      CleanPiecesStay(c, known, pieces[..n]);
      CleanPieceStays(c, known, pieces[n]);
      assert pieces[..n] + [pieces[n]] == pieces;
    }
  }

  /** Scrubbing leaves a text of plain lines alone if it contains none of the known values. */
  lemma CleanTextStays(c: D.Codec, known: seq<Secret>, text: string)
    requires Usable(known) && AllPlain(c, text) && FreeOf(D.Values(known), text)
    ensures D.ScrubText(c, known, text) == D.Scrubbed(known, text)
  {
    var pieces := D.Pieces(text);
    PiecesConserve(text);
    PlainTeachNothing(c, known, pieces);
    FreeIsClean(known, text);
    forall i | 0 <= i < |pieces| ensures Clean(known, pieces[i]) {
      forall j | 0 <= j < |known| ensures !Contains(pieces[i], known[j].value) {
        if Contains(pieces[i], known[j].value) { PieceWithin(pieces, i, known[j].value); }
      }
    }
    CleanPiecesStay(c, known, pieces);
  }

  /** Scrubbing plain lines twice is scrubbing them once. */
  lemma ScrubPlainTwice(c: D.Codec, known: seq<Secret>, text: string)
    requires Usable(known) && AllRemovable(D.Values(known)) && AllPlain(c, text)
    requires AllPlain(c, D.ScrubText(c, known, text).out)
    ensures var once := D.ScrubText(c, known, text).out; D.ScrubText(c, known, once).out == once
  {
    PlainTextScrubbed(c, known, text);
    CleanTextStays(c, known, D.ScrubText(c, known, text).out);
  }

  // ---------------------------------------------------------------------------
  // Artifacts
  // ---------------------------------------------------------------------------

  /** The text of an artifact, or nothing when it is gone or not text. */
  type Artifact = Option<string>

  /** The first pass: every readable artifact teaches, none changes. */
  function LearnAll(c: D.Codec, known: seq<Secret>, files: seq<Artifact>): seq<Secret> {
    if files == [] then known
    else
      var before, file := LearnAll(c, known, files[..|files| - 1]), files[|files| - 1];
      if file.Some? then D.DiscoverPieces(c, before, D.Pieces(file.value)) else before
  }

  /** The second pass: the lines each readable artifact comes to hold. */
  function ScrubAll(c: D.Codec, known: seq<Secret>, files: seq<Artifact>): D.Scrubbed<seq<Option<seq<string>>>>
    requires Usable(known)
    ensures Usable(ScrubAll(c, known, files).known) && |ScrubAll(c, known, files).out| == |files|
  {
    if files == [] then D.Scrubbed(known, [])
    else
      var before, file := ScrubAll(c, known, files[..|files| - 1]), files[|files| - 1];
      if file.Some? then
        var r := D.ScrubLines(c, before.known, file.value);
        D.Scrubbed(r.known, before.out + [Some(r.out)])
      else D.Scrubbed(before.known, before.out + [None])
  }

  /** `scrub_durable_text_artifacts`. */
  function ScrubArtifacts(c: D.Codec, known: seq<Secret>, files: seq<Artifact>): D.Scrubbed<seq<Option<seq<string>>>>
    requires Usable(known)
    ensures |ScrubArtifacts(c, known, files).out| == |files|
  {
    LearnAllUsable(c, known, files);
    ScrubAll(c, LearnAll(c, known, files), files)
  }

  function Held(lines: Option<seq<string>>): Artifact {
    if lines.Some? then Some(D.Concat(lines.value)) else None
  }

  /** The values the artifacts give away, all of them together. */
  function GivenAway(c: D.Codec, files: seq<Artifact>): set<string> {
    if files == [] then {}
    else
      var file := files[|files| - 1];
      GivenAway(c, files[..|files| - 1]) + (if file.Some? then D.TextSecrets(c, D.Pieces(file.value)) else {})
  }

  lemma {:induction false} LearnAllUsable(c: D.Codec, known: seq<Secret>, files: seq<Artifact>)
    requires Usable(known)
    ensures Usable(LearnAll(c, known, files))
  {
    if files != [] {
      var n := |files| - 1;
      LearnAllUsable(c, known, files[..n]);
      if files[n].Some? { D.DiscoverUsable(c, LearnAll(c, known, files[..n]), D.Pieces(files[n].value)); }
    }
  }

  lemma {:induction false} LearnAllValues(c: D.Codec, known: seq<Secret>, files: seq<Artifact>)
    ensures D.Values(LearnAll(c, known, files)) == D.Values(known) + GivenAway(c, files)
  {
    if files != [] {
      var n := |files| - 1;
      LearnAllValues(c, known, files[..n]);
      if files[n].Some? { D.DiscoverPiecesValues(c, LearnAll(c, known, files[..n]), D.Pieces(files[n].value)); }
    }
  }

  lemma {:induction false} GivenAwayByEach(c: D.Codec, files: seq<Artifact>, k: nat)
    requires k < |files| && files[k].Some?
    ensures D.TextSecrets(c, D.Pieces(files[k].value)) <= GivenAway(c, files)
  {
    if k < |files| - 1 { GivenAwayByEach(c, files[..|files| - 1], k); }
  }

  /** When everything is known beforehand, the second pass learns nothing. */
  lemma {:induction false} ScrubAllLearnsNothing(c: D.Codec, known: seq<Secret>, files: seq<Artifact>)
    requires Usable(known) && GivenAway(c, files) <= D.Values(known)
    ensures D.Values(ScrubAll(c, known, files).known) == D.Values(known)
  {
    if files != [] {
      var n := |files| - 1;
      ScrubAllLearnsNothing(c, known, files[..n]);
      if files[n].Some? { ScrubLinesLearns(c, ScrubAll(c, known, files[..n]).known, files[n].value); }
    }
  }

  /** What an artifact comes to hold is its text scrubbed by all that is known. */
  lemma {:induction false} EachIsScrubbed(c: D.Codec, known: seq<Secret>, files: seq<Artifact>, k: nat)
      returns (at: seq<Secret>)
    requires Usable(known) && GivenAway(c, files) <= D.Values(known)
    requires k < |files| && files[k].Some?
    ensures Usable(at) && D.Values(at) == D.Values(known)
    ensures ScrubAll(c, known, files).out[k] == Some(D.ScrubLines(c, at, files[k].value).out)
  {
    var n := |files| - 1;
    if k == n {
      ScrubAllLearnsNothing(c, known, files[..n]);
      at := ScrubAll(c, known, files[..n]).known;
    } else {
      at := EachIsScrubbed(c, known, files[..n], k);
    }
  }

  /**
   * A value given away by any artifact is removed from every plain line of every artifact, whichever was read
   * first; and what is known afterwards is exactly what was known and what the artifacts gave away.
   */
  lemma ArtifactLinesScrubbed(c: D.Codec, known: seq<Secret>, files: seq<Artifact>, k: nat, j: nat)
    requires Usable(known) && AllRemovable(D.Values(known) + GivenAway(c, files))
    requires k < |files| && files[k].Some?
    requires j < |D.Pieces(files[k].value)| && Plain(c, D.Pieces(files[k].value)[j])
    ensures var r := ScrubArtifacts(c, known, files);
            && D.Values(r.known) == D.Values(known) + GivenAway(c, files)
            && r.out[k].Some? && |r.out[k].value| == |D.Pieces(files[k].value)|
            && FreeOf(D.Values(r.known), r.out[k].value[j])
  {
    LearnAllUsable(c, known, files);
    LearnAllValues(c, known, files);
    var learned := LearnAll(c, known, files);
    ScrubAllLearnsNothing(c, learned, files);
    var at := EachIsScrubbed(c, learned, files, k);
    GivenAwayByEach(c, files, k);
    assert D.Values(at) + D.TextSecrets(c, D.Pieces(files[k].value)) == D.Values(at);
    PlainLinesScrubbed(c, at, files[k].value, j);
  }

  /** An artifact of plain lines keeps no such value anywhere, and a scrub that learns no more leaves it alone. */
  lemma PlainArtifactScrubbed(c: D.Codec, known: seq<Secret>, files: seq<Artifact>, k: nat)
    requires Usable(known) && AllRemovable(D.Values(known) + GivenAway(c, files))
    requires k < |files| && files[k].Some? && AllPlain(c, files[k].value)
    ensures var r := ScrubArtifacts(c, known, files);
            && Held(r.out[k]).Some?
            && FreeOf(D.Values(known) + GivenAway(c, files), Held(r.out[k]).value)
            && (AllPlain(c, Held(r.out[k]).value) ==>
                  forall again :: Usable(again) && D.Values(again) == D.Values(known) + GivenAway(c, files) ==>
                    D.ScrubText(c, again, Held(r.out[k]).value).out == Held(r.out[k]).value)
  {
    LearnAllUsable(c, known, files);
    LearnAllValues(c, known, files);
    var learned := LearnAll(c, known, files);
    var at := EachIsScrubbed(c, learned, files, k);
    PlainTextScrubbed(c, at, files[k].value);
    var text := D.ScrubText(c, at, files[k].value).out;
    if AllPlain(c, text) {
      forall again | Usable(again) && D.Values(again) == D.Values(known) + GivenAway(c, files)
        ensures D.ScrubText(c, again, text).out == text
      {
        CleanTextStays(c, again, text);
      }
    }
  }
}
