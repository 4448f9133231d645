/** The scrubber as it runs: a dictionary of learned values that grows while transcripts and artifacts pass through. */
module SecretScrubber {
  import opened Prelude
  import opened Strings
  import opened Redaction
  import D = DurableCapture
  import A = ArtifactScrub

  function RememberAll(values: seq<string>): seq<Secret> {
    if values == [] then [] else D.Remember(RememberAll(values[..|values| - 1]), values[|values| - 1], BROKER_MARKER)
  }

  /** The positions at which two lists of artifacts differ, in order. */
  function Changed(before: seq<A.Artifact>, after: seq<A.Artifact>): seq<nat>
    requires |before| == |after|
  {
    if before == [] then []
    else
      var n := |before| - 1;
      Changed(before[..n], after[..n]) + (if before[n] != after[n] then [n] else [])
  }

  /** Exactly the differing positions are listed, in increasing order. */
  lemma {:induction false} ChangedDiffer(before: seq<A.Artifact>, after: seq<A.Artifact>)
    requires |before| == |after|
    ensures forall i: nat :: i in Changed(before, after) <==> i < |before| && before[i] != after[i]
    ensures forall i, j :: 0 <= i < j < |Changed(before, after)| ==>
      Changed(before, after)[i] < Changed(before, after)[j]
  {
    if before != [] {
      var n := |before| - 1;
      ChangedDiffer(before[..n], after[..n]);
      var front := Changed(before[..n], after[..n]);
      forall i | 0 <= i < |front| ensures front[i] < n { assert front[i] in front; }
    }
  }

  class DurableSecretScrubber {
    const codec: D.Codec
    var exactValues: seq<Secret>

    ghost predicate Valid()
      reads this
    {
      Usable(exactValues)
    }

    constructor (codec: D.Codec, values: seq<string>)
      ensures Valid() && this.codec == codec && exactValues == RememberAll(values)
    {
      this.codec := codec;
      exactValues := [];
      new;
      for i := 0 to |values|
        invariant Valid() && this.codec == codec
        invariant exactValues == RememberAll(values[..i])
      {
        assert values[..i + 1][..i] == values[..i];
        Remember(values[i], BROKER_MARKER);
      }
      assert values[..|values|] == values;
    }

    method Remember(value: string, marker: Marker)
      requires Valid()
      modifies this
      ensures Valid() && exactValues == D.Remember(old(exactValues), value, marker)
    {
      D.RememberValues(exactValues, value, marker);
      exactValues := D.Remember(exactValues, value, marker);
    }

    method DiscoverValue(v: D.Json, left: nat)
      requires Valid()
      modifies this
      ensures Valid() && exactValues == D.Discover(codec, old(exactValues), v, left)
      decreases left
    {
      if left == 0 { return; }
      match v
      case Object(fields) =>
        for i := 0 to |fields|
          invariant Valid() && exactValues == D.DiscoverFields(codec, old(exactValues), fields[..i], left - 1)
        {
          assert fields[..i + 1][..i] == fields[..i];
          var marker := D.ReservedMarker(fields[i].name);
          if marker.Some? { Remember(D.SecretText(codec, fields[i].value), marker.value); }
          DiscoverValue(fields[i].value, left - 1);
        }
        assert fields[..|fields|] == fields;
      case List(items) =>
        for i := 0 to |items|
          invariant Valid() && exactValues == D.DiscoverItems(codec, old(exactValues), items[..i], left - 1)
        {
          assert items[..i + 1][..i] == items[..i];
          DiscoverValue(items[i], left - 1);
        }
        assert items[..|items|] == items;
      case Text(text) =>
        var embedded := D.Embedded(codec, text);
        if embedded.Some? { DiscoverValue(embedded.value, left - 1); }
      case Scalar(_) =>
    }

    method DiscoverText(text: string)
      requires Valid()
      modifies this
      ensures Valid() && exactValues == D.DiscoverPieces(codec, old(exactValues), D.Pieces(text))
    {
      var lines := D.Pieces(text);
      for i := 0 to |lines|
        invariant Valid() && exactValues == D.DiscoverPieces(codec, old(exactValues), lines[..i])
      {
        assert lines[..i + 1][..i] == lines[..i];
        var parsed := D.Embedded(codec, lines[i]);
        if parsed.Some? { DiscoverValue(parsed.value, D.LEVELS); }
      }
      assert lines[..|lines|] == lines;
    }

    method ReplaceExactValues(value: string) returns (result: string)
      requires Valid()
      ensures result == ReplaceExact(exactValues, value)
    {
      OrderIsSafe(exactValues);
      var order := LongestFirst(exactValues);
      result := value;
      assert order[0..] == order;
      for i := 0 to |order|
        invariant Usable(order[i..]) && ReplaceAll(order[i..], result) == ReplaceAll(order, value)
      {
        assert order[i..][1..] == order[i + 1..] && order[i..][0] == order[i];
        result := Replace(result, order[i].value, order[i].marker);
      }
    }

    method ScrubValue(v: D.Json, left: nat) returns (out: D.Json)
      requires Valid()
      modifies this
      ensures Valid() && D.Scrubbed(exactValues, out) == D.ScrubValue(codec, old(exactValues), v, left)
      decreases left, 0
    {
      if left == 0 { return v; }
      match v
      case Object(fields) =>
        var scrubbed := ScrubFields(fields, left - 1);
        out := D.Object(scrubbed);
      case List(items) =>
        var scrubbed := ScrubItems(items, left - 1);
        out := D.List(scrubbed);
      case Text(text) =>
        var value := text;
        var embedded := D.Embedded(codec, text);
        if embedded.Some? {
          var scrubbed := ScrubValue(embedded.value, left - 1);
          value := codec.dump(scrubbed);
        }
        value := ReplaceExactValues(value);
        out := D.Text(value);
      case Scalar(_) => out := v;
    }

    method ScrubFields(fields: seq<D.Field>, left: nat) returns (scrubbed: seq<D.Field>)
      requires Valid()
      modifies this
      ensures Valid() && D.Scrubbed(exactValues, scrubbed) == D.ScrubFields(codec, old(exactValues), fields, left)
      decreases left, 1
    {
      scrubbed := [];
      for i := 0 to |fields|
        invariant Valid() &&
          D.Scrubbed(exactValues, scrubbed) == D.ScrubFields(codec, old(exactValues), fields[..i], left)
      {
        assert fields[..i + 1][..i] == fields[..i];
        var marker := D.ReservedMarker(fields[i].name);
        if marker.Some? {
          Remember(D.SecretText(codec, fields[i].value), marker.value);
          scrubbed := scrubbed + [D.Field(fields[i].name, D.Text(marker.value))];
        } else {
          var child := ScrubValue(fields[i].value, left);
          scrubbed := scrubbed + [D.Field(fields[i].name, child)];
        }
      }
      assert fields[..|fields|] == fields;
    }

    method ScrubItems(items: seq<D.Json>, left: nat) returns (scrubbed: seq<D.Json>)
      requires Valid()
      modifies this
      ensures Valid() && D.Scrubbed(exactValues, scrubbed) == D.ScrubItems(codec, old(exactValues), items, left)
      decreases left, 1
    {
      scrubbed := [];
      for i := 0 to |items|
        invariant Valid() &&
          D.Scrubbed(exactValues, scrubbed) == D.ScrubItems(codec, old(exactValues), items[..i], left)
      {
        assert items[..i + 1][..i] == items[..i];
        var child := ScrubValue(items[i], left);
        scrubbed := scrubbed + [child];
      }
      assert items[..|items|] == items;
    }

    method ScrubLine(piece: string) returns (rendered: string)
      requires Valid()
      modifies this
      ensures Valid() && D.Scrubbed(exactValues, rendered) == D.ScrubPiece(codec, old(exactValues), piece)
    {
      D.BodyIsPrefix(piece);
      var line := D.Body(piece);
      var ending := piece[|line|..];
      var parsed := D.Embedded(codec, line);
      if parsed.Some? {
        var scrubbed := ScrubValue(parsed.value, D.LEVELS);
        if scrubbed != parsed.value {
          rendered := codec.dump(scrubbed);
        } else {
          rendered := ReplaceExactValues(line);
        }
      } else {
        rendered := ReplaceExactValues(line);
      }
      rendered := rendered + ending;
    }

    method ScrubPieces(pieces: seq<string>) returns (out: string, ghost scrubbed: seq<string>)
      requires Valid()
      modifies this
      ensures Valid() && out == D.Concat(scrubbed)
      ensures D.Scrubbed(exactValues, scrubbed) == D.ScrubPieces(codec, old(exactValues), pieces)
    {
      scrubbed := [];
      out := "";
      for i := 0 to |pieces|
        invariant Valid() && out == D.Concat(scrubbed)
        invariant D.Scrubbed(exactValues, scrubbed) == D.ScrubPieces(codec, old(exactValues), pieces[..i])
      {
        PieceAdded(codec, old(exactValues), pieces, i);
        var rendered := ScrubLine(pieces[i]);
        ConcatAdded(scrubbed, rendered);
        scrubbed := scrubbed + [rendered];
        out := out + rendered;
      }
      assert pieces[..|pieces|] == pieces;
    }

    method ScrubText(text: string) returns (out: string)
      requires Valid()
      modifies this
      ensures Valid() && D.Scrubbed(exactValues, out) == D.ScrubText(codec, old(exactValues), text)
    {
      DiscoverText(text);
      ghost var scrubbed;
      out, scrubbed := ScrubPieces(D.Pieces(text));
    }
  }

  lemma PieceAdded(c: D.Codec, known: seq<Secret>, pieces: seq<string>, i: nat)
    requires Usable(known) && i < |pieces|
    ensures var before := D.ScrubPieces(c, known, pieces[..i]);
            var r := D.ScrubPiece(c, before.known, pieces[i]);
            D.ScrubPieces(c, known, pieces[..i + 1]) == D.Scrubbed(r.known, before.out + [r.out])
  {
    assert pieces[..i + 1][..i] == pieces[..i];
  }

  lemma ConcatAdded(pieces: seq<string>, piece: string)
    ensures D.Concat(pieces + [piece]) == D.Concat(pieces) + piece
  {
    assert (pieces + [piece])[..|pieces|] == pieces;
  }

  function Texts(lines: seq<Option<seq<string>>>): seq<A.Artifact> {
    seq(|lines|, i requires 0 <= i < |lines| => A.Held(lines[i]))
  }

  lemma TextsGrow(lines: seq<Option<seq<string>>>, more: Option<seq<string>>)
    ensures Texts(lines + [more]) == Texts(lines) + [A.Held(more)]
  {
  }

  lemma ChangedGrows(before: seq<A.Artifact>, after: seq<A.Artifact>, b: A.Artifact, a: A.Artifact)
    requires |before| == |after|
    ensures Changed(before + [b], after + [a]) == Changed(before, after) + (if b != a then [|before|] else [])
  {
    assert (before + [b])[..|before|] == before && (after + [a])[..|after|] == after;
  }

  method LearnFromAll(files: array<A.Artifact>, scrubber: DurableSecretScrubber)
    requires scrubber.Valid()
    modifies scrubber
    ensures scrubber.Valid()
    ensures scrubber.exactValues == A.LearnAll(scrubber.codec, old(scrubber.exactValues), files[..])
  {
    for i := 0 to files.Length
      invariant scrubber.Valid()
      invariant scrubber.exactValues == A.LearnAll(scrubber.codec, old(scrubber.exactValues), files[..i])
    {
      assert files[..i + 1][..i] == files[..i];
      if files[i].Some? { scrubber.DiscoverText(files[i].value); }
    }
    assert files[..files.Length] == files[..];
  }

  method ScrubFile(file: A.Artifact, scrubber: DurableSecretScrubber)
      returns (after: A.Artifact, ghost lines: Option<seq<string>>)
    requires scrubber.Valid()
    modifies scrubber
    ensures scrubber.Valid() && after == A.Held(lines) && lines.Some? == file.Some?
    ensures file.Some? ==>
      D.Scrubbed(scrubber.exactValues, lines.value) ==
        D.ScrubLines(scrubber.codec, old(scrubber.exactValues), file.value)
    ensures file.None? ==> scrubber.exactValues == old(scrubber.exactValues)
  {
    if file.None? { return None, None; }
    lines := Some(D.ScrubLines(scrubber.codec, scrubber.exactValues, file.value).out);
    var text := scrubber.ScrubText(file.value);
    after := Some(text);
  }

  method ScrubEach(files: array<A.Artifact>, scrubber: DurableSecretScrubber) returns (changed: seq<nat>)
    requires scrubber.Valid()
    modifies files, scrubber
    ensures scrubber.Valid()
    ensures var r := A.ScrubAll(scrubber.codec, old(scrubber.exactValues), old(files[..]));
            && scrubber.exactValues == r.known && files[..] == Texts(r.out)
            && changed == Changed(old(files[..]), Texts(r.out))
  {
    ghost var before, c, learned := files[..], scrubber.codec, scrubber.exactValues;
    changed := [];
    ghost var lines: seq<Option<seq<string>>> := [];
    for i := 0 to files.Length
      invariant scrubber.Valid() && |lines| == i
      invariant D.Scrubbed(scrubber.exactValues, lines) == A.ScrubAll(c, learned, before[..i])
      invariant files[..i] == Texts(lines) && forall j :: i <= j < files.Length ==> files[j] == before[j]
      invariant changed == Changed(before[..i], Texts(lines))
    {
      assert before[..i + 1] == before[..i] + [before[i]] && before[..i + 1][..i] == before[..i];
      var scrubbed, next := ScrubFile(files[i], scrubber);
      if scrubbed != files[i] {
        files[i] := scrubbed;
        changed := changed + [i];
      }
      TextsGrow(lines, next);
      ChangedGrows(before[..i], Texts(lines), before[i], A.Held(next));
      lines := lines + [next];
      assert files[..i + 1] == files[..i] + [files[i]];
    }
    assert before[..files.Length] == before && files[..files.Length] == files[..];
  }

  /** Two passes over the artifacts: learn from all of them, then scrub each in place. */
  method ScrubDurableTextArtifacts(files: array<A.Artifact>, scrubber: DurableSecretScrubber)
      returns (changed: seq<nat>)
    requires scrubber.Valid()
    modifies files, scrubber
    ensures scrubber.Valid()
    ensures var r := A.ScrubArtifacts(scrubber.codec, old(scrubber.exactValues), old(files[..]));
            && scrubber.exactValues == r.known && files[..] == Texts(r.out)
            && changed == Changed(old(files[..]), Texts(r.out))
  {
    LearnFromAll(files, scrubber);
    changed := ScrubEach(files, scrubber);
  }
}
