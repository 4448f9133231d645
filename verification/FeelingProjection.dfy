/** Instruction bundles with at most one Feeling capsule: cleaning every text, and the canonical projection. */
module FeelingProjection {
  import opened Prelude
  import opened Strings
  import opened FeelingCapsules

  // ---------------------------------------------------------------------------
  // Cleaned text
  // ---------------------------------------------------------------------------

  /** The trimmed parts that are not blank. */
  function NonBlank(parts: seq<string>): seq<string> {
    if parts == [] then []
    else (if Trim(parts[0]) == "" then [] else [Trim(parts[0])]) + NonBlank(parts[1..])
  }

  const GAP: string := "\n\n"

  function JoinParts(parts: seq<string>): string {
    if parts == [] then ""
    else if |parts| == 1 then parts[0]
    else parts[0] + GAP + JoinParts(parts[1..])
  }

  /** A text split into its cleaned remainder and its capsules. */
  datatype Cleaned = Cleaned(text: string, capsules: seq<string>)

  /** `_split_viventium_feeling_capsules`. */
  function Split(m: Markers, value: string): Result<Cleaned, Malformed>
    requires Bracketed(m)
  {
    if Trim(value) == "" then Ok(Cleaned("", [])) else CleanedOf(SplitText(m, Trim(value)))
  }

  /** The gaps that are not blank, trimmed and joined. */
  function CleanedOf(r: Result<Pieces, Malformed>): Result<Cleaned, Malformed> {
    if r.Err? then Err(r.error) else Ok(Cleaned(JoinParts(NonBlank(r.value.parts)), r.value.capsules))
  }

  method SplitCapsules(m: Markers, value: string) returns (r: Result<Cleaned, Malformed>)
    requires Bracketed(m)
    ensures r == Split(m, value)
  {
    var text := Trim(value);
    if text == "" { return Ok(Cleaned("", [])); }
    var pieces := Scan(m, text);
    return CleanedOf(pieces);
  }

  lemma FreeSlice(m: Markers, s: string, lo: nat, hi: nat)
    requires Free(m, s) && lo <= hi <= |s|
    ensures Free(m, s[lo..hi])
  {
    SliceFree(s, m.prefix, lo, hi);
    SliceFree(s, m.end, lo, hi);
  }

  lemma FreeTrim(m: Markers, s: string)
    requires Free(m, s)
    ensures Free(m, Trim(s))
  {
    TrimEdges(s);
    var lo: nat, hi: nat :| lo <= hi <= |s| && Trim(s) == s[lo..hi];
    FreeSlice(m, s, lo, hi);
  }

  /** A pattern without line breaks does not straddle a gap. */
  lemma NoneAcrossGap(a: string, b: string, pat: string)
    requires pat != "" && '\n' !in pat
    requires !Contains(a, pat) && !Contains(b, pat)
    ensures !Contains(a + GAP + b, pat)
  {
    var s := a + GAP + b;
    forall i: nat | i <= |s|
      ensures !OccursAt(s, pat, i)
    {
      if i + |pat| <= |a| {
        OccursInSlice(s, pat, 0, |a|, i);
        assert s[0..|a|] == a;
      } else if i >= |a| + 2 && i + |pat| <= |s| {
        OccursInSlice(s, pat, |a| + 2, |s|, i);
        assert s[|a| + 2..|s|] == b;
      } else if i + |pat| <= |s| {
        var k := if i < |a| then |a| - i else 0;
        assert s[i + k] == '\n' && pat[k] in pat;
      }
    }
  }

  lemma FreeGap(m: Markers, a: string, b: string)
    requires Bracketed(m) && Free(m, a) && Free(m, b)
    ensures Free(m, a + GAP + b)
  {
    NoneAcrossGap(a, b, m.prefix);
    NoneAcrossGap(a, b, m.end);
  }

  lemma EmptyFree(m: Markers)
    requires Bracketed(m)
    ensures Free(m, "")
  {
  }

  lemma {:induction false} NonBlankClean(m: Markers, parts: seq<string>)
    requires forall i :: 0 <= i < |parts| ==> Free(m, parts[i])
    ensures forall i :: 0 <= i < |NonBlank(parts)| ==> Free(m, NonBlank(parts)[i]) && Edged(NonBlank(parts)[i])
  {
    if parts != [] {
      NonBlankClean(m, parts[1..]);
      FreeTrim(m, parts[0]);
      TrimEdges(parts[0]);
    }
  }

  lemma {:induction false} JoinClean(m: Markers, parts: seq<string>)
    requires Bracketed(m)
    requires forall i :: 0 <= i < |parts| ==> Free(m, parts[i]) && Edged(parts[i])
    ensures Free(m, JoinParts(parts))
    ensures parts != [] ==> Edged(JoinParts(parts))
  {
    if parts == [] {
      EmptyFree(m);
    } else if |parts| > 1 {
      JoinClean(m, parts[1..]);
      FreeGap(m, parts[0], JoinParts(parts[1..]));
    }
  }

  /** The cleaned text holds no marker and is trimmed; every capsule is well formed. */
  lemma SplitIsClean(m: Markers, value: string)
    requires Bracketed(m) && Split(m, value).Ok?
    ensures var c := Split(m, value).value;
            && Free(m, c.text) && Trim(c.text) == c.text
            && forall i :: 0 <= i < |c.capsules| ==> IsCapsule(m, c.capsules[i])
  {
    if Trim(value) == "" {
      EmptyFree(m);
    } else {
      SplitSound(m, Trim(value));
      var pieces := SplitText(m, Trim(value)).value;
      NonBlankClean(m, pieces.parts);
      JoinClean(m, NonBlank(pieces.parts));
      TrimEdges(JoinParts(NonBlank(pieces.parts)));
    }
  }

  /** A marker-free trimmed text is a fixed point. */
  lemma CleanIsFixed(m: Markers, text: string)
    requires Bracketed(m) && Free(m, text) && Trim(text) == text
    ensures Split(m, text) == Ok(Cleaned(text, []))
  {
    if text != "" {
      var p := Pieces([text], []);
      assert Weave(p) == text;
      SplitComplete(m, p);
      assert NonBlank([text]) == [text] + NonBlank([text][1..]) == [text];
    }
  }

  lemma SplitIdempotent(m: Markers, value: string)
    requires Bracketed(m) && Split(m, value).Ok?
    ensures Split(m, Split(m, value).value.text) == Ok(Cleaned(Split(m, value).value.text, []))
  {
    SplitIsClean(m, value);
    CleanIsFixed(m, Split(m, value).value.text);
  }

  /** A cleaned text with one capsule put at its end. */
  function WithCapsule(text: string, capsule: string): string {
    if text == "" then capsule else text + GAP + capsule
  }

  lemma TrimBeforeGap(text: string)
    requires Edged(text)
    ensures Trim(text + GAP) == text
  {
    var s := text + GAP;
    assert TrimStart(s) == s;
    assert s[..|s| - 1] == text + "\n" && (text + "\n")[..|text|] == text;
    assert TrimEnd(text) == text;
    assert TrimEnd(text + "\n") == text;
  }

  lemma CapsuleEdged(m: Markers, capsule: string)
    requires Bracketed(m) && IsCapsule(m, capsule)
    ensures Edged(capsule)
  {
  }

  lemma PartBeforeCapsule(m: Markers, text: string) returns (part: string)
    requires Bracketed(m) && Free(m, text) && Trim(text) == text
    ensures Free(m, part) && Trim(part) == text
    ensures forall capsule :: part + capsule == WithCapsule(text, capsule)
  {
    if text == "" {
      part := "";
    } else {
      part := text + GAP;
      EmptyFree(m);
      FreeGap(m, text, "");
      assert text + GAP + "" == part;
      TrimEdges(text);
      TrimBeforeGap(text);
    }
  }

  lemma WithCapsuleTrimmed(m: Markers, text: string, capsule: string)
    requires Bracketed(m) && Trim(text) == text && IsCapsule(m, capsule)
    ensures Trim(WithCapsule(text, capsule)) == WithCapsule(text, capsule) != ""
  {
    CapsuleEdged(m, capsule);
    TrimEdges(text);
    TrimEdges(WithCapsule(text, capsule));
  }

  lemma OneCapsulePieces(m: Markers, part: string, capsule: string)
    requires Bracketed(m) && Free(m, part) && IsCapsule(m, capsule)
    ensures SplitText(m, part + capsule) == Ok(Pieces([part, ""], [capsule]))
  {
    EmptyFree(m);
    WeaveOne(part, capsule);
    SplitComplete(m, Pieces([part, ""], [capsule]));
  }

  /** Splitting it again gives back exactly the text and the capsule. */
  lemma WithCapsuleSplits(m: Markers, text: string, capsule: string)
    requires Bracketed(m) && Free(m, text) && Trim(text) == text && IsCapsule(m, capsule)
    ensures Split(m, WithCapsule(text, capsule)) == Ok(Cleaned(text, [capsule]))
  {
    WithCapsuleTrimmed(m, text, capsule);
    var part := PartBeforeCapsule(m, text);
    OneCapsulePieces(m, part, capsule);
    NonBlankPair(part);
  }

  lemma WeaveOne(part: string, capsule: string)
    ensures Weave(Pieces([part, ""], [capsule])) == part + capsule
  {
    var p := Pieces([part, ""], [capsule]);
    assert p.parts[1..] == [""] && p.capsules[1..] == [];
    assert Weave(Pieces([""], [])) == "";
    assert capsule + "" == capsule;
  }

  lemma NonBlankPair(part: string)
    ensures JoinParts(NonBlank([part, ""])) == Trim(part)
  {
    assert [part, ""][1..] == [""] && [""][1..] == [];
    assert NonBlank([""]) == [];
    assert NonBlank([part, ""]) == (if Trim(part) == "" then [] else [Trim(part)]);
  }

  // ---------------------------------------------------------------------------
  // What the cleaned text is made of
  // ---------------------------------------------------------------------------

  /** The text is the visible gaps, each trimmed, in order, with blank lines between them. */
  ghost predicate MadeOf(text: string, gaps: seq<string>)
    decreases |gaps|
  {
    if gaps == [] then text == ""
    else if Trim(gaps[0]) == "" then MadeOf(text, gaps[1..])
    else
      || (text == Trim(gaps[0]) && forall i :: 1 <= i < |gaps| ==> Trim(gaps[i]) == "")
      || exists rest :: rest != "" && text == Trim(gaps[0]) + "\n\n" + rest && MadeOf(rest, gaps[1..])
  }

  lemma {:induction false} NoneVisible(gaps: seq<string>)
    ensures NonBlank(gaps) == [] <==> forall i :: 0 <= i < |gaps| ==> Trim(gaps[i]) == ""
  {
    if gaps != [] {
      NoneVisible(gaps[1..]);
      assert forall i :: 1 <= i < |gaps| ==> gaps[i] == gaps[1..][i - 1];
    }
  }

  lemma {:induction false} JoinedNotEmpty(gaps: seq<string>)
    ensures NonBlank(gaps) != [] ==> JoinParts(NonBlank(gaps)) != ""
  {
    if gaps != [] { JoinedNotEmpty(gaps[1..]); }
  }

  lemma {:induction false} JoinedIsMade(gaps: seq<string>)
    ensures MadeOf(JoinParts(NonBlank(gaps)), gaps)
  {
    if gaps != [] {
      JoinedIsMade(gaps[1..]);
      NoneVisible(gaps[1..]);
      JoinedNotEmpty(gaps[1..]);
      if Trim(gaps[0]) == "" {
        assert [] + NonBlank(gaps[1..]) == NonBlank(gaps[1..]);
      } else {
        assert ([Trim(gaps[0])] + NonBlank(gaps[1..]))[1..] == NonBlank(gaps[1..]);
      }
    }
  }

  /**
   * A value splits exactly when its trimmed text is gaps and well-formed blocks interleaved; the capsules are those
   * blocks, in order, and the cleaned text is made of the gaps.
   */
  lemma SplitGives(m: Markers, value: string)
    requires Bracketed(m)
    ensures Split(m, value).Ok? <==> exists p :: Genuine(m, p) && Weave(p) == Trim(value)
    ensures forall p :: Genuine(m, p) && Weave(p) == Trim(value) ==>
      Split(m, value).Ok? && Split(m, value).value.capsules == p.capsules && MadeOf(Split(m, value).value.text, p.parts)
  {
    SplitAcceptsIff(m, Trim(value));
    if Trim(value) == "" { EmptySplits(m); }
    forall p | Genuine(m, p) && Weave(p) == Trim(value)
      ensures Split(m, value).Ok? && Split(m, value).value.capsules == p.capsules
      ensures MadeOf(Split(m, value).value.text, p.parts)
    {
      SplitComplete(m, p);
      JoinedIsMade(p.parts);
      if Trim(value) == "" { EmptyPieces(p); }
    }
  }

  lemma EmptySplits(m: Markers)
    requires Bracketed(m)
    ensures Genuine(m, Pieces([""], [])) && Weave(Pieces([""], [])) == ""
  {
    EmptyFree(m);
  }

  lemma EmptyPieces(p: Pieces)
    requires |p.parts| == |p.capsules| + 1 && Weave(p) == ""
    requires forall i :: 0 <= i < |p.capsules| ==> p.capsules[i] != ""
    ensures p == Pieces([""], [])
  {
  }
}
