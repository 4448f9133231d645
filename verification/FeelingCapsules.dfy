/** The splitter that takes managed Feeling blocks out of an instruction text. */
module FeelingCapsules {
  import opened Prelude
  import opened Strings

  /** The three marker texts of a managed block. */
  datatype Markers = Markers(prefix: string, start: string, end: string)

  const NAME: string := "viventium_feeling_state"

  /**
   * Brackets stand only at a marker's ends, so no marker straddles a seam that has one; and no marker holds a newline.
   */
  ghost predicate Bracketed(m: Markers) {
    && |m.prefix| >= 2 && |m.end| >= 2
    && m.start == m.prefix + ">"
    && m.prefix[0] == '<' && m.end[0] == '<' && m.end[|m.end| - 1] == '>'
    && '<' !in m.prefix[1..] && '<' !in m.end[1..]
    && '\n' !in m.prefix && '\n' !in m.end
  }

  function Tagged(name: string): Markers {
    Markers("<" + name, "<" + name + ">", "</" + name + ">")
  }

  /** The Feeling block's markers. */
  const FEELING := Tagged(NAME)

  lemma TaggedIsBracketed(name: string)
    requires name != "" && '<' !in name && '\n' !in name
    ensures Bracketed(Tagged(name))
  {
    var m := Tagged(name);
    assert m.prefix[1..] == name && m.end[1..] == "/" + name + ">";
  }

  lemma FeelingIsSpelled()
    ensures FEELING.prefix == "<viventium_feeling_state" && FEELING.start == "<viventium_feeling_state>"
    ensures FEELING.end == "</viventium_feeling_state>"
  {
  }

  lemma FeelingIsBracketed()
    ensures Bracketed(FEELING)
  {
    assert '<' !in NAME && '\n' !in NAME;
    TaggedIsBracketed(NAME);
  }

  /** The first position of `pat` in `s`. */
  function Find(s: string, pat: string): (r: Option<nat>)
    ensures r.Some? ==> r.value + |pat| <= |s|
  {
    FindFrom(s, pat, 0)
  }

  function FindFrom(s: string, pat: string, from: nat): (r: Option<nat>)
    requires from <= |s|
    ensures r.Some? ==> r.value + |pat| <= |s|
    decreases |s| - from
  {
    if OccursAt(s, pat, from) then Some(from)
    else if from == |s| then None
    else FindFrom(s, pat, from + 1)
  }

  lemma {:induction false} FindFromSpec(s: string, pat: string, from: nat)
    requires from <= |s|
    ensures var r := FindFrom(s, pat, from);
            && (r.Some? ==> from <= r.value && OccursAt(s, pat, r.value) && forall i :: from <= i < r.value ==>
              !OccursAt(s, pat, i))
            && (r.None? ==> forall i :: from <= i <= |s| ==> !OccursAt(s, pat, i))
    decreases |s| - from
  {
    if !OccursAt(s, pat, from) && from < |s| { FindFromSpec(s, pat, from + 1); }
  }

  /** What is found is the first occurrence, and nothing is found only when there is none. */
  lemma FindSpec(s: string, pat: string)
    ensures var r := Find(s, pat);
            && (r.Some? ==> OccursAt(s, pat, r.value) && forall i :: 0 <= i < r.value ==> !OccursAt(s, pat, i))
            && (r.None? <==> !Contains(s, pat))
  {
    FindFromSpec(s, pat, 0);
  }

  datatype Malformed = Malformed

  /** Raw gaps and the capsules between them. */
  datatype Pieces = Pieces(parts: seq<string>, capsules: seq<string>)

  /** The next managed block of a text, if there is one. */
  datatype Found = NoMore | Block(start: nat, stop: nat)

  function NextBlock(m: Markers, t: string): (r: Result<Found, Malformed>)
    requires Bracketed(m)
    ensures r.Ok? && r.value.Block? ==> r.value.start < r.value.stop <= |t|
  {
    var start, orphan := Find(t, m.prefix), Find(t, m.end);
    if start.None? then
      if orphan.Some? then Err(Malformed) else Ok(NoMore)
    else if orphan.Some? && orphan.value < start.value then Err(Malformed)
    else if !OccursAt(t, m.start, start.value) then Err(Malformed)
    else
      var body := start.value + |m.start|;
      var close := Find(t[body..], m.end);
      if close.None? || Contains(t[body..body + close.value], m.prefix) then Err(Malformed)
      else Ok(Block(start.value, body + close.value + |m.end|))
  }

  /** The scan of one remaining text, block by block. */
  function SplitText(m: Markers, t: string): Result<Pieces, Malformed>
    requires Bracketed(m)
    decreases |t|
  {
    var found :- NextBlock(m, t);
    if found.NoMore? then Ok(Pieces([t], []))
    else
      var rest :- SplitText(m, t[found.stop..]);
      Ok(Pieces([t[..found.start]] + rest.parts, [t[found.start..found.stop]] + rest.capsules))
  }

  /** What was found already, in front of what the rest of the scan finds. */
  function After(parts: seq<string>, capsules: seq<string>, rest: Result<Pieces, Malformed>)
    : Result<Pieces, Malformed>
  {
    if rest.Ok? then Ok(Pieces(parts + rest.value.parts, capsules + rest.value.capsules)) else rest
  }

  /** No marker occurs anywhere in the text. */
  ghost predicate Free(m: Markers, s: string) {
    !Contains(s, m.prefix) && !Contains(s, m.end)
  }

  /** A well-formed block: start marker, a body without markers, end marker. */
  ghost predicate IsCapsule(m: Markers, c: string) {
    exists body :: c == m.start + body + m.end && Free(m, body)
  }

  /** Gaps and capsules interleaved. */
  function Weave(p: Pieces): string
    requires |p.parts| == |p.capsules| + 1
    decreases |p.capsules|
  {
    if p.capsules == [] then p.parts[0]
    else p.parts[0] + (p.capsules[0] + Weave(Pieces(p.parts[1..], p.capsules[1..])))
  }

  ghost predicate Genuine(m: Markers, p: Pieces) {
    && |p.parts| == |p.capsules| + 1
    && (forall i :: 0 <= i < |p.parts| ==> Free(m, p.parts[i]))
    && (forall i :: 0 <= i < |p.capsules| ==> IsCapsule(m, p.capsules[i]))
  }

  // ---------------------------------------------------------------------------
  // Occurrences and seams
  // ---------------------------------------------------------------------------

  lemma OccursInSlice(s: string, pat: string, lo: nat, hi: nat, i: nat)
    requires lo <= hi <= |s| && lo <= i && i + |pat| <= hi
    ensures OccursAt(s, pat, i) <==> OccursAt(s[lo..hi], pat, i - lo)
  {
  }

  lemma SliceFree(s: string, pat: string, lo: nat, hi: nat)
    requires lo <= hi <= |s|
    requires forall i: nat :: lo <= i && i + |pat| <= hi ==> !OccursAt(s, pat, i)
    ensures !Contains(s[lo..hi], pat)
  {
    forall j: nat | j <= hi - lo
      ensures !OccursAt(s[lo..hi], pat, j)
    {
      if j + |pat| <= hi - lo { OccursInSlice(s, pat, lo, hi, lo + j); }
    }
  }

  /** No occurrence starts in `a` when `b` opens with a bracket the pattern has only at its front. */
  lemma NoneBeforeOpening(a: string, b: string, pat: string, i: nat)
    requires pat != "" && b != "" && b[0] == '<' && '<' !in pat[1..]
    requires !Contains(a, pat)
    requires i < |a|
    ensures !OccursAt(a + b, pat, i)
  {
    if i + |pat| <= |a| {
      OccursInSlice(a + b, pat, 0, |a|, i);
      assert (a + b)[0..|a|] == a;
    } else if i + |pat| <= |a + b| {
      var k := |a| - i;
      assert (a + b)[i + k] == '<';
      assert pat[k] == pat[1..][k - 1];
    }
  }

  lemma FindIs(s: string, pat: string, i: nat)
    requires OccursAt(s, pat, i)
    requires forall j :: 0 <= j < i ==> !OccursAt(s, pat, j)
    ensures Find(s, pat) == Some(i)
  {
    FindSpec(s, pat);
  }

  lemma FindNone(s: string, pat: string)
    requires !Contains(s, pat)
    ensures Find(s, pat) == None
  {
    FindSpec(s, pat);
  }

  // ---------------------------------------------------------------------------
  // The splitter accepts exactly the genuine texts, and recovers their pieces
  // ---------------------------------------------------------------------------

  /** What the scan takes for a block is one, and the gap before it is free. */
  lemma NextBlockSound(m: Markers, t: string)
    requires Bracketed(m)
    requires NextBlock(m, t).Ok?
    ensures match NextBlock(m, t).value
            case NoMore => Free(m, t)
            case Block(start, stop) => Free(m, t[..start]) && IsCapsule(m, t[start..stop])
  {
    var start := Find(t, m.prefix);
    FindSpec(t, m.prefix);
    FindSpec(t, m.end);
    if start.Some? {
      var body := start.value + |m.start|;
      GapFree(m, t, start.value);
      CapsuleFound(m, t, start.value, body, Find(t[body..], m.end).value);
    }
  }

  lemma Recombine(t: string, a: nat, b: nat)
    requires a <= b <= |t|
    ensures t == t[..a] + (t[a..b] + t[b..])
  {
  }

  lemma {:induction false} SplitSound(m: Markers, t: string)
    requires Bracketed(m)
    requires SplitText(m, t).Ok?
    ensures Genuine(m, SplitText(m, t).value)
    ensures Weave(SplitText(m, t).value) == t
    decreases |t|
  {
    NextBlockSound(m, t);
    var found := NextBlock(m, t).value;
    if found.Block? {
      SplitSound(m, t[found.stop..]);
      GenuinePrepend(m, t[..found.start], t[found.start..found.stop], SplitText(m, t[found.stop..]).value);
      Recombine(t, found.start, found.stop);
    }
  }

  /** The text before the first prefix, with no end marker before it, is free of both. */
  lemma GapFree(m: Markers, t: string, start: nat)
    requires Bracketed(m)
    requires Find(t, m.prefix) == Some(start)
    requires Find(t, m.end).Some? ==> start <= Find(t, m.end).value
    ensures Free(m, t[..start])
  {
    FindSpec(t, m.prefix);
    FindSpec(t, m.end);
    SliceFree(t, m.prefix, 0, start);
    SliceFree(t, m.end, 0, start);
    assert t[0..start] == t[..start];
  }

  lemma GenuinePrepend(m: Markers, part: string, capsule: string, rest: Pieces)
    requires Genuine(m, rest) && Free(m, part) && IsCapsule(m, capsule)
    ensures var p := Pieces([part] + rest.parts, [capsule] + rest.capsules);
            Genuine(m, p) && Weave(p) == part + (capsule + Weave(rest))
  {
    var p := Pieces([part] + rest.parts, [capsule] + rest.capsules);
    assert p.parts[1..] == rest.parts && p.capsules[1..] == rest.capsules;
  }

  lemma CapsuleFound(m: Markers, t: string, start: nat, body: nat, close: nat)
    requires Bracketed(m)
    requires OccursAt(t, m.start, start) && body == start + |m.start|
    requires Find(t[body..], m.end) == Some(close)
    requires !Contains(t[body..body + close], m.prefix)
    ensures IsCapsule(m, t[start..body + close + |m.end|])
  {
    var inner := t[body..body + close];
    var tail := t[body..];
    FindSpec(tail, m.end);
    SliceFree(tail, m.end, 0, close);
    assert tail[0..close] == inner;
    assert OccursAt(tail, m.end, close);
    assert t[start..body + close + |m.end|] == m.start + inner + m.end;
  }

  function Rest(p: Pieces): Pieces
    requires p.parts != [] && p.capsules != []
  {
    Pieces(p.parts[1..], p.capsules[1..])
  }

  lemma GenuineTail(m: Markers, p: Pieces)
    requires Genuine(m, p) && p.capsules != []
    ensures Genuine(m, Rest(p)) && Free(m, p.parts[0]) && IsCapsule(m, p.capsules[0])
  {
  }

  lemma Unweave(p: Pieces)
    requires p.parts != [] && p.capsules != [] && |p.parts| == |p.capsules| + 1
    ensures Weave(p) == p.parts[0] + (p.capsules[0] + Weave(Rest(p)))
  {
  }

  lemma FrontAndRest(p: Pieces)
    requires p.parts != [] && p.capsules != []
    ensures p == Pieces([p.parts[0]] + Rest(p).parts, [p.capsules[0]] + Rest(p).capsules)
  {
  }

  lemma {:induction false} SplitComplete(m: Markers, p: Pieces)
    requires Bracketed(m) && Genuine(m, p)
    ensures SplitText(m, Weave(p)) == Ok(p)
    decreases |p.capsules|
  {
    if p.capsules == [] {
      assert p.parts == [p.parts[0]];
      FindNone(p.parts[0], m.prefix);
      FindNone(p.parts[0], m.end);
    } else {
      GenuineTail(m, p);
      Unweave(p);
      FrontAndRest(p);
      SplitComplete(m, Rest(p));
      SplitStep(m, p.parts[0], p.capsules[0], Weave(Rest(p)));
    }
  }

  /** A first block opens at `a` and closes `n` characters after its start marker. */
  ghost predicate Seams(m: Markers, t: string, a: nat, n: nat) {
    && Find(t, m.prefix) == Some(a)
    && (Find(t, m.end).Some? ==> a <= Find(t, m.end).value)
    && OccursAt(t, m.start, a)
    && Find(t[a + |m.start|..], m.end) == Some(n)
    && a + |m.start| + n <= |t| && !Contains(t[a + |m.start|..a + |m.start| + n], m.prefix)
  }

  /** The prefix is first found where the block opens, and no end marker before it. */
  lemma OpeningFound(m: Markers, t: string, part: string, rest: string)
    requires Bracketed(m) && Free(m, part) && t == part + (m.start + rest)
    ensures Find(t, m.prefix) == Some(|part|) && OccursAt(t, m.start, |part|)
    ensures Find(t, m.end).Some? ==> |part| <= Find(t, m.end).value
    ensures t[|part| + |m.start|..] == rest
  {
    forall i: nat | i < |part| ensures !OccursAt(t, m.prefix, i) && !OccursAt(t, m.end, i) {
      NoneBeforeOpening(part, m.start + rest, m.prefix, i);
      NoneBeforeOpening(part, m.start + rest, m.end, i);
    }
    assert OccursAt(t, m.start, |part|) && OccursAt(t, m.prefix, |part|);
    FindIs(t, m.prefix, |part|);
    FindSpec(t, m.end);
  }

  /** The end marker is first found where the body ends. */
  lemma ClosingFound(m: Markers, t: string, body: string, tail: string)
    requires Bracketed(m) && Free(m, body) && t == body + (m.end + tail)
    ensures Find(t, m.end) == Some(|body|) && t[..|body|] == body
  {
    forall i: nat | i < |body| ensures !OccursAt(t, m.end, i) {
      NoneBeforeOpening(body, m.end + tail, m.end, i);
    }
    assert OccursAt(t, m.end, |body|);
    FindIs(t, m.end, |body|);
  }

  /** Where the markers of a gap and a capsule at the front of a text are first found. */
  lemma SeamsFound(m: Markers, t: string, part: string, body: string, tail: string)
    requires Bracketed(m) && Free(m, part) && Free(m, body)
    requires t == part + (m.start + (body + (m.end + tail)))
    ensures Seams(m, t, |part|, |body|)
  {
    OpeningFound(m, t, part, body + (m.end + tail));
    ClosingFound(m, body + (m.end + tail), body, tail);
    BodySlice(part, m.start, body, m.end + tail);
  }

  lemma BlockFromFinds(m: Markers, t: string, a: nat, n: nat)
    requires Bracketed(m)
    requires Seams(m, t, a, n)
    ensures NextBlock(m, t) == Ok(Block(a, a + |m.start| + n + |m.end|))
  {
  }

  lemma NextBlockFound(m: Markers, t: string, part: string, body: string, tail: string)
    requires Bracketed(m) && Free(m, part) && Free(m, body)
    requires t == part + (m.start + (body + (m.end + tail)))
    ensures NextBlock(m, t) == Ok(Block(|part|, |part| + |m.start| + |body| + |m.end|))
  {
    SeamsFound(m, t, part, body, tail);
    BlockFromFinds(m, t, |part|, |body|);
  }

  lemma BodySlice(a: string, b: string, c: string, d: string)
    ensures (a + (b + (c + d)))[|a| + |b|..|a| + |b| + |c|] == c
  {
  }

  lemma MiddleSlice(a: string, b: string, c: string)
    ensures (a + (b + c))[..|a|] == a
    ensures (a + (b + c))[|a|..|a| + |b|] == b
    ensures (a + (b + c))[|a| + |b|..] == c
  {
  }

  lemma SplitAtBlock(m: Markers, t: string, a: nat, b: nat)
    requires Bracketed(m) && NextBlock(m, t) == Ok(Block(a, b))
    ensures SplitText(m, t) == After([t[..a]], [t[a..b]], SplitText(m, t[b..]))
  {
  }

  lemma BlockAtSeam(m: Markers, t: string, part: string, capsule: string, tail: string)
    requires Bracketed(m) && Free(m, part) && IsCapsule(m, capsule)
    requires t == part + (capsule + tail)
    ensures NextBlock(m, t) == Ok(Block(|part|, |part| + |capsule|))
  {
    var body :| capsule == m.start + body + m.end && Free(m, body);
    SeamWithBody(m, t, part, body, capsule, tail);
  }

  lemma SeamWithBody(m: Markers, t: string, part: string, body: string, capsule: string, tail: string)
    requires Bracketed(m) && Free(m, part) && Free(m, body)
    requires capsule == m.start + body + m.end && t == part + (capsule + tail)
    ensures NextBlock(m, t) == Ok(Block(|part|, |part| + |capsule|))
  {
    Reassociate(part, m.start, body, m.end, tail);
    NextBlockFound(m, t, part, body, tail);
  }

  /** One gap and one capsule at the front of a text are split off as such. */
  lemma SplitStep(m: Markers, part: string, capsule: string, tail: string)
    requires Bracketed(m) && Free(m, part) && IsCapsule(m, capsule)
    ensures SplitText(m, part + (capsule + tail)) == After([part], [capsule], SplitText(m, tail))
  {
    var t := part + (capsule + tail);
    BlockAtSeam(m, t, part, capsule, tail);
    MiddleSlice(part, capsule, tail);
    SplitAtBlock(m, t, |part|, |part| + |capsule|);
  }

  lemma Reassociate(a: string, b: string, c: string, d: string, e: string)
    ensures a + ((b + c + d) + e) == a + (b + (c + (d + e)))
  {
  }

  /** A text is accepted exactly when it is marker-free gaps around well-formed blocks. */
  lemma SplitAcceptsIff(m: Markers, t: string)
    requires Bracketed(m)
    ensures SplitText(m, t).Ok? <==> exists p :: Genuine(m, p) && Weave(p) == t
  {
    if SplitText(m, t).Ok? { SplitSound(m, t); }
    if p :| Genuine(m, p) && Weave(p) == t { SplitComplete(m, p); }
  }

  /** The split by the program's own markers. */
  function SplitFeeling(t: string): Result<Pieces, Malformed> {
    FeelingIsBracketed();
    SplitText(FEELING, t)
  }

  /** Its texts are the marker-free gaps around well-formed blocks, and it recovers exactly those. */
  lemma SplitFeelingIff(t: string, p: Pieces)
    ensures SplitFeeling(t) == Ok(p) <==> Genuine(FEELING, p) && Weave(p) == t
  {
    FeelingIsBracketed();
    if SplitText(FEELING, t) == Ok(p) { SplitSound(FEELING, t); }
    if Genuine(FEELING, p) { SplitComplete(FEELING, p); }
  }

  /** The two lists, then the split of what the cursor has not passed, make up the split of the whole text. */
  ghost predicate Pending(m: Markers, text: string, cursor: nat, parts: seq<string>, capsules: seq<string>)
    requires Bracketed(m) && cursor <= |text|
  {
    After(parts, capsules, SplitText(m, text[cursor..])) == SplitText(m, text)
  }

  lemma PendingAtStart(m: Markers, text: string)
    requires Bracketed(m)
    ensures Pending(m, text, 0, [], [])
  {
    var r := SplitText(m, text);
    assert text[0..] == text;
    if r.Ok? { assert [] + r.value.parts == r.value.parts && [] + r.value.capsules == r.value.capsules; }
  }

  lemma Shifted(text: string, cursor: nat, start: nat, end: nat)
    requires cursor <= start < end <= |text|
    ensures var t := text[cursor..];
            && t[..start - cursor] == text[cursor..start]
            && t[start - cursor..end - cursor] == text[start..end]
            && t[end - cursor..] == text[end..]
  {
  }

  lemma PendingAfterBlock(m: Markers, text: string, cursor: nat, parts: seq<string>, capsules: seq<string>, start: nat,
      end: nat)
    requires Bracketed(m) && cursor <= start < end <= |text|
    requires Pending(m, text, cursor, parts, capsules)
    requires NextBlock(m, text[cursor..]) == Ok(Block(start - cursor, end - cursor))
    ensures Pending(m, text, end, parts + [text[cursor..start]], capsules + [text[start..end]])
  {
    Shifted(text, cursor, start, end);
    SplitAtBlock(m, text[cursor..], start - cursor, end - cursor);
    AfterTwice(parts, capsules, text[cursor..start], text[start..end], SplitText(m, text[end..]));
  }

  lemma AfterTwice(parts: seq<string>, capsules: seq<string>, part: string, capsule: string,
      rest: Result<Pieces, Malformed>)
    ensures After(parts, capsules, After([part], [capsule], rest)) == After(parts + [part], capsules + [capsule], rest)
  {
    if rest.Ok? {
      assert parts + ([part] + rest.value.parts) == parts + [part] + rest.value.parts;
      assert capsules + ([capsule] + rest.value.capsules) == capsules + [capsule] + rest.value.capsules;
    }
  }

  lemma PendingAtEnd(m: Markers, text: string, cursor: nat, parts: seq<string>, capsules: seq<string>)
    requires Bracketed(m) && cursor <= |text| && Pending(m, text, cursor, parts, capsules)
    ensures NextBlock(m, text[cursor..]) == Ok(NoMore) ==>
      SplitText(m, text) == Ok(Pieces(parts + [text[cursor..]], capsules))
    ensures NextBlock(m, text[cursor..]).Err? ==> SplitText(m, text) == Err(Malformed)
  {
    assert capsules + [] == capsules;
  }

  /** The loop as written: a cursor moved over the text, two lists filled. */
  method Scan(m: Markers, text: string) returns (r: Result<Pieces, Malformed>)
    requires Bracketed(m)
    ensures r == SplitText(m, text)
  {
    var parts: seq<string>, capsules: seq<string>, cursor := [], [], 0;
    PendingAtStart(m, text);
    while true
      invariant cursor <= |text| && Pending(m, text, cursor, parts, capsules)
      decreases |text| - cursor
    {
      PendingAtEnd(m, text, cursor, parts, capsules);
      var found := FirstBlock(m, text[cursor..]);
      if found.Err? { return Err(Malformed); }
      if found.value.NoMore? { return Ok(Pieces(parts + [text[cursor..]], capsules)); }
      var start, end := cursor + found.value.start, cursor + found.value.stop;
      PendingAfterBlock(m, text, cursor, parts, capsules, start, end);
      parts := parts + [text[cursor..start]];
      capsules := capsules + [text[start..end]];
      cursor := end;
    }
  }

  /** The body of one iteration, on the text the cursor has not passed. */
  method FirstBlock(m: Markers, left: string) returns (r: Result<Found, Malformed>)
    requires Bracketed(m)
    ensures r == NextBlock(m, left)
  {
    var start, orphan := Find(left, m.prefix), Find(left, m.end);
    if start.None? {
      if orphan.Some? { return Err(Malformed); }
      return Ok(NoMore);
    }
    if orphan.Some? && orphan.value < start.value { return Err(Malformed); }
    if !OccursAt(left, m.start, start.value) { return Err(Malformed); }
    var contentStart := start.value + |m.start|;
    assert contentStart <= |left|;
    var end := Find(left[contentStart..], m.end);
    if end.None? || Contains(left[contentStart..contentStart + end.value], m.prefix) { return Err(Malformed); }
    return Ok(Block(start.value, contentStart + end.value + |m.end|));
  }
}
