/** Secrets named by their fields, and their removal from artifacts. */
module ArtifactSecrets {
  import opened Prelude
  import opened Strings
  import opened KeyedLists
  import opened Redaction
  import opened ArtifactScrub
  import D = DurableCapture
  import R = ReservedFields
  import S = SecretScrubber

  /** Some line of the artifact gives the value away. */
  ghost predicate ArtifactGives(c: D.Codec, file: Artifact, x: string) {
    file.Some? && R.SomeLineGives(c, D.Pieces(file.value), x)
  }

  ghost predicate SomeArtifactGives(c: D.Codec, files: seq<Artifact>, x: string) {
    exists k :: 0 <= k < |files| && ArtifactGives(c, files[k], x)
  }

  lemma SomeOfMore(c: D.Codec, front: seq<Artifact>, last: Artifact, x: string)
    ensures SomeArtifactGives(c, front + [last], x) <==> SomeArtifactGives(c, front, x) || ArtifactGives(c, last, x)
  {
    var all := front + [last];
    assert forall k :: 0 <= k < |front| ==> all[k] == front[k];
    if k :| 0 <= k < |all| && ArtifactGives(c, all[k], x) {
      if k < |front| { assert ArtifactGives(c, front[k], x); }
    }
    if k :| 0 <= k < |front| && ArtifactGives(c, front[k], x) { assert ArtifactGives(c, all[k], x); }
    if ArtifactGives(c, last, x) { assert ArtifactGives(c, all[|front|], x); }
  }

  lemma GivenOfMore(c: D.Codec, front: seq<Artifact>, last: Artifact, x: string)
    ensures x in GivenAway(c, front + [last]) <==>
            x in GivenAway(c, front) || (last.Some? && x in D.TextSecrets(c, D.Pieces(last.value)))
  {
    assert (front + [last])[..|front|] == front;
  }

  /** Artifacts give away exactly the learnable values their lines hold in reserved fields. */
  lemma {:induction false} ArtifactsGive(c: D.Codec, files: seq<Artifact>, x: string)
    ensures x in GivenAway(c, files) <==> R.Learnable(x) && SomeArtifactGives(c, files, x)
  {
    if files != [] {
      var n := |files| - 1;
      var front, last := files[..n], files[n];
      ArtifactsGive(c, front, x);
      if last.Some? { R.LinesGive(c, D.Pieces(last.value), x); }
      GivenOfMore(c, front, last, x);
      SomeOfMore(c, front, last, x);
      assert files == front + [last];
    }
  }

  /**
   * A value that a field named `_viventium_operation_token` or `GLASSHIVE_CAPABILITY_BROKER_TOKEN` holds in a JSON
   * line of any artifact is gone from every plain line of every artifact.
   */
  lemma NamedSecretRemoved(c: D.Codec, known: seq<Secret>, files: seq<Artifact>, from: nat, line: nat, w: D.Json,
    name: string, x: string, k: nat, j: nat)
    requires Usable(known) && AllRemovable(D.Values(known) + GivenAway(c, files))
    requires from < |files| && files[from].Some? && line < |D.Pieces(files[from].value)|
    requires R.Spells(c, D.Pieces(files[from].value)[line], w)
    requires name == "_viventium_operation_token" || name == "GLASSHIVE_CAPABILITY_BROKER_TOKEN"
    requires R.Holds(c, w, name, x, 65) && R.Learnable(x)
    requires k < |files| && files[k].Some?
    requires j < |D.Pieces(files[k].value)| && Plain(c, D.Pieces(files[k].value)[j])
    ensures var r := ScrubArtifacts(c, known, files);
            && x in D.Values(r.known)
            && r.out[k].Some? && |r.out[k].value| == |D.Pieces(files[k].value)| && !Contains(r.out[k].value[j], x)
  {
    assert R.LineGives(c, D.Pieces(files[from].value)[line], x);
    assert ArtifactGives(c, files[from], x);
    ArtifactsGive(c, files, x);
    ArtifactLinesScrubbed(c, known, files, k, j);
  }

  // ---------------------------------------------------------------------------
  // Values the scrubber is built with
  // ---------------------------------------------------------------------------

  lemma {:induction false} GivenValuesKnown(values: seq<string>, x: string)
    ensures R.Sound(S.RememberAll(values)) && R.Marked(S.RememberAll(values), x, "[REDACTED_BROKER_TOKEN]")
    ensures x in D.Values(S.RememberAll(values)) <==> x in values && R.Learnable(x)
  {
    if values != [] {
      var n := |values| - 1;
      GivenValuesKnown(values[..n], x);
      var before := S.RememberAll(values[..n]);
      R.RememberDistinct(before, values[n], BROKER_MARKER);
      R.RememberMarks(before, values[n], BROKER_MARKER, x, "[REDACTED_BROKER_TOKEN]");
      D.RememberValues(before, values[n], BROKER_MARKER);
      assert values == values[..n] + [values[n]];
    }
  }
}
