/** Replacing is cutting a text at the value's occurrences and joining the pieces with the marker: the rest stays. */
module RedactionKeeps {
  import opened Strings
  import opened Redaction

  function Joined(pieces: seq<string>, sep: string): string
    requires pieces != []
  {
    if |pieces| == 1 then pieces[0] else pieces[0] + (sep + Joined(pieces[1..], sep))
  }

  /** The value begins nowhere in the piece, not even if it goes on in the value that follows. */
  ghost predicate CutFirst(piece: string, value: string) {
    forall i :: 0 <= i < |piece| ==> !OccursAt(piece + value, value, i)
  }

  /** The pieces left when the text is cut at the value, leftmost first. */
  ghost predicate CutAt(s: string, value: string, pieces: seq<string>) {
    && pieces != [] && Joined(pieces, value) == s
    && (forall k :: 0 <= k < |pieces| - 1 ==> CutFirst(pieces[k], value))
    && !Contains(pieces[|pieces| - 1], value)
  }

  /** One value replaced: what stands between its occurrences stays, in order. */
  ghost predicate Replaces(s: string, value: string, marker: string, out: string) {
    exists pieces :: CutAt(s, value, pieces) && Joined(pieces, marker) == out
  }

  lemma EmptyCut(value: string)
    requires value != ""
    ensures CutAt("", value, [""])
  {
    assert forall i :: 0 <= i <= 0 ==> !OccursAt("", value, i);
  }

  lemma CutInFront(s: string, value: string, rest: seq<string>)
    requires value != "" && OccursAt(s, value, 0) && CutAt(s[|value|..], value, rest)
    ensures CutAt(s, value, [""] + rest)
    ensures forall marker :: Joined([""] + rest, marker) == marker + Joined(rest, marker)
  {
    var pieces := [""] + rest;
    assert pieces[1..] == rest;
    assert s == value + s[|value|..];
    forall k | 0 <= k < |pieces| - 1 ensures CutFirst(pieces[k], value) {
      if k > 0 { assert pieces[k] == rest[k - 1]; }
    }
    assert pieces[|pieces| - 1] == rest[|rest| - 1];
    forall marker ensures Joined(pieces, marker) == marker + Joined(rest, marker) {
      assert "" + (marker + Joined(rest, marker)) == marker + Joined(rest, marker);
    }
  }

  lemma Widened(c: char, rest: seq<string>, sep: string)
    requires rest != []
    ensures Joined([[c] + rest[0]] + rest[1..], sep) == [c] + Joined(rest, sep)
  {
    var pieces := [[c] + rest[0]] + rest[1..];
    assert pieces[1..] == rest[1..];
    if |rest| > 1 {
      assert [c] + rest[0] + (sep + Joined(rest[1..], sep)) == [c] + (rest[0] + (sep + Joined(rest[1..], sep)));
    }
  }

  lemma CutWidened(s: string, value: string, rest: seq<string>)
    requires value != "" && s != "" && !OccursAt(s, value, 0) && CutAt(s[1..], value, rest)
    ensures CutAt(s, value, [[s[0]] + rest[0]] + rest[1..])
  {
    var c := s[0];
    var pieces := [[c] + rest[0]] + rest[1..];
    Widened(c, rest, value);
    assert s == [c] + s[1..];
    if |rest| > 1 {
      assert forall k :: 1 <= k < |pieces| ==> pieces[k] == rest[k];
      WidenedCutFirst(s, value, rest[0], Joined(rest[1..], value));
    } else {
      LastWidened(s, value);
    }
  }

  lemma WidenedCutFirst(s: string, value: string, piece: string, after: string)
    requires value != "" && s != "" && !OccursAt(s, value, 0)
    requires s[1..] == piece + (value + after) && CutFirst(piece, value)
    ensures CutFirst([s[0]] + piece, value)
  {
    var whole := [s[0]] + piece + value;
    assert whole[1..] == piece + value;
    assert s == whole + after;
    if OccursAt(whole, value, 0) { OccursLonger(whole, after, value); }
    forall i | 0 < i <= |piece| ensures !OccursAt(whole, value, i) {
      if OccursAt(whole, value, i) { OccursInTail(whole, value, i); }
    }
  }

  lemma OccursLonger(s: string, after: string, value: string)
    requires OccursAt(s, value, 0)
    ensures OccursAt(s + after, value, 0)
  {
  }

  lemma LastWidened(s: string, value: string)
    requires value != "" && s != "" && !OccursAt(s, value, 0) && !Contains(s[1..], value)
    ensures !Contains(s, value)
  {
    if Contains(s, value) {
      var i :| 0 <= i <= |s| && OccursAt(s, value, i);
      OccursInTail(s, value, i);
    }
  }

  /** `str.replace`, piece by piece. */
  lemma {:induction false} ReplaceJoins(s: string, value: string, marker: Marker) returns (pieces: seq<string>)
    requires value != ""
    ensures CutAt(s, value, pieces) && Joined(pieces, marker) == Replace(s, value, marker)
    decreases |s|
  {
    if s == "" {
      EmptyCut(value);
      pieces := [""];
    } else if OccursAt(s, value, 0) {
      var rest := ReplaceJoins(s[|value|..], value, marker);
      CutInFront(s, value, rest);
      pieces := [""] + rest;
    } else {
      var rest := ReplaceJoins(s[1..], value, marker);
      CutWidened(s, value, rest);
      Widened(s[0], rest, marker);
      pieces := [[s[0]] + rest[0]] + rest[1..];
    }
  }

  /** The texts in between, one replaced value after the other. */
  ghost predicate Steps(order: seq<Secret>, texts: seq<string>) {
    |texts| == |order| + 1
    && forall k :: 0 <= k < |order| ==> Replaces(texts[k], order[k].value, order[k].marker, texts[k + 1])
  }

  lemma {:induction false} ReplaceAllSteps(order: seq<Secret>, s: string) returns (texts: seq<string>)
    requires Usable(order)
    ensures Steps(order, texts) && texts[0] == s && texts[|order|] == ReplaceAll(order, s)
  {
    if order == [] {
      texts := [s];
    } else {
      var pieces := ReplaceJoins(s, order[0].value, order[0].marker);
      var next := Replace(s, order[0].value, order[0].marker);
      assert Replaces(s, order[0].value, order[0].marker, next);
      var rest := ReplaceAllSteps(order[1..], next);
      texts := [s] + rest;
      forall k | 0 <= k < |order| ensures Replaces(texts[k], order[k].value, order[k].marker, texts[k + 1]) {
        if k > 0 {
          assert Replaces(rest[k - 1], order[1..][k - 1].value, order[1..][k - 1].marker, rest[k]);
        }
      }
    }
  }

  /**
   * Redacting a text replaces the learned values one after the other, the longer first, each by its own marker, and
   * keeps everything else as it is.
   */
  lemma ReplaceExactSteps(known: seq<Secret>, s: string) returns (order: seq<Secret>, texts: seq<string>)
    requires Usable(known)
    ensures multiset(order) == multiset(known) && Descending(order)
    ensures Steps(order, texts) && texts[0] == s && texts[|order|] == ReplaceExact(known, s)
  {
    LongestFirstOrders(known);
    OrderIsSafe(known);
    order := LongestFirst(known);
    texts := ReplaceAllSteps(order, s);
  }
}
