/** Exact values replaced by redaction markers, longest value first. */
module Redaction {
  import opened Strings

  const OPERATION_MARKER := "[REDACTED_OPERATION_TOKEN]"
  const BROKER_MARKER := "[REDACTED_BROKER_TOKEN]"

  predicate IsMarker(s: string) {
    s == OPERATION_MARKER || s == BROKER_MARKER
  }

  type Marker = s: string | IsMarker(s) witness BROKER_MARKER

  /** A learned value and the marker that replaces it. */
  datatype Secret = Secret(value: string, marker: Marker)

  /** `str.replace`: leftmost occurrences first, none overlapping. */
  function Replace(s: string, value: string, marker: Marker): string
    requires value != ""
    decreases |s|
  {
    if s == "" then ""
    else if OccursAt(s, value, 0) then marker + Replace(s[|value|..], value, marker)
    else [s[0]] + Replace(s[1..], value, marker)
  }

  predicate Usable(secrets: seq<Secret>) {
    forall i :: 0 <= i < |secrets| ==> secrets[i].value != ""
  }

  function ReplaceAll(order: seq<Secret>, s: string): string
    requires Usable(order)
  {
    if order == [] then s else ReplaceAll(order[1..], Replace(s, order[0].value, order[0].marker))
  }

  // ---------------------------------------------------------------------------
  // Longest first
  // ---------------------------------------------------------------------------

  function InsertByLength(order: seq<Secret>, x: Secret): seq<Secret> {
    if order == [] then [x]
    else
      var n := |order| - 1;
      if |order[n].value| < |x.value| then InsertByLength(order[..n], x) + [order[n]] else order + [x]
  }

  /** Sorted by decreasing length; entries of one length stay in the order they were learned. */
  function LongestFirst(secrets: seq<Secret>): seq<Secret> {
    if secrets == [] then [] else InsertByLength(LongestFirst(secrets[..|secrets| - 1]), secrets[|secrets| - 1])
  }

  predicate Descending(order: seq<Secret>) {
    forall i, j :: 0 <= i < j < |order| ==> |order[i].value| >= |order[j].value|
  }

  lemma {:induction false} InsertKeeps(order: seq<Secret>, x: Secret)
    ensures multiset(InsertByLength(order, x)) == multiset(order) + multiset{x}
  {
    if order != [] && |order[|order| - 1].value| < |x.value| {
      var n := |order| - 1;
      InsertKeeps(order[..n], x);
      assert order == order[..n] + [order[n]];
    }
  }

  lemma {:induction false} InsertSorts(order: seq<Secret>, x: Secret)
    requires Descending(order)
    ensures Descending(InsertByLength(order, x))
  {
    if order != [] && |order[|order| - 1].value| < |x.value| {
      var n := |order| - 1;
      var front := InsertByLength(order[..n], x);
      InsertSorts(order[..n], x);
      InsertKeeps(order[..n], x);
      forall i | 0 <= i < |front| ensures |front[i].value| >= |order[n].value| {
        assert front[i] in multiset(front);
        assert front[i] in order[..n] || front[i] == x;
      }
    }
  }

  lemma Snoc(secrets: seq<Secret>)
    requires secrets != []
    ensures multiset(secrets) == multiset(secrets[..|secrets| - 1]) + multiset{secrets[|secrets| - 1]}
  {
    var n := |secrets| - 1;
    assert secrets == secrets[..n] + [secrets[n]];
  }

  lemma {:induction false} LongestFirstKeeps(secrets: seq<Secret>)
    ensures multiset(LongestFirst(secrets)) == multiset(secrets)
  {
    if secrets != [] {
      var n := |secrets| - 1;
      LongestFirstKeeps(secrets[..n]);
      InsertKeeps(LongestFirst(secrets[..n]), secrets[n]);
      Snoc(secrets);
    }
  }

  lemma {:induction false} LongestFirstSorts(secrets: seq<Secret>)
    ensures Descending(LongestFirst(secrets))
  {
    if secrets != [] {
      var n := |secrets| - 1;
      LongestFirstSorts(secrets[..n]);
      InsertSorts(LongestFirst(secrets[..n]), secrets[n]);
    }
  }

  /** The replacement order: every secret, as often as it was learned, by decreasing length. */
  lemma LongestFirstOrders(secrets: seq<Secret>)
    ensures Descending(LongestFirst(secrets)) && multiset(LongestFirst(secrets)) == multiset(secrets)
  {
    LongestFirstSorts(secrets);
    LongestFirstKeeps(secrets);
  }

  lemma SameSecrets(secrets: seq<Secret>)
    ensures forall x :: x in LongestFirst(secrets) <==> x in secrets
    ensures |LongestFirst(secrets)| == |secrets|
  {
    LongestFirstKeeps(secrets);
    forall x ensures x in LongestFirst(secrets) <==> x in secrets {
      assert x in LongestFirst(secrets) <==> x in multiset(LongestFirst(secrets));
      assert x in secrets <==> x in multiset(secrets);
    }
    assert |multiset(LongestFirst(secrets))| == |multiset(secrets)|;
  }

  // ---------------------------------------------------------------------------
  // One replacement
  // ---------------------------------------------------------------------------

  /** A value that no marker can take part in spelling. */
  predicate Inert(value: string) {
    && value != "" && '[' !in value && ']' !in value
    && !Contains(OPERATION_MARKER, value) && !Contains(BROKER_MARKER, value)
  }

  predicate Safe(secrets: seq<Secret>) {
    forall i :: 0 <= i < |secrets| ==> Inert(secrets[i].value)
  }

  lemma MarkerEnds(marker: Marker)
    ensures |marker| >= 2 && marker[0] == '[' && marker[|marker| - 1] == ']'
  {
    assert IsMarker(marker);
  }

  lemma Under(t: string, value: string, i: nat, p: nat)
    requires OccursAt(t, value, i) && p < |t|
    ensures i <= p < i + |value| ==> t[p] in value
  {
    if i <= p < i + |value| { assert t[i + (p - i)] == value[p - i]; }
  }

  /** An occurrence in a text around a marker lies wholly before or after it. */
  lemma AroundMarker(x: string, marker: Marker, y: string, value: string, i: nat)
    requires Inert(value)
    requires OccursAt(x + marker + y, value, i)
    ensures OccursAt(x, value, i) || (i >= |x| + |marker| && OccursAt(y, value, i - |x| - |marker|))
  {
    MarkerEnds(marker);
    var t := x + marker + y;
    var open, close := |x|, |x| + |marker| - 1;
    assert t[open] == '[' && t[close] == ']';
    Under(t, value, i, open);
    Under(t, value, i, close);
    if open < i && i + |value| <= close {
      forall k | 0 <= k < |value| ensures marker[i - open + k] == value[k] { assert t[i + k] == value[k]; }
      assert OccursAt(marker, value, i - open);
    }
    if i + |value| <= open {
      forall k | 0 <= k < |value| ensures x[i + k] == value[k] { assert t[i + k] == value[k]; }
    } else if close < i {
      forall k | 0 <= k < |value| ensures y[i - |x| - |marker| + k] == value[k] { assert t[i + k] == value[k]; }
    }
  }

  /** Nor can it begin with a marker that comes first. */
  lemma PastMarker(marker: Marker, rest: string, value: string, i: nat)
    requires Inert(value) && OccursAt(marker + rest, value, i)
    ensures i >= |marker| && OccursAt(rest, value, i - |marker|)
  {
    assert "" + marker + rest == marker + rest;
    AroundMarker("", marker, rest, value, i);
  }

  lemma OccursLater(s: string, n: nat, value: string, i: nat)
    requires n <= |s| && OccursAt(s[n..], value, i)
    ensures OccursAt(s, value, n + i)
  {
  }

  /** What begins a replaced text without brackets began the original. */
  lemma {:induction false} StartsAlike(s: string, value: string, marker: Marker, prefix: string)
    requires value != "" && '[' !in prefix
    requires OccursAt(Replace(s, value, marker), prefix, 0)
    ensures OccursAt(s, prefix, 0)
    decreases |prefix|
  {
    if prefix != "" {
      var r := Replace(s, value, marker);
      assert r[0] == prefix[0] && r[0] != '[';
      MarkerEnds(marker);
      if s == "" || !OccursAt(s, value, 0) {
        forall k | 0 <= k < |prefix[1..]| ensures r[1..][k] == prefix[1..][k] { assert r[k + 1] == prefix[k + 1]; }
        assert r[1..] == Replace(s[1..], value, marker);
        StartsAlike(s[1..], value, marker, prefix[1..]);
        forall k | 0 <= k < |prefix| ensures s[k] == prefix[k] {
          if k > 0 { assert s[1..][k - 1] == prefix[1..][k - 1]; }
        }
      }
    }
  }

  lemma ContainsLater(s: string, n: nat, value: string)
    requires n <= |s| && Contains(s[n..], value)
    ensures Contains(s, value)
  {
    var j :| 0 <= j <= |s[n..]| && OccursAt(s[n..], value, j);
    OccursLater(s, n, value, j);
  }

  /** Replacing one value brings no inert value into being. */
  lemma {:induction false} NothingNew(s: string, value: string, marker: Marker, other: string, i: nat)
    requires value != "" && Inert(other)
    requires OccursAt(Replace(s, value, marker), other, i)
    ensures Contains(s, other)
    decreases |s|
  {
    var r := Replace(s, value, marker);
    if s != "" && OccursAt(s, value, 0) {
      var rest := s[|value|..];
      PastMarker(marker, Replace(rest, value, marker), other, i);
      NothingNew(rest, value, marker, other, i - |marker|);
      ContainsLater(s, |value|, other);
    } else if s != "" {
      if i == 0 {
        StartsAlike(s, value, marker, other);
      } else {
        OccursInTail(r, other, i);
        NothingNew(s[1..], value, marker, other, i - 1);
        ContainsLater(s, 1, other);
      }
    }
  }

  lemma OccursInTail(s: string, value: string, i: nat)
    requires i > 0 && s != "" && OccursAt(s, value, i)
    ensures OccursAt(s[1..], value, i - 1)
  {
    forall k | 0 <= k < |value| ensures s[1..][i - 1 + k] == value[k] { assert s[i + k] == value[k]; }
  }

  /** A replaced value is gone. */
  lemma {:induction false} NoneLeft(s: string, value: string, marker: Marker, i: nat)
    requires Inert(value)
    ensures !OccursAt(Replace(s, value, marker), value, i)
    decreases |s|
  {
    var r := Replace(s, value, marker);
    if OccursAt(r, value, i) {
      if s != "" && OccursAt(s, value, 0) {
        var rest := s[|value|..];
        PastMarker(marker, Replace(rest, value, marker), value, i);
        NoneLeft(rest, value, marker, i - |marker|);
      } else if s != "" {
        if i == 0 {
          StartsAlike(s, value, marker, value);
        } else {
          OccursInTail(r, value, i);
          NoneLeft(s[1..], value, marker, i - 1);
        }
      }
    }
  }

  lemma {:induction false} ReplaceAbsent(s: string, value: string, marker: Marker)
    requires value != "" && !Contains(s, value)
    ensures Replace(s, value, marker) == s
    decreases |s|
  {
    if s != "" {
      forall j | 0 <= j <= |s[1..]| ensures !OccursAt(s[1..], value, j) {
        if OccursAt(s[1..], value, j) { OccursLater(s, 1, value, j); }
      }
      ReplaceAbsent(s[1..], value, marker);
    }
  }

  lemma AbsentInTail(t: string, value: string, n: nat)
    requires t != "" && forall i: nat :: i < n ==> !OccursAt(t, value, i)
    ensures forall i: nat :: i + 1 < n ==> !OccursAt(t[1..], value, i)
  {
    forall i: nat | i + 1 < n ensures !OccursAt(t[1..], value, i) {
      if OccursAt(t[1..], value, i) { OccursLater(t, 1, value, i); }
    }
  }

  lemma FrontSplit(before: string, value: string, after: string)
    requires before != ""
    ensures var t := before + value + after;
            t[0] == before[0] && t[1..] == before[1..] + value + after &&
              t == [before[0]] + (before[1..] + value + after)
  {
  }

  lemma ReplaceFirst(value: string, after: string, marker: Marker)
    requires value != "" && !Contains(after, value)
    ensures Replace(value + after, value, marker) == marker + after
  {
    var t := value + after;
    assert OccursAt(t, value, 0) && t[|value|..] == after;
    ReplaceAbsent(after, value, marker);
  }

  /** One occurrence and no other is replaced where it stands. */
  lemma {:induction false} ReplaceOnce(before: string, value: string, after: string, marker: Marker)
    requires value != "" && !Contains(after, value)
    requires forall i: nat :: i < |before| ==> !OccursAt(before + value + after, value, i)
    ensures Replace(before + value + after, value, marker) == before + marker + after
    decreases |before|
  {
    var t := before + value + after;
    if before == "" {
      ReplaceFirst(value, after, marker);
      assert t == value + after && before + marker + after == marker + after;
    } else {
      assert !OccursAt(t, value, 0);
      FrontSplit(before, value, after);
      AbsentInTail(t, value, |before|);
      ReplaceOnce(before[1..], value, after, marker);
      FrontSplit(before, marker, after);
    }
  }

  // ---------------------------------------------------------------------------
  // All replacements
  // ---------------------------------------------------------------------------

  /** The text contains none of the values. */
  predicate Clean(secrets: seq<Secret>, s: string) {
    forall i :: 0 <= i < |secrets| ==> !Contains(s, secrets[i].value)
  }

  lemma StillAbsent(s: string, value: string, marker: Marker, other: string)
    requires value != "" && Inert(other) && !Contains(s, other)
    ensures !Contains(Replace(s, value, marker), other)
  {
    var r := Replace(s, value, marker);
    if i :| 0 <= i <= |r| && OccursAt(r, other, i) { NothingNew(s, value, marker, other, i); }
  }

  lemma {:induction false} StaysAbsent(order: seq<Secret>, s: string, other: string)
    requires Safe(order) && Inert(other) && !Contains(s, other)
    ensures !Contains(ReplaceAll(order, s), other)
  {
    if order != [] {
      StillAbsent(s, order[0].value, order[0].marker, other);
      StaysAbsent(order[1..], Replace(s, order[0].value, order[0].marker), other);
    }
  }

  /** Whatever the order, replacing all values leaves none of them anywhere. */
  lemma {:induction false} ReplaceAllCleans(order: seq<Secret>, s: string)
    requires Safe(order)
    ensures Clean(order, ReplaceAll(order, s))
  {
    if order != [] {
      var next := Replace(s, order[0].value, order[0].marker);
      forall i | 0 <= i <= |next| ensures !OccursAt(next, order[0].value, i) {
        NoneLeft(s, order[0].value, order[0].marker, i);
      }
      StaysAbsent(order[1..], next, order[0].value);
      ReplaceAllCleans(order[1..], next);
      forall i | 0 <= i < |order| ensures !Contains(ReplaceAll(order, s), order[i].value) {
        if i > 0 { assert order[1..][i - 1] == order[i]; }
      }
    }
  }

  /** Replacing changes nothing in a text without any of the values. */
  lemma {:induction false} ReplaceAllClean(order: seq<Secret>, s: string)
    requires Usable(order) && Clean(order, s)
    ensures ReplaceAll(order, s) == s
  {
    if order != [] {
      assert !Contains(s, order[0].value);
      ReplaceAbsent(s, order[0].value, order[0].marker);
      assert Clean(order[1..], s);
      ReplaceAllClean(order[1..], s);
    }
  }

  // ---------------------------------------------------------------------------
  // The scrubber's replacement
  // ---------------------------------------------------------------------------

  lemma OrderIsSafe(known: seq<Secret>)
    ensures Usable(known) ==> Usable(LongestFirst(known))
    ensures Safe(known) ==> Safe(LongestFirst(known))
    ensures forall s :: Clean(LongestFirst(known), s) <==> Clean(known, s)
  {
    SameSecrets(known);
    var order := LongestFirst(known);
    forall i | 0 <= i < |order| ensures order[i] in known { assert order[i] in order; }
    forall i | 0 <= i < |known| ensures known[i] in order { assert known[i] in known; }
  }

  /** `_replace_exact_values`. */
  function ReplaceExact(known: seq<Secret>, s: string): string
    requires Usable(known)
  {
    OrderIsSafe(known);
    ReplaceAll(LongestFirst(known), s)
  }

  /** No learned value is left, and replacing again changes nothing. */
  lemma ReplaceExactCleans(known: seq<Secret>, s: string)
    requires Safe(known)
    ensures var r := ReplaceExact(known, s); Clean(known, r) && ReplaceExact(known, r) == r
  {
    OrderIsSafe(known);
    ReplaceAllCleans(LongestFirst(known), s);
    ReplaceAllClean(LongestFirst(known), ReplaceExact(known, s));
  }

  lemma ReplaceExactClean(known: seq<Secret>, s: string)
    requires Usable(known) && Clean(known, s)
    ensures ReplaceExact(known, s) == s
  {
    OrderIsSafe(known);
    ReplaceAllClean(LongestFirst(known), s);
  }

  predicate DistinctValues(secrets: seq<Secret>) {
    forall i, j :: 0 <= i < j < |secrets| ==> secrets[i].value != secrets[j].value
  }

  /** The value stands between two texts that contain nothing learned, and no value as long overlaps it. */
  ghost predicate StandsAlone(known: seq<Secret>, x: Secret, before: string, after: string) {
    && Clean(known, before) && Clean(known, after)
    && forall y, i: nat :: y in known && |y.value| >= |x.value| && OccursAt(before + x.value + after, y.value, i) ==>
      y == x && i == |before|
  }

  lemma {:induction false} WholeInOrder(order: seq<Secret>, x: Secret, before: string, after: string)
    requires Safe(order) && Descending(order) && x in order && StandsAlone(order, x, before, after)
    ensures ReplaceAll(order, before + x.value + after) == before + x.marker + after
  {
    var t := before + x.value + after;
    var y := order[0];
    assert y in order;
    if y == x {
      assert !Contains(after, x.value);
      forall i: nat | i < |before| ensures !OccursAt(t, x.value, i) {}
      ReplaceOnce(before, x.value, after, x.marker);
      var r := before + x.marker + after;
      assert Clean(order[1..], r) by {
        forall k | 0 <= k < |order[1..]| ensures !Contains(r, order[1..][k].value) {
          var v := order[k + 1].value;
          if i :| 0 <= i <= |r| && OccursAt(r, v, i) { AroundMarker(before, x.marker, after, v, i); }
        }
      }
      ReplaceAllClean(order[1..], r);
    } else {
      var k :| 0 <= k < |order| && order[k] == x;
      assert |y.value| >= |x.value|;
      assert !Contains(t, y.value);
      ReplaceAbsent(t, y.value, y.marker);
      assert order[1..][k - 1] == x;
      assert forall z :: z in order[1..] ==> z in order;
      WholeInOrder(order[1..], x, before, after);
    }
  }

  /**
   * Longest first: a learned value is replaced whole, by its own marker, even when shorter learned values occur
   * inside it.
   */
  lemma LongestIsReplacedWhole(known: seq<Secret>, x: Secret, before: string, after: string)
    requires Safe(known) && x in known && StandsAlone(known, x, before, after)
    ensures ReplaceExact(known, before + x.value + after) == before + x.marker + after
  {
    OrderIsSafe(known);
    LongestFirstSorts(known);
    SameSecrets(known);
    assert StandsAlone(LongestFirst(known), x, before, after);
    WholeInOrder(LongestFirst(known), x, before, after);
  }

  /** In particular a text that is exactly a learned value becomes exactly its marker. */
  lemma ValueBecomesMarker(known: seq<Secret>, x: Secret)
    requires Safe(known) && DistinctValues(known) && x in known
    ensures ReplaceExact(known, x.value) == x.marker
  {
    var k :| 0 <= k < |known| && known[k] == x;
    forall y, i: nat | y in known && |y.value| >= |x.value| && OccursAt("" + x.value + "", y.value, i)
      ensures y == x && i == 0
    {
      var j :| 0 <= j < |known| && known[j] == y;
      assert y.value == x.value;
    }
    assert "" + x.value + "" == x.value && "" + x.marker + "" == x.marker;
    LongestIsReplacedWhole(known, x, "", "");
  }

  /**
   * A value that is part of its own marker is put back by the marker: this is why values inside a marker are excluded.
   */
  lemma CleansItselfIff(x: Secret)
    requires x.value != ""
    ensures ReplaceExact([x], x.value) == x.marker
    ensures Clean([x], ReplaceExact([x], x.value)) <==> !Contains(x.marker, x.value)
  {
    assert LongestFirst([x]) == [x] by { assert [x][..0] == []; }
    ReplaceOnce("", x.value, "", x.marker);
    assert "" + x.value + "" == x.value && "" + x.marker + "" == x.marker;
    assert ReplaceAll([x], x.value) == ReplaceAll([], x.marker);
    assert [x][0] == x;
  }

  lemma OrderOfTwo(x: Secret, y: Secret)
    requires |x.value| < |y.value|
    ensures LongestFirst([x, y]) == [y, x]
  {
    assert [x, y][..1] == [x] && [x][..0] == [] && [y, x][..1] == [y];
    assert LongestFirst([x]) == [x];
    assert InsertByLength([x][..0], y) == [y];
  }

  lemma NotWithin(s: string, value: string)
    requires value != "" && value[0] !in s
    ensures !Contains(s, value)
  {
    forall i | 0 <= i <= |s| ensures !OccursAt(s, value, i) {
      if i < |s| { assert s[i + 0] in s; }
    }
  }

  lemma ReplaceTwo(x: Secret, y: Secret, s: string)
    requires x.value != "" && |x.value| < |y.value|
    ensures ReplaceExact([x, y], s) == Replace(Replace(s, y.value, y.marker), x.value, x.marker)
  {
    OrderOfTwo(x, y);
    assert [y, x][1..] == [x] && [x][1..] == [];
    var first := Replace(s, y.value, y.marker);
    assert ReplaceAll([y, x], s) == ReplaceAll([x], first);
    assert ReplaceAll([x], first) == ReplaceAll([], Replace(first, x.value, x.marker));
  }

  /** And a bracket in a value lets the marker of a shorter one complete it, once its own turn has passed. */
  lemma BracketReappears(x: Secret, y: Secret, rest: string)
    requires x.value != "" && |x.value| < |y.value| && y.value == "]" + rest
    requires ']' !in x.value + rest && !Contains(rest, x.value)
    ensures !Contains(x.value + rest, y.value) && Contains(ReplaceExact([x, y], x.value + rest), y.value)
  {
    var s := x.value + rest;
    NotWithin(s, y.value);
    ReplaceTwo(x, y, s);
    ReplaceAbsent(s, y.value, y.marker);
    ReplaceFirst(x.value, rest, x.marker);
    MarkerThen(x.marker, rest);
  }

  lemma MarkerThen(marker: Marker, rest: string)
    ensures Contains(marker + rest, "]" + rest)
  {
    MarkerEnds(marker);
    assert OccursAt(marker + rest, "]" + rest, |marker| - 1);
  }
}
