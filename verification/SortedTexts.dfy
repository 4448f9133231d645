/** `sorted(set(…))` on texts. */
module SortedTexts {
  import opened SemanticVersions

  function Insert(xs: seq<string>, x: string): seq<string> {
    if xs == [] then [x]
    else if x == xs[0] then xs
    else if TextLess(x, xs[0]) then [x] + xs
    else [xs[0]] + Insert(xs[1..], x)
  }

  function SortedSet(xs: seq<string>): seq<string> {
    if xs == [] then [] else Insert(SortedSet(xs[..|xs| - 1]), xs[|xs| - 1])
  }

  predicate Ascending(xs: seq<string>) {
    forall i, j :: 0 <= i < j < |xs| ==> TextLess(xs[i], xs[j])
  }

  predicate Distinct(xs: seq<string>) {
    forall i, j :: 0 <= i < j < |xs| ==> xs[i] != xs[j]
  }

  lemma {:induction false} InsertElements(xs: seq<string>, x: string)
    ensures forall y :: y in Insert(xs, x) <==> y in xs || y == x
  {
    if xs != [] {
      InsertElements(xs[1..], x);
      assert forall y :: y in xs <==> y == xs[0] || y in xs[1..];
    }
  }

  lemma {:induction false} SortedElements(xs: seq<string>)
    ensures forall y :: y in SortedSet(xs) <==> y in xs
  {
    if xs != [] {
      var n := |xs| - 1;
      SortedElements(xs[..n]);
      InsertElements(SortedSet(xs[..n]), xs[n]);
      assert forall y :: y in xs <==> y in xs[..n] || y == xs[n];
    }
  }

  lemma {:induction false} InsertAscends(xs: seq<string>, x: string)
    requires Ascending(xs)
    ensures Ascending(Insert(xs, x))
  {
    if xs != [] && x != xs[0] {
      TextLessTotal(x, xs[0]);
      if TextLess(x, xs[0]) {
        forall j | 0 <= j < |xs| ensures TextLess(x, xs[j]) {
          if j > 0 { TextLessTransitive(x, xs[0], xs[j]); }
        }
      } else {
        var rest := Insert(xs[1..], x);
        InsertAscends(xs[1..], x);
        InsertElements(xs[1..], x);
        forall j | 0 <= j < |rest| ensures TextLess(xs[0], rest[j]) {
          assert rest[j] in rest;
          if rest[j] in xs[1..] { var k :| 0 <= k < |xs[1..]| && xs[1..][k] == rest[j]; assert xs[k + 1] == rest[j]; }
        }
      }
    }
  }

  /** Strictly ascending, so sorted and without duplicates. */
  lemma {:induction false} SortedAscends(xs: seq<string>)
    ensures Ascending(SortedSet(xs))
  {
    if xs != [] {
      SortedAscends(xs[..|xs| - 1]);
      InsertAscends(SortedSet(xs[..|xs| - 1]), xs[|xs| - 1]);
    }
  }

  lemma {:induction false} InsertLast(xs: seq<string>, x: string)
    requires forall i :: 0 <= i < |xs| ==> TextLess(xs[i], x)
    ensures Insert(xs, x) == xs + [x]
  {
    if xs != [] {
      TextLessTotal(x, xs[0]);
      InsertLast(xs[1..], x);
    }
  }

  lemma {:induction false} SortedStays(xs: seq<string>)
    requires Ascending(xs)
    ensures SortedSet(xs) == xs
  {
    if xs != [] {
      var n := |xs| - 1;
      SortedStays(xs[..n]);
      InsertLast(xs[..n], xs[n]);
      assert xs == xs[..n] + [xs[n]];
    }
  }

  lemma AscendingIsDistinct(xs: seq<string>)
    requires Ascending(xs)
    ensures Distinct(xs)
  {
    forall i, j | 0 <= i < j < |xs| ensures xs[i] != xs[j] { TextLessTotal(xs[i], xs[j]); }
  }

  lemma SortedTwice(xs: seq<string>)
    ensures SortedSet(SortedSet(xs)) == SortedSet(xs) && Distinct(SortedSet(xs))
  {
    SortedAscends(xs);
    SortedStays(SortedSet(xs));
    AscendingIsDistinct(SortedSet(xs));
  }
}
