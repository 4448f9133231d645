/** Lists whose entries carry a key, blank or not, merged entry by entry: a later entry replaces an earlier one. */
module KeyedLists {
  import opened Prelude

  /** The position of the last entry with the given key. */
  function LastWith<T>(key: T -> string, items: seq<T>, k: string): (r: Option<nat>)
    ensures r.Some? ==> r.value < |items| && key(items[r.value]) == k
    ensures r.Some? ==> forall i :: r.value < i < |items| ==> key(items[i]) != k
    ensures r.None? ==> forall i :: 0 <= i < |items| ==> key(items[i]) != k
  {
    if items == [] then None
    else if key(items[|items| - 1]) == k then Some(|items| - 1)
    else LastWith(key, items[..|items| - 1], k)
  }

  /** An entry replaces the last one with its key, or is appended. */
  function Upsert<T>(key: T -> string, items: seq<T>, item: T): seq<T> {
    var at := LastWith(key, items, key(item));
    if key(item) != "" && at.Some? then items[at.value := item] else items + [item]
  }

  function MergeLists<T>(key: T -> string, prior: seq<T>, incoming: seq<T>): seq<T> {
    if incoming == [] then prior
    else Upsert(key, MergeLists(key, prior, incoming[..|incoming| - 1]), incoming[|incoming| - 1])
  }

  function Keys<T>(key: T -> string, items: seq<T>): set<string> {
    set i | 0 <= i < |items| :: key(items[i])
  }

  lemma UpsertKeys<T>(key: T -> string, items: seq<T>, item: T)
    ensures Keys(key, Upsert(key, items, item)) == Keys(key, items) + {key(item)}
  {
    var out := Upsert(key, items, item);
    forall p | p in Keys(key, items) + {key(item)}
      ensures p in Keys(key, out)
    {
      if p == key(item) {
        var at := LastWith(key, items, p);
        var j := if p != "" && at.Some? then at.value else |items|;
        assert key(out[j]) == p;
      } else {
        var i :| 0 <= i < |items| && key(items[i]) == p;
        assert key(out[i]) == p;
      }
    }
  }

  /** Merging lists loses no key and adds only incoming ones. */
  lemma {:induction false} MergeKeys<T>(key: T -> string, prior: seq<T>, incoming: seq<T>)
    ensures Keys(key, MergeLists(key, prior, incoming)) == Keys(key, prior) + Keys(key, incoming)
  {
    if incoming != [] {
      var n := |incoming| - 1;
      MergeKeys(key, prior, incoming[..n]);
      UpsertKeys(key, MergeLists(key, prior, incoming[..n]), incoming[n]);
      assert incoming == incoming[..n] + [incoming[n]];
      assert Keys(key, incoming) == Keys(key, incoming[..n]) + {key(incoming[n])} by {
        forall p | p in Keys(key, incoming)
          ensures p in Keys(key, incoming[..n]) + {key(incoming[n])}
        {
          var i :| 0 <= i < |incoming| && key(incoming[i]) == p;
          if i < n { assert incoming[..n][i] == incoming[i]; }
        }
        assert forall i :: 0 <= i < n ==> incoming[..n][i] == incoming[i];
      }
    }
  }

  lemma LastWithIs<T>(key: T -> string, items: seq<T>, k: string, i: nat)
    requires i < |items| && key(items[i]) == k
    requires forall j :: i < j < |items| ==> key(items[j]) != k
    ensures LastWith(key, items, k) == Some(i)
  {
  }

  /** The second of two upserts of one key is all that remains. */
  lemma UpsertAbsorbs<T>(key: T -> string, items: seq<T>, first: T, second: T)
    requires key(first) == key(second) != ""
    ensures Upsert(key, Upsert(key, items, first), second) == Upsert(key, items, second)
  {
    var at := LastWith(key, items, key(first));
    var i := if at.Some? then at.value else |items|;
    LastWithIs(key, Upsert(key, items, first), key(first), i);
  }

  /** Replacing an entry that is present commutes with an upsert of another key. */
  lemma UpsertCommutes<T>(key: T -> string, items: seq<T>, present: T, other: T)
    requires key(present) != "" && key(present) in Keys(key, items)
    requires key(other) != key(present)
    ensures Upsert(key, Upsert(key, items, present), other) == Upsert(key, Upsert(key, items, other), present)
  {
    var i := LastWith(key, items, key(present)).value;
    var left, right := Upsert(key, items, present), Upsert(key, items, other);
    LastWithIs(key, right, key(present), i);
    var at := LastWith(key, items, key(other));
    if key(other) != "" {
      if at.Some? {
        LastWithIs(key, left, key(other), at.value);
      }
    }
  }

  lemma UpsertInFront<T>(key: T -> string, prior: seq<T>, head: seq<T>, last: T, item: T, at: nat)
    requires at < |head| && key(head[at]) == key(item) != "" && key(item) != key(last)
    requires MergeLists(key, prior, head[at := item]) == Upsert(key, MergeLists(key, prior, head), item)
    ensures MergeLists(key, prior, head[at := item] + [last]) ==
      Upsert(key, MergeLists(key, prior, head + [last]), item)
  {
    MergeKeys(key, prior, head);
    UpsertCommutes(key, MergeLists(key, prior, head), item, last);
    assert (head[at := item] + [last])[..|head|] == head[at := item];
    assert (head + [last])[..|head|] == head;
  }

  lemma UpsertAtEnd<T>(key: T -> string, prior: seq<T>, head: seq<T>, last: T, item: T)
    requires key(last) == key(item) != ""
    ensures MergeLists(key, prior, head + [item]) == Upsert(key, MergeLists(key, prior, head + [last]), item)
  {
    assert (head + [item])[..|head|] == head && (head + [last])[..|head|] == head;
    UpsertAbsorbs(key, MergeLists(key, prior, head), last, item);
  }

  lemma MergeOneMore<T>(key: T -> string, prior: seq<T>, incoming: seq<T>, item: T)
    ensures MergeLists(key, prior, incoming + [item]) == Upsert(key, MergeLists(key, prior, incoming), item)
  {
    assert (incoming + [item])[..|incoming|] == incoming;
  }

  /** An upsert into the incoming list is the same upsert into the merged list. */
  lemma {:induction false} UpsertThroughMerge<T>(key: T -> string, prior: seq<T>, incoming: seq<T>, item: T)
    ensures MergeLists(key, prior, Upsert(key, incoming, item)) == Upsert(key, MergeLists(key, prior, incoming), item)
  {
    var at := LastWith(key, incoming, key(item));
    if key(item) == "" || at.None? {
      MergeOneMore(key, prior, incoming, item);
    } else {
      var n := |incoming| - 1;
      var head, last := incoming[..n], incoming[n];
      assert incoming == head + [last];
      if at.value == n {
        UpsertAtEnd(key, prior, head, last, item);
        assert incoming[n := item] == head + [item];
      } else {
        LastWithIs(key, head, key(item), at.value);
        UpsertThroughMerge(key, prior, head, item);
        UpsertInFront(key, prior, head, last, item, at.value);
        assert incoming[at.value := item] == head[at.value := item] + [last];
      }
    }
  }

  /** Merging lists is associative, whatever the lists hold. */
  lemma {:induction false} MergeAssociative<T>(key: T -> string, a: seq<T>, b: seq<T>, c: seq<T>)
    ensures MergeLists(key, MergeLists(key, a, b), c) == MergeLists(key, a, MergeLists(key, b, c))
  {
    if c != [] {
      var n := |c| - 1;
      MergeAssociative(key, a, b, c[..n]);
      UpsertThroughMerge(key, a, MergeLists(key, b, c[..n]), c[n]);
    }
  }

  // ---------------------------------------------------------------------------
  // When the prior list leaves no trace
  // ---------------------------------------------------------------------------

  /**
   * The prior list's keys are given, distinct, and in order the first keys of what the incoming list comes to alone.
   */
  predicate Leads<T>(key: T -> string, prior: seq<T>, incoming: seq<T>) {
    var alone := MergeLists(key, [], incoming);
    |prior| <= |alone| && forall i :: 0 <= i < |prior| ==> key(prior[i]) != "" && key(prior[i]) == key(alone[i])
  }

  predicate GivenDistinct<T>(key: T -> string, items: seq<T>) {
    forall i, j :: 0 <= i < j < |items| && key(items[i]) != "" ==> key(items[i]) != key(items[j])
  }

  lemma {:induction false} AloneIsDistinct<T>(key: T -> string, incoming: seq<T>)
    ensures GivenDistinct(key, MergeLists(key, [], incoming))
  {
    if incoming != [] {
      AloneIsDistinct(key, incoming[..|incoming| - 1]);
    }
  }

  /** Each slot of the prior list keeps its key. */
  lemma {:induction false} MergeKeepsSlots<T>(key: T -> string, prior: seq<T>, incoming: seq<T>)
    ensures |MergeLists(key, prior, incoming)| >= |prior|
    ensures forall i :: 0 <= i < |prior| ==> key(MergeLists(key, prior, incoming)[i]) == key(prior[i])
  {
    if incoming != [] { MergeKeepsSlots(key, prior, incoming[..|incoming| - 1]); }
  }

  /** The first `n` of `items`, then what of `prior` they do not reach. */
  function Overlaid<T>(prior: seq<T>, items: seq<T>, n: nat): seq<T>
    requires n <= |items|
  {
    items[..n] + if n < |prior| then prior[n..] else []
  }

  lemma OverlayNext<T>(key: T -> string, prior: seq<T>, items: seq<T>, n: nat)
    requires GivenDistinct(key, items) && |prior| <= n < |items|
    ensures Upsert(key, Overlaid(prior, items, n), items[n]) == Overlaid(prior, items, n + 1)
  {
    assert Overlaid(prior, items, n) == items[..n];
  }

  lemma OverwriteNext<T>(key: T -> string, prior: seq<T>, items: seq<T>, n: nat)
    requires GivenDistinct(key, items) && n < |prior| <= |items|
    requires forall i :: 0 <= i < |prior| ==> key(prior[i]) != "" && key(prior[i]) == key(items[i])
    ensures Upsert(key, Overlaid(prior, items, n), items[n]) == Overlaid(prior, items, n + 1)
  {
    var before := Overlaid(prior, items, n);
    assert before[n] == prior[n];
    forall j | n < j < |before| ensures key(before[j]) != key(items[n]) {
      assert before[j] == prior[j];
    }
    LastWithIs(key, before, key(items[n]), n);
  }

  /** Entries that follow the prior list's keys in order overwrite it slot by slot, and the rest is appended. */
  lemma {:induction false} Overwrites<T>(key: T -> string, prior: seq<T>, items: seq<T>, n: nat)
    requires GivenDistinct(key, items) && |prior| <= |items| && n <= |items|
    requires forall i :: 0 <= i < |prior| ==> key(prior[i]) != "" && key(prior[i]) == key(items[i])
    ensures MergeLists(key, prior, items[..n]) == Overlaid(prior, items, n)
  {
    if n > 0 {
      Overwrites(key, prior, items, n - 1);
      assert items[..n][..n - 1] == items[..n - 1];
      if n - 1 < |prior| { OverwriteNext(key, prior, items, n - 1); } else { OverlayNext(key, prior, items, n - 1); }
    }
  }

  function Blanks<T>(key: T -> string, items: seq<T>): nat {
    if items == [] then 0 else Blanks(key, items[..|items| - 1]) + if key(items[|items| - 1]) == "" then 1 else 0
  }

  lemma {:induction false} SameBlanks<T>(key: T -> string, x: seq<T>, y: seq<T>)
    requires |x| == |y| && forall i :: 0 <= i < |x| ==> (key(x[i]) == "" <==> key(y[i]) == "")
    ensures Blanks(key, x) == Blanks(key, y)
  {
    if x != [] { SameBlanks(key, x[..|x| - 1], y[..|y| - 1]); }
  }

  lemma {:induction false} MergeBlanks<T>(key: T -> string, prior: seq<T>, incoming: seq<T>)
    ensures Blanks(key, MergeLists(key, prior, incoming)) == Blanks(key, prior) + Blanks(key, incoming)
  {
    if incoming != [] {
      var n := |incoming| - 1;
      MergeBlanks(key, prior, incoming[..n]);
      var before, item := MergeLists(key, prior, incoming[..n]), incoming[n];
      var at := LastWith(key, before, key(item));
      if key(item) != "" && at.Some? {
        SameBlanks(key, before, before[at.value := item]);
      } else {
        assert (before + [item])[..|before|] == before;
      }
    }
  }

  lemma {:induction false} BlankCounts<T>(key: T -> string, items: seq<T>, i: nat)
    requires i < |items| && key(items[i]) == ""
    ensures Blanks(key, items) > 0
  {
    if i < |items| - 1 { BlankCounts(key, items[..|items| - 1], i); }
  }

  /** The prior list leaves no trace exactly when it leads the incoming one. */
  lemma LeadsIff<T>(key: T -> string, prior: seq<T>, incoming: seq<T>)
    ensures MergeLists(key, prior, incoming) == MergeLists(key, [], incoming) <==> Leads(key, prior, incoming)
  {
    var alone := MergeLists(key, [], incoming);
    MergeKeepsSlots(key, prior, incoming);
    MergeBlanks(key, prior, incoming);
    MergeBlanks(key, [], incoming);
    if MergeLists(key, prior, incoming) == alone {
      forall i | 0 <= i < |prior| ensures key(prior[i]) != "" {
        if key(prior[i]) == "" { BlankCounts(key, prior, i); }
      }
    }
    if Leads(key, prior, incoming) {
      AloneIsDistinct(key, incoming);
      Overwrites(key, prior, alone, |alone|);
      assert alone[..|alone|] == alone;
      MergeAssociative(key, prior, [], incoming);
    }
  }

  // ---------------------------------------------------------------------------
  // Merging a list into itself
  // ---------------------------------------------------------------------------

  /** What position `i` holds after the first `n` entries of `items` were merged back into `items`. */
  ghost function SelfMergedAt<T>(key: T -> string, items: seq<T>, n: nat, i: nat): T
    requires n <= |items| && i < |items|
  {
    var latest := LastWith(key, items[..n], key(items[i]));
    if LastWith(key, items, key(items[i])) == Some(i) && latest.Some? then items[latest.value] else items[i]
  }

  lemma SelfMergedStep<T>(key: T -> string, items: seq<T>, n: nat, i: nat)
    requires 0 < n <= |items| && i < |items|
    ensures SelfMergedAt(key, items, n, i) ==
            if LastWith(key, items, key(items[n - 1])) == Some(i) then items[n - 1]
              else SelfMergedAt(key, items, n - 1, i)
  {
    assert items[..n][..n - 1] == items[..n - 1];
    if key(items[i]) == key(items[n - 1]) {
      LastWithIs(key, items[..n], key(items[n - 1]), n - 1);
    }
  }

  lemma SelfMergedKeys<T>(key: T -> string, items: seq<T>, n: nat, merged: seq<T>)
    requires n <= |items| && merged == seq(|items|, i requires 0 <= i < |items| => SelfMergedAt(key, items, n, i))
    ensures forall i :: 0 <= i < |items| ==> key(merged[i]) == key(items[i])
  {
  }

  lemma SelfMergeNext<T>(key: T -> string, items: seq<T>, n: nat, before: seq<T>)
    requires 0 < n <= |items| && key(items[n - 1]) != ""
    requires before == seq(|items|, i requires 0 <= i < |items| => SelfMergedAt(key, items, n - 1, i))
    ensures Upsert(key, before, items[n - 1]) ==
      seq(|items|, i requires 0 <= i < |items| => SelfMergedAt(key, items, n, i))
  {
    var item := items[n - 1];
    var at := LastWith(key, items, key(item)).value;
    SelfMergedKeys(key, items, n - 1, before);
    LastWithIs(key, before, key(item), at);
    forall i | 0 <= i < |items| ensures before[at := item][i] == SelfMergedAt(key, items, n, i) {
      SelfMergedStep(key, items, n, i);
    }
  }

  lemma {:induction false} SelfMerge<T>(key: T -> string, items: seq<T>, n: nat)
    requires "" !in Keys(key, items)
    requires n <= |items|
    ensures MergeLists(key, items, items[..n]) ==
      seq(|items|, i requires 0 <= i < |items| => SelfMergedAt(key, items, n, i))
  {
    if n != 0 {
      SelfMerge(key, items, n - 1);
      assert items[..n][..n - 1] == items[..n - 1];
      assert key(items[n - 1]) in Keys(key, items);
      SelfMergeNext(key, items, n, MergeLists(key, items, items[..n - 1]));
    }
  }

  lemma {:induction false} MergeLength<T>(key: T -> string, prior: seq<T>, incoming: seq<T>)
    ensures |MergeLists(key, prior, incoming)| >= |prior| + if "" in Keys(key, incoming) then 1 else 0
  {
    if incoming != [] {
      var n := |incoming| - 1;
      MergeLength(key, prior, incoming[..n]);
      if "" in Keys(key, incoming) && key(incoming[n]) != "" {
        var i :| 0 <= i < |incoming| && key(incoming[i]) == "";
        assert key(incoming[..n][i]) == "";
      }
    }
  }

  /** A list merged into itself is unchanged exactly when no entry has a blank key. */
  lemma MergeIdempotentIff<T>(key: T -> string, items: seq<T>)
    ensures MergeLists(key, items, items) == items <==> "" !in Keys(key, items)
  {
    MergeLength(key, items, items);
    if "" !in Keys(key, items) {
      SelfMerge(key, items, |items|);
      assert items[..|items|] == items;
      forall i | 0 <= i < |items|
        ensures SelfMergedAt(key, items, |items|, i) == items[i]
      {
      }
    }
  }

  /** The index of known keys: each non-blank key, at the last entry that carries it. */
  ghost predicate Indexes<T>(key: T -> string, index: map<string, nat>, items: seq<T>) {
    forall k :: (k in index <==> k != "" && LastWith(key, items, k).Some?) &&
      (k in index ==> LastWith(key, items, k) == Some(index[k]))
  }

  lemma ReplaceKeepsIndex<T>(key: T -> string, index: map<string, nat>, items: seq<T>, item: T)
    requires Indexes(key, index, items)
    requires key(item) in index
    ensures Indexes(key, index, items[index[key(item)] := item])
  {
    var at := index[key(item)];
    var after := items[at := item];
    assert forall i :: 0 <= i < |items| ==> key(after[i]) == key(items[i]);
    forall k
      ensures LastWith(key, after, k) == LastWith(key, items, k)
    {
      var r := LastWith(key, items, k);
      if r.Some? { LastWithIs(key, after, k, r.value); }
    }
  }

  /** The merge as it is written: slots of the prior list are overwritten through an index of known keys. */
  method MergeByIndex<T>(key: T -> string, prior: seq<T>, incoming: seq<T>) returns (items: seq<T>)
    ensures items == MergeLists(key, prior, incoming)
  {
    items := prior;
    var index: map<string, nat> := map[];
    for i := 0 to |prior|
      invariant Indexes(key, index, prior[..i])
    {
      assert prior[..i + 1][..i] == prior[..i];
      var k := key(prior[i]);
      if k != "" { index := index[k := i]; }
    }
    assert prior[..|prior|] == prior;
    for i := 0 to |incoming|
      invariant items == MergeLists(key, prior, incoming[..i])
      invariant Indexes(key, index, items)
    {
      assert incoming[..i + 1][..i] == incoming[..i];
      var item := incoming[i];
      var k := key(item);
      if k != "" && k in index {
        ReplaceKeepsIndex(key, index, items, item);
        items := items[index[k] := item];
      } else {
        assert (items + [item])[..|items|] == items;
        if k != "" { index := index[k := |items|]; }
        items := items + [item];
      }
    }
    assert incoming[..|incoming|] == incoming;
  }
}
