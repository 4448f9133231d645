/** Version comparison, and how it relates to the precedence of section 11 of Semantic Versioning 2.0.0. */
module SemanticVersions {
  import opened Prelude
  import opened Strings

  /** Prerelease identifiers; the empty list of a release is `None`. */
  datatype Version = Version(major: nat, minor: nat, patch: nat, pre: Option<seq<string>>)

  predicate IsDigit(c: char) {
    '0' <= c <= '9'
  }

  predicate IsNumeric(s: string) {
    s != "" && forall i :: 0 <= i < |s| ==> IsDigit(s[i])
  }

  function Digit(c: char): nat
    requires IsDigit(c)
  {
    c as int - '0' as int
  }

  function Value(s: string): nat
    requires forall i :: 0 <= i < |s| ==> IsDigit(s[i])
  {
    if s == "" then 0 else 10 * Value(s[..|s| - 1]) + Digit(s[|s| - 1])
  }

  /** `str.partition("-")`: the text before the first hyphen, and the text after it if there is one. */
  function Partition(s: string): (string, Option<string>) {
    if s == "" then ("", None)
    else if s[0] == '-' then ("", Some(s[1..]))
    else var (main, pre) := Partition(s[1..]); ([s[0]] + main, pre)
  }

  predicate IsPrereleaseChar(c: char) {
    IsDigit(c) || 'A' <= c <= 'Z' || 'a' <= c <= 'z' || c == '.' || c == '-'
  }

  /** The texts the manifest's version expression accepts. */
  predicate IsVersion(s: string) {
    var (main, pre) := Partition(s);
    var parts := SplitOn(main, '.');
    && |parts| == 3
    && (forall i :: 0 <= i < 3 ==> IsNumeric(parts[i]))
    && (pre.Some? ==> pre.value != "" && forall i :: 0 <= i < |pre.value| ==> IsPrereleaseChar(pre.value[i]))
  }

  function Parse(s: string): Version
    requires IsVersion(s)
  {
    var (main, pre) := Partition(s);
    var parts := SplitOn(main, '.');
    Version(Value(parts[0]), Value(parts[1]), Value(parts[2]), if pre.Some? then Some(SplitOn(pre.value, '.'))
      else None)
  }

  /** Python's order on strings. */
  predicate TextLess(a: string, b: string) {
    if a == "" || b == "" then a == "" && b != ""
    else if a[0] != b[0] then a[0] < b[0]
    else TextLess(a[1..], b[1..])
  }

  function CompareParts(left: string, right: string): int
    requires left != right
  {
    if IsNumeric(left) && IsNumeric(right) then (if Value(left) > Value(right) then 1 else -1)
    else if IsNumeric(left) != IsNumeric(right) then (if IsNumeric(left) then -1 else 1)
    else if TextLess(right, left) then 1 else -1
  }

  function ComparePre(left: seq<string>, right: seq<string>): int {
    if left == [] || right == [] then
      if |left| == |right| then 0 else if |left| > |right| then 1 else -1
    else if left[0] == right[0] then ComparePre(left[1..], right[1..])
    else CompareParts(left[0], right[0])
  }

  predicate MainLess(v: Version, w: Version) {
    v.major < w.major || (v.major == w.major && (v.minor < w.minor || (v.minor == w.minor && v.patch < w.patch)))
  }

  predicate SameMain(v: Version, w: Version) {
    v.major == w.major && v.minor == w.minor && v.patch == w.patch
  }

  function CompareVersions(v: Version, w: Version): int {
    if !SameMain(v, w) then (if MainLess(w, v) then 1 else -1)
    else if v.pre.None? || w.pre.None? then
      if v.pre == w.pre then 0 else if v.pre.None? then 1 else -1
    else ComparePre(v.pre.value, w.pre.value)
  }

  /** `compare_semantic_versions`. */
  function Compare(left: string, right: string): int
    requires IsVersion(left) && IsVersion(right)
  {
    CompareVersions(Parse(left), Parse(right))
  }

  // ---------------------------------------------------------------------------
  // The order on text
  // ---------------------------------------------------------------------------

  lemma {:induction false} TextLessTotal(a: string, b: string)
    ensures TextLess(a, b) || TextLess(b, a) || a == b
    ensures !(TextLess(a, b) && TextLess(b, a))
    ensures TextLess(a, b) ==> a != b
  {
    if a != "" && b != "" && a[0] == b[0] {
      TextLessTotal(a[1..], b[1..]);
      assert a == [a[0]] + a[1..] && b == [b[0]] + b[1..];
    }
  }

  lemma {:induction false} TextLessTransitive(a: string, b: string, c: string)
    requires TextLess(a, b) && TextLess(b, c)
    ensures TextLess(a, c)
  {
    if a != "" && a[0] == b[0] == c[0] {
      TextLessTransitive(a[1..], b[1..], c[1..]);
    }
  }

  lemma PartsTransitive(a: string, b: string, c: string)
    requires a != b && b != c
    requires CompareParts(a, b) > 0 && CompareParts(b, c) > 0
    ensures a != c && CompareParts(a, c) > 0
  {
    if !IsNumeric(a) && !IsNumeric(b) && !IsNumeric(c) {
      TextLessTransitive(c, b, a);
      TextLessTotal(c, a);
    }
  }

  // ---------------------------------------------------------------------------
  // "Newer than" is a strict order on everything the expression accepts
  // ---------------------------------------------------------------------------

  lemma {:induction false} PreAsymmetric(l: seq<string>, r: seq<string>)
    requires ComparePre(l, r) > 0
    ensures ComparePre(r, l) < 0
  {
    if l != [] && r != [] {
      if l[0] == r[0] { PreAsymmetric(l[1..], r[1..]); } else { TextLessTotal(l[0], r[0]); }
    }
  }

  lemma {:induction false} PreTransitive(a: seq<string>, b: seq<string>, c: seq<string>)
    requires ComparePre(a, b) > 0 && ComparePre(b, c) > 0
    ensures ComparePre(a, c) > 0
  {
    if b != [] && c != [] {
      if a[0] == b[0] == c[0] { PreTransitive(a[1..], b[1..], c[1..]); }
      else if a[0] != b[0] && b[0] != c[0] { PartsTransitive(a[0], b[0], c[0]); }
    }
  }

  /** "Newer" is irreflexive, asymmetric and transitive on every accepted version, padded or not. */
  lemma NewerIsStrictOrder(a: string, b: string, c: string)
    requires IsVersion(a) && IsVersion(b) && IsVersion(c)
    ensures !(Compare(a, a) > 0)
    ensures Compare(a, b) > 0 ==> Compare(b, a) < 0
    ensures Compare(a, b) > 0 && Compare(b, c) > 0 ==> Compare(a, c) > 0
  {
    var v, w, x := Parse(a), Parse(b), Parse(c);
    if v.pre.Some? { PreReflexive(v.pre.value); }
    if Compare(a, b) > 0 {
      if SameMain(v, w) && v.pre.Some? && w.pre.Some? { PreAsymmetric(v.pre.value, w.pre.value); }
      if Compare(b, c) > 0 && SameMain(v, w) && SameMain(w, x) && v.pre.Some? && w.pre.Some? && x.pre.Some? {
        PreTransitive(v.pre.value, w.pre.value, x.pre.value);
      }
    }
  }

  lemma {:induction false} PreReflexive(l: seq<string>)
    ensures ComparePre(l, l) == 0
  {
    if l != [] { PreReflexive(l[1..]); }
  }

  // ---------------------------------------------------------------------------
  // Section 11 precedence
  // ---------------------------------------------------------------------------

  predicate SameIdentifier(a: string, b: string) {
    if IsNumeric(a) && IsNumeric(b) then Value(a) == Value(b) else a == b
  }

  /** Numeric identifiers by value, below alphanumeric ones, which are in ASCII order. */
  predicate IdentifierLess(a: string, b: string) {
    if IsNumeric(a) && IsNumeric(b) then Value(a) < Value(b)
    else if IsNumeric(a) != IsNumeric(b) then IsNumeric(a)
    else TextLess(a, b)
  }

  /** Lower at the first identifier that differs, or a proper prefix of the other. */
  ghost predicate PreLower(l: seq<string>, r: seq<string>) {
    exists k :: 0 <= k <= |l| && k <= |r| && PreLowerAt(l, r, k)
  }

  ghost predicate PreLowerAt(l: seq<string>, r: seq<string>, k: nat)
    requires k <= |l| && k <= |r|
  {
    && (forall i :: 0 <= i < k ==> SameIdentifier(l[i], r[i]))
    && (if k < |l| && k < |r| then IdentifierLess(l[k], r[k]) else k == |l| < |r|)
  }

  /** The precedence relation of section 11. */
  ghost predicate LowerPrecedence(v: Version, w: Version) {
    || MainLess(v, w)
    || (SameMain(v, w) && v.pre.Some? && (w.pre.None? || PreLower(v.pre.value, w.pre.value)))
  }

  /** The first identifiers that differ are two spellings of one number. */
  predicate PaddingClash(l: seq<string>, r: seq<string>) {
    l != [] && r != [] &&
    if l[0] == r[0] then PaddingClash(l[1..], r[1..])
    else IsNumeric(l[0]) && IsNumeric(r[0]) && Value(l[0]) == Value(r[0])
  }

  /** The versions differ in nothing but prerelease identifiers, and a padding clash decides between those. */
  predicate Clash(v: Version, w: Version) {
    SameMain(v, w) && v.pre.Some? && w.pre.Some? && PaddingClash(v.pre.value, w.pre.value)
  }

  lemma {:induction false} ClashIsSymmetric(l: seq<string>, r: seq<string>)
    ensures PaddingClash(l, r) <==> PaddingClash(r, l)
  {
    if l != [] && r != [] && l[0] == r[0] { ClashIsSymmetric(l[1..], r[1..]); }
  }

  lemma {:induction false} ClashIsNegative(l: seq<string>, r: seq<string>)
    requires PaddingClash(l, r)
    ensures ComparePre(l, r) < 0
  {
    if l[0] == r[0] { ClashIsNegative(l[1..], r[1..]); }
  }

  lemma LowerInTail(l: seq<string>, r: seq<string>)
    requires l != [] && r != [] && l[0] == r[0]
    ensures PreLower(l, r) <==> PreLower(l[1..], r[1..])
  {
    if PreLower(l[1..], r[1..]) {
      var k :| 0 <= k <= |l| - 1 && k <= |r| - 1 && PreLowerAt(l[1..], r[1..], k);
      assert PreLowerAt(l, r, k + 1);
    }
    if PreLower(l, r) {
      TextLessTotal(l[0], r[0]);
      var k :| 0 <= k <= |l| && k <= |r| && PreLowerAt(l, r, k);
      assert k != 0;
      assert PreLowerAt(l[1..], r[1..], k - 1);
    }
  }

  /** Where no clash decides, the comparison of prereleases is their precedence. */
  lemma {:induction false} ComparePreIsPrecedence(l: seq<string>, r: seq<string>)
    requires !PaddingClash(l, r)
    ensures ComparePre(l, r) < 0 <==> PreLower(l, r)
  {
    if l == [] || r == [] {
      if l == [] && r != [] { assert PreLowerAt(l, r, 0); }
    } else if l[0] == r[0] {
      ComparePreIsPrecedence(l[1..], r[1..]);
      LowerInTail(l, r);
    } else {
      TextLessTotal(l[0], r[0]);
      if IdentifierLess(l[0], r[0]) { assert PreLowerAt(l, r, 0); }
      if PreLower(l, r) {
        var k :| 0 <= k <= |l| && k <= |r| && PreLowerAt(l, r, k);
        assert k == 0;
      }
    }
  }

  lemma IdentifiersOrdered(a: string, b: string)
    ensures IdentifierLess(a, b) ==> !IdentifierLess(b, a) && !SameIdentifier(a, b) && !SameIdentifier(b, a)
  {
    TextLessTotal(a, b);
  }

  lemma LowerOneWay(l: seq<string>, r: seq<string>, k: nat, j: nat)
    requires k <= |l| && k <= |r| && j <= |l| && j <= |r| && PreLowerAt(l, r, k)
    ensures !PreLowerAt(r, l, j)
  {
    if k < |l| && k < |r| { IdentifiersOrdered(l[k], r[k]); }
    if j < |l| && j < |r| { IdentifiersOrdered(r[j], l[j]); }
  }

  lemma PreLowerIsAsymmetric(l: seq<string>, r: seq<string>)
    requires PreLower(l, r)
    ensures !PreLower(r, l)
  {
    var k :| 0 <= k <= |l| && k <= |r| && PreLowerAt(l, r, k);
    forall j | 0 <= j <= |r| && j <= |l| ensures !PreLowerAt(r, l, j) { LowerOneWay(l, r, k, j); }
  }

  /** In both directions, "below" is "of lower precedence". */
  ghost predicate AgreesWithPrecedence(a: string, b: string)
    requires IsVersion(a) && IsVersion(b)
  {
    && (Compare(a, b) < 0 <==> LowerPrecedence(Parse(a), Parse(b)))
    && (Compare(b, a) < 0 <==> LowerPrecedence(Parse(b), Parse(a)))
  }

  /** The comparison of two accepted versions agrees with section 11 exactly when no padding clash decides it. */
  lemma CompareIsPrecedenceIff(a: string, b: string)
    requires IsVersion(a) && IsVersion(b)
    ensures AgreesWithPrecedence(a, b) <==> !Clash(Parse(a), Parse(b))
  {
    var v, w := Parse(a), Parse(b);
    if SameMain(v, w) && v.pre.Some? && w.pre.Some? {
      var l, r := v.pre.value, w.pre.value;
      ClashIsSymmetric(l, r);
      if PaddingClash(l, r) {
        ClashIsNegative(l, r);
        ClashIsNegative(r, l);
        if PreLower(l, r) { PreLowerIsAsymmetric(l, r); }
      } else {
        ComparePreIsPrecedence(l, r);
        ComparePreIsPrecedence(r, l);
      }
    }
  }

  lemma {:induction false} OppositeIff(l: seq<string>, r: seq<string>)
    ensures ComparePre(l, r) == -ComparePre(r, l) <==> !PaddingClash(l, r)
    ensures ComparePre(l, r) == 0 <==> l == r
  {
    if l != [] && r != [] {
      if l[0] == r[0] {
        OppositeIff(l[1..], r[1..]);
        assert l == [l[0]] + l[1..] && r == [r[0]] + r[1..];
      } else {
        TextLessTotal(l[0], r[0]);
      }
    }
  }

  /** Swapping the arguments negates the comparison exactly when no padding clash decides it. */
  lemma CompareOppositeIff(a: string, b: string)
    requires IsVersion(a) && IsVersion(b)
    ensures Compare(a, b) == -Compare(b, a) <==> !Clash(Parse(a), Parse(b))
    ensures Compare(a, b) == 0 <==> Parse(a) == Parse(b)
  {
    var v, w := Parse(a), Parse(b);
    if v.pre.Some? && w.pre.Some? { OppositeIff(v.pre.value, w.pre.value); }
  }

  // ---------------------------------------------------------------------------
  // Padding
  // ---------------------------------------------------------------------------

  predicate Unpadded(s: string) {
    IsNumeric(s) && |s| > 1 ==> s[0] != '0'
  }

  predicate UnpaddedVersion(v: Version) {
    v.pre.Some? ==> forall i :: 0 <= i < |v.pre.value| ==> Unpadded(v.pre.value[i])
  }

  lemma {:induction false} ValuePositive(s: string)
    requires IsNumeric(s) && s[0] != '0'
    ensures Value(s) > 0
  {
    if |s| > 1 { ValuePositive(s[..|s| - 1]); }
  }

  /** Without padding, equal values mean equal text. */
  lemma {:induction false} ValueInjective(a: string, b: string)
    requires IsNumeric(a) && IsNumeric(b) && Unpadded(a) && Unpadded(b)
    requires Value(a) == Value(b)
    ensures a == b
  {
    var a0, b0 := a[..|a| - 1], b[..|b| - 1];
    assert a == a0 + [a[|a| - 1]] && b == b0 + [b[|b| - 1]];
    assert Value(a) / 10 == Value(a0) && Value(b) / 10 == Value(b0);
    if |a| > 1 { ValuePositive(a0); }
    if |b| > 1 { ValuePositive(b0); }
    if |a| > 1 && |b| > 1 { ValueInjective(a0, b0); }
  }

  lemma {:induction false} UnpaddedNeverClash(l: seq<string>, r: seq<string>)
    requires forall i :: 0 <= i < |l| ==> Unpadded(l[i])
    requires forall i :: 0 <= i < |r| ==> Unpadded(r[i])
    ensures !PaddingClash(l, r)
  {
    if l != [] && r != [] {
      if l[0] == r[0] { UnpaddedNeverClash(l[1..], r[1..]); }
      else if IsNumeric(l[0]) && IsNumeric(r[0]) && Value(l[0]) == Value(r[0]) { ValueInjective(l[0], r[0]); }
    }
  }

  /** So on versions without padded prerelease numbers the comparison is exactly section 11, and total. */
  lemma CompareIsPrecedence(a: string, b: string)
    requires IsVersion(a) && IsVersion(b)
    requires UnpaddedVersion(Parse(a)) && UnpaddedVersion(Parse(b))
    ensures Compare(a, b) < 0 <==> LowerPrecedence(Parse(a), Parse(b))
    ensures Compare(a, b) > 0 <==> LowerPrecedence(Parse(b), Parse(a))
    ensures Compare(a, b) == 0 <==> Parse(a) == Parse(b)
  {
    var v, w := Parse(a), Parse(b);
    if v.pre.Some? && w.pre.Some? { UnpaddedNeverClash(v.pre.value, w.pre.value); }
    CompareIsPrecedenceIff(a, b);
    CompareOppositeIff(a, b);
  }

  lemma {:induction false} PaddingKeepsValue(n: string)
    requires IsNumeric(n)
    ensures IsNumeric("0" + n) && Value("0" + n) == Value(n)
  {
    var padded := "0" + n;
    assert padded[..|padded| - 1] == "0" + n[..|n| - 1];
    if |n| > 1 {
      PaddingKeepsValue(n[..|n| - 1]);
    } else {
      assert padded[..1] == "0" && "0"[..0] == "" && n[..0] == "";
    }
  }

  lemma {:induction false} PartitionAtHyphen(main: string, pre: string)
    requires '-' !in main
    ensures Partition(main + ("-" + pre)) == (main, Some(pre)) && Partition(main) == (main, None)
  {
    var t := main + ("-" + pre);
    if main == "" {
      assert t == "-" + pre && t[1..] == pre;
    } else {
      PartitionAtHyphen(main[1..], pre);
      assert t[1..] == main[1..] + ("-" + pre) && main == [main[0]] + main[1..];
    }
  }

  lemma {:induction false} SplitsInOne(s: string, sep: char)
    requires sep !in s
    ensures SplitOn(s, sep) == [s]
  {
    if s != "" {
      SplitsInOne(s[1..], sep);
      assert s == [s[0]] + s[1..];
    }
  }

  lemma NumericPrerelease(main: string, n: string)
    requires IsVersion(main) && '-' !in main && IsNumeric(n)
    ensures var a := main + ("-" + n); IsVersion(a) && Parse(a) == Parse(main).(pre := Some([n]))
  {
    PartitionAtHyphen(main, n);
    assert forall i :: 0 <= i < |n| ==> IsDigit(n[i]);
    SplitsInOne(n, '.');
  }

  /** A release's numeric prerelease and its zero-padded spelling, both accepted, each compare below the other. */
  lemma PaddedSpellingsClash(main: string, n: string)
    requires IsVersion(main) && '-' !in main && IsNumeric(n)
    ensures var padded, plain := main + ("-" + ("0" + n)), main + ("-" + n);
            && IsVersion(padded) && IsVersion(plain)
            && Compare(padded, plain) < 0 && Compare(plain, padded) < 0
  {
    PaddingKeepsValue(n);
    NumericPrerelease(main, n);
    NumericPrerelease(main, "0" + n);
    assert ("0" + n) != n;
  }
}
