/** Version comparison stated on the texts themselves: decimal numbers and dot-separated identifiers. */
module VersionTexts {
  import opened Prelude
  import opened Strings
  import opened SemanticVersions

  // ---------------------------------------------------------------------------
  // Decimal numbers
  // ---------------------------------------------------------------------------

  const DIGITS := "0123456789"

  /** The decimal spelling of a number, without padding. */
  function Show(n: nat): string {
    if n < 10 then [DIGITS[n]] else Show(n / 10) + [DIGITS[n % 10]]
  }

  lemma {:induction false} ShowReads(n: nat)
    ensures IsNumeric(Show(n)) && Value(Show(n)) == n
  {
    if n < 10 {
      assert Show(n)[..0] == "";
    } else {
      ShowReads(n / 10);
      var s := Show(n);
      assert s[..|s| - 1] == Show(n / 10);
    }
  }

  lemma {:induction false} ShowUnpadded(n: nat)
    ensures Show(n) != "" && (Show(n)[0] == '0' ==> n == 0)
  {
    if n >= 10 { ShowUnpadded(n / 10); }
  }

  // ---------------------------------------------------------------------------
  // Texts of versions
  // ---------------------------------------------------------------------------

  /** Three numerals, dotted. */
  function Main(x: string, y: string, z: string): string {
    x + ("." + (y + ("." + z)))
  }

  function Dotted(parts: seq<string>): string
    requires parts != []
  {
    if |parts| == 1 then parts[0] else parts[0] + ("." + Dotted(parts[1..]))
  }

  /** A prerelease identifier: characters the version expression allows, none of them a dot. */
  predicate IsIdentifier(s: string) {
    forall i :: 0 <= i < |s| ==> IsPrereleaseChar(s[i]) && s[i] != '.'
  }

  /** Identifiers whose dotted text is a prerelease; only a single empty one is not. */
  predicate AreIdentifiers(parts: seq<string>) {
    parts != [] && parts != [""] && forall i :: 0 <= i < |parts| ==> IsIdentifier(parts[i])
  }

  lemma NumericHasNo(s: string, c: char)
    requires IsNumeric(s) && !IsDigit(c)
    ensures c !in s
  {
  }

  lemma {:induction false} SplitAtSeparator(x: string, sep: char, y: string)
    requires sep !in x
    ensures SplitOn(x + ([sep] + y), sep) == [x] + SplitOn(y, sep)
  {
    var t := x + ([sep] + y);
    if x == "" {
      assert t == [sep] + y && t[1..] == y;
    } else {
      SplitAtSeparator(x[1..], sep, y);
      assert t[1..] == x[1..] + ([sep] + y) && x == [x[0]] + x[1..];
    }
  }

  lemma {:induction false} DottedSplits(parts: seq<string>)
    requires parts != [] && forall i :: 0 <= i < |parts| ==> '.' !in parts[i]
    ensures SplitOn(Dotted(parts), '.') == parts
  {
    if |parts| == 1 {
      SplitsInOne(parts[0], '.');
    } else {
      DottedSplits(parts[1..]);
      SplitAtSeparator(parts[0], '.', Dotted(parts[1..]));
      assert "." == ['.'];
    }
  }

  lemma MainSplits(x: string, y: string, z: string)
    requires IsNumeric(x) && IsNumeric(y) && IsNumeric(z)
    ensures SplitOn(Main(x, y, z), '.') == [x, y, z] && '-' !in Main(x, y, z)
  {
    NumericHasNo(x, '.');
    NumericHasNo(y, '.');
    NumericHasNo(z, '.');
    assert "." == ['.'];
    SplitsInOne(z, '.');
    SplitAtSeparator(y, '.', z);
    SplitAtSeparator(x, '.', y + ("." + z));
  }

  /** A release is read as its three numbers, in order. */
  lemma ReleaseReads(x: string, y: string, z: string)
    requires IsNumeric(x) && IsNumeric(y) && IsNumeric(z)
    ensures IsVersion(Main(x, y, z)) && Parse(Main(x, y, z)) == Version(Value(x), Value(y), Value(z), None)
  {
    MainSplits(x, y, z);
    PartitionAtHyphen(Main(x, y, z), "");
  }

  lemma {:induction false} DottedChars(parts: seq<string>)
    requires parts != [] && forall i :: 0 <= i < |parts| ==> IsIdentifier(parts[i])
    ensures forall i :: 0 <= i < |Dotted(parts)| ==> IsPrereleaseChar(Dotted(parts)[i])
  {
    if |parts| > 1 { DottedChars(parts[1..]); }
  }

  lemma DottedNotEmpty(parts: seq<string>)
    requires AreIdentifiers(parts)
    ensures Dotted(parts) != ""
  {
    if |parts| == 1 { assert parts == [parts[0]]; }
  }

  lemma IdentifiersDotless(parts: seq<string>)
    requires AreIdentifiers(parts)
    ensures forall i :: 0 <= i < |parts| ==> '.' !in parts[i]
  {
    forall i | 0 <= i < |parts| ensures '.' !in parts[i] { assert IsIdentifier(parts[i]); }
  }

  lemma PartsRead(s: string, main: string, pre: string, parts: seq<string>)
    requires Partition(s) == (main, Some(pre)) && |SplitOn(main, '.')| == 3
    requires forall i :: 0 <= i < 3 ==> IsNumeric(SplitOn(main, '.')[i])
    requires pre != "" && (forall i :: 0 <= i < |pre| ==> IsPrereleaseChar(pre[i])) && SplitOn(pre, '.') == parts
    ensures var m := SplitOn(main, '.');
            IsVersion(s) && Parse(s) == Version(Value(m[0]), Value(m[1]), Value(m[2]), Some(parts))
  {
  }

  /** A prerelease is read as its three numbers, in order, and its identifiers, in order. */
  lemma PrereleaseReads(x: string, y: string, z: string, parts: seq<string>)
    requires IsNumeric(x) && IsNumeric(y) && IsNumeric(z) && AreIdentifiers(parts)
    ensures var s := Main(x, y, z) + ("-" + Dotted(parts));
            IsVersion(s) && Parse(s) == Version(Value(x), Value(y), Value(z), Some(parts))
  {
    MainSplits(x, y, z);
    DottedChars(parts);
    DottedNotEmpty(parts);
    IdentifiersDotless(parts);
    DottedSplits(parts);
    var main, pre := Main(x, y, z), Dotted(parts);
    PartitionAtHyphen(main, pre);
    PartsRead(main + ("-" + pre), main, pre, parts);
  }

  lemma {:induction false} PartitionJoins(s: string)
    ensures var (main, pre) := Partition(s);
            '-' !in main && s == main + if pre.None? then "" else "-" + pre.value
  {
    if s != "" && s[0] != '-' {
      PartitionJoins(s[1..]);
      assert s == [s[0]] + s[1..];
    } else if s != "" {
      assert s == "" + ("-" + s[1..]);
    }
  }

  lemma {:induction false} DotsJoin(s: string)
    ensures Dotted(SplitOn(s, '.')) == s
  {
    if s != "" {
      var rest := SplitOn(s[1..], '.');
      DotsJoin(s[1..]);
      assert s == [s[0]] + s[1..];
      if s[0] == '.' {
        assert ([""] + rest)[1..] == rest && "" + ("." + s[1..]) == s;
      } else if |rest| > 1 {
        assert ([[s[0]] + rest[0]] + rest[1..])[1..] == rest[1..];
        assert [s[0]] + rest[0] + ("." + Dotted(rest[1..])) == [s[0]] + (rest[0] + ("." + Dotted(rest[1..])));
      }
    }
  }

  lemma DottedThree(parts: seq<string>)
    requires |parts| == 3
    ensures Dotted(parts) == Main(parts[0], parts[1], parts[2])
  {
    assert parts[1..][1..] == [parts[2]] && Dotted([parts[2]]) == parts[2];
    assert parts[1..][0] == parts[1];
  }

  /** And nothing else is accepted: three dotted numerals, alone or before a hyphen and allowed characters. */
  lemma AcceptedIsSpelled(s: string) returns (x: string, y: string, z: string, pre: Option<string>)
    requires IsVersion(s)
    ensures IsNumeric(x) && IsNumeric(y) && IsNumeric(z)
    ensures s == Main(x, y, z) + if pre.None? then "" else "-" + pre.value
    ensures pre.Some? ==> pre.value != "" && forall i :: 0 <= i < |pre.value| ==> IsPrereleaseChar(pre.value[i])
  {
    var main;
    main, pre := Partition(s).0, Partition(s).1;
    PartitionJoins(s);
    DotsJoin(main);
    var parts := SplitOn(main, '.');
    x, y, z := parts[0], parts[1], parts[2];
    DottedThree(parts);
  }

  // ---------------------------------------------------------------------------
  // Precedence, without parsing
  // ---------------------------------------------------------------------------

  /** A version by its numbers and, for a prerelease, its identifiers. */
  datatype Spelled = Spelled(major: nat, minor: nat, patch: nat, pre: Option<seq<string>>)

  predicate Spellable(v: Spelled) {
    v.pre.Some? ==> AreIdentifiers(v.pre.value)
  }

  function Spell(v: Spelled): string
    requires Spellable(v)
  {
    Main(Show(v.major), Show(v.minor), Show(v.patch)) + if v.pre.None? then "" else "-" + Dotted(v.pre.value)
  }

  lemma SpelledReads(v: Spelled)
    requires Spellable(v)
    ensures IsVersion(Spell(v)) && Parse(Spell(v)) == Version(v.major, v.minor, v.patch, v.pre)
  {
    ShowReads(v.major);
    ShowReads(v.minor);
    ShowReads(v.patch);
    var main := Main(Show(v.major), Show(v.minor), Show(v.patch));
    if v.pre.None? {
      ReleaseReads(Show(v.major), Show(v.minor), Show(v.patch));
      assert main + "" == main;
    } else {
      PrereleaseReads(Show(v.major), Show(v.minor), Show(v.patch), v.pre.value);
    }
  }

  /** The first number that differs is smaller. */
  predicate LowerMain(v: Spelled, w: Spelled) {
    if v.major != w.major then v.major < w.major
    else if v.minor != w.minor then v.minor < w.minor
    else v.patch < w.patch
  }

  predicate EqualMain(v: Spelled, w: Spelled) {
    v.major == w.major && v.minor == w.minor && v.patch == w.patch
  }

  /** Lower precedence: by the numbers, then prerelease below release, then by the identifiers. */
  ghost predicate Lower(v: Spelled, w: Spelled) {
    LowerMain(v, w)
    || (EqualMain(v, w) && v.pre.Some? && (w.pre.None? || PreLower(v.pre.value, w.pre.value)))
  }

  /** The first identifiers that differ spell one number. */
  predicate SpelledTwice(v: Spelled, w: Spelled) {
    EqualMain(v, w) && v.pre.Some? && w.pre.Some? && PaddingClash(v.pre.value, w.pre.value)
  }

  /** On texts: the comparison is precedence, both ways round, exactly when no number is spelled twice. */
  lemma SpelledPrecedenceIff(v: Spelled, w: Spelled)
    requires Spellable(v) && Spellable(w)
    ensures IsVersion(Spell(v)) && IsVersion(Spell(w))
    ensures (&& (Compare(Spell(v), Spell(w)) < 0 <==> Lower(v, w))
             && (Compare(Spell(w), Spell(v)) < 0 <==> Lower(w, v)))
       <==> !SpelledTwice(v, w)
  {
    SpelledReads(v);
    SpelledReads(w);
    CompareIsPrecedenceIff(Spell(v), Spell(w));
    assert LowerMain(v, w) <==> MainLess(Parse(Spell(v)), Parse(Spell(w)));
    assert LowerMain(w, v) <==> MainLess(Parse(Spell(w)), Parse(Spell(v)));
  }

  /** Releases are ordered by major, then minor, then patch number. */
  lemma ReleasesInOrder(v: Spelled, w: Spelled)
    requires v.pre.None? && w.pre.None?
    ensures Spellable(v) && Spellable(w) && IsVersion(Spell(v)) && IsVersion(Spell(w))
    ensures Compare(Spell(v), Spell(w)) < 0 <==> LowerMain(v, w)
    ensures Compare(Spell(v), Spell(w)) == 0 <==> v == w
    ensures Compare(Spell(v), Spell(w)) > 0 <==> LowerMain(w, v)
  {
    SpelledReads(v);
    SpelledReads(w);
    SpelledPrecedenceIff(v, w);
    CompareOppositeIff(Spell(v), Spell(w));
  }
}
