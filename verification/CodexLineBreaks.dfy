/** What stripping a Codex configuration does to line breaks, and when it keeps every character. */
module CodexLineBreaks {
  import opened Strings
  import opened CodexConfig

  /** Every break turned into a line feed, as splitting into lines and joining them does. */
  function Feeds(s: string): string
    decreases |s|
  {
    if s == "" then ""
    else if IsBreak(s[0]) then "\n" + Feeds(s[BreakLength(s)..])
    else [s[0]] + Feeds(s[1..])
  }

  predicate OnlyLineFeeds(s: string) {
    forall i :: 0 <= i < |s| && IsBreak(s[i]) ==> s[i] == '\n'
  }

  lemma {:induction false} FeedsShorter(s: string)
    ensures |Feeds(s)| <= |s|
    decreases |s|
  {
    if s != "" {
      if IsBreak(s[0]) { FeedsShorter(s[BreakLength(s)..]); } else { FeedsShorter(s[1..]); }
    }
  }

  /** That changes nothing exactly when there are only line feeds. */
  lemma {:induction false} FeedsIff(s: string)
    ensures Feeds(s) == s <==> OnlyLineFeeds(s)
    decreases |s|
  {
    if s != "" {
      assert s == [s[0]] + s[1..];
      if IsBreak(s[0]) && BreakLength(s) == 2 {
        FeedsShorter(s[2..]);
      } else {
        FeedsIff(s[1..]);
        assert Feeds(s)[1..] == Feeds(s[1..]);
      }
    }
  }

  lemma {:induction false} JoinFront(line: string, rest: seq<string>)
    ensures JoinLines([line] + rest) == line + if rest == [] then "" else "\n" + JoinLines(rest)
    decreases |rest|
  {
    var all := [line] + rest;
    if rest != [] {
      var n := |rest| - 1;
      JoinFront(line, rest[..n]);
      assert all[..|all| - 1] == [line] + rest[..n];
      if n == 0 { assert all[..1] == [line]; }
    }
  }

  lemma JoinWidened(c: char, first: string, rest: seq<string>)
    ensures JoinLines([[c] + first] + rest) == [c] + JoinLines([first] + rest)
  {
    JoinFront([c] + first, rest);
    JoinFront(first, rest);
    var tail := if rest == [] then "" else "\n" + JoinLines(rest);
    assert [c] + first + tail == [c] + (first + tail);
  }

  /** The line feed that joining lines does not put back. */
  function LastFeed(s: string): string {
    if s != "" && IsBreak(s[|s| - 1]) then "\n" else ""
  }

  lemma LastFeedTail(s: string, n: nat)
    requires n <= |s|
    ensures s[n..] != "" ==> LastFeed(s[n..]) == LastFeed(s)
  {
  }

  lemma EmptyLineJoined(lines: seq<string>)
    ensures JoinLines([""] + lines) == if lines == [] then "" else "\n" + JoinLines(lines)
  {
    JoinFront("", lines);
  }

  lemma SplitJoinBreak(s: string, rest: string)
    requires s != "" && IsBreak(s[0]) && rest == s[BreakLength(s)..]
    requires Feeds(rest) == JoinLines(SplitLines(rest)) + LastFeed(rest)
    ensures Feeds(s) == JoinLines(SplitLines(s)) + LastFeed(s)
  {
    EmptyLineJoined(SplitLines(rest));
    LastFeedTail(s, BreakLength(s));
    assert SplitLines(s) == [""] + SplitLines(rest) && Feeds(s) == "\n" + Feeds(rest);
    if rest != "" { SplitSome(rest); } else { assert IsBreak(s[|s| - 1]); }
  }

  lemma SplitJoinChar(c: char, rest: string)
    requires !IsBreak(c) && Feeds(rest) == JoinLines(SplitLines(rest)) + LastFeed(rest)
    ensures Feeds([c] + rest) == JoinLines(SplitLines([c] + rest)) + LastFeed([c] + rest)
  {
    SplitCons(c, rest);
    assert ([c] + rest)[1..] == rest;
    if rest == "" {
      assert JoinLines([[c]]) == [c];
    } else {
      SplitSome(rest);
      var lines := SplitLines(rest);
      JoinWidened(c, lines[0], lines[1..]);
      assert lines == [lines[0]] + lines[1..];
    }
  }

  /** Lines split and joined again: the breaks are line feeds, and one at the very end is gone. */
  lemma {:induction false} SplitJoin(s: string)
    ensures Feeds(s) == JoinLines(SplitLines(s)) + LastFeed(s)
    decreases |s|
  {
    if s != "" {
      if IsBreak(s[0]) {
        SplitJoin(s[BreakLength(s)..]);
        SplitJoinBreak(s, s[BreakLength(s)..]);
      } else {
        SplitJoin(s[1..]);
        SplitJoinChar(s[0], s[1..]);
        assert s == [s[0]] + s[1..];
      }
    }
  }

  lemma FeedsBreakFirst(x: string, y: string)
    requires x != "" && IsBreak(x[0]) && !IsBreak(x[|x| - 1])
    ensures Feeds(x + y) == "\n" + Feeds(x[BreakLength(x)..] + y)
  {
    assert |x| > 1 && BreakLength(x + y) == BreakLength(x);
    assert (x + y)[BreakLength(x)..] == x[BreakLength(x)..] + y;
  }

  lemma FeedsCharFirst(x: string, y: string)
    requires x != "" && !IsBreak(x[0])
    ensures Feeds(x + y) == [x[0]] + Feeds(x[1..] + y)
  {
    assert (x + y)[1..] == x[1..] + y;
  }

  lemma {:induction false} FeedsConcat(x: string, y: string)
    requires x != "" ==> !IsBreak(x[|x| - 1])
    ensures Feeds(x + y) == Feeds(x) + Feeds(y)
    decreases |x|
  {
    if x == "" {
      assert x + y == y;
    } else if IsBreak(x[0]) {
      FeedsBreakFirst(x, y);
      FeedsConcat(x[BreakLength(x)..], y);
    } else {
      FeedsConcat(x[1..], y);
      FeedsCharFirst(x, y);
      FeedsCharFirst(x, "");
      assert x + "" == x && x[1..] + "" == x[1..];
    }
  }

  lemma {:induction false} FeedsBlank(s: string)
    requires Blank(s)
    ensures Blank(Feeds(s))
    decreases |s|
  {
    if s != "" {
      if IsBreak(s[0]) { FeedsBlank(s[BreakLength(s)..]); } else { FeedsBlank(s[1..]); }
    }
  }

  lemma {:induction false} FeedsEdge(s: string)
    requires Edge(s)
    ensures Edge(Feeds(s))
    decreases |s|
  {
    if |s| > 1 {
      if IsBreak(s[0]) { FeedsEdge(s[BreakLength(s)..]); } else { FeedsEdge(s[1..]); }
    } else {
      assert s[1..] == "";
    }
  }

  lemma {:induction false} BlankTrims(s: string)
    requires Blank(s)
    ensures TrimEnd(s) == ""
  {
    if s != "" { BlankTrims(s[..|s| - 1]); }
  }

  lemma BlankThenSpace(s: string, n: nat)
    requires n < |s| && IsSpace(s[|s| - 1]) && Blank(s[..|s| - 1][n..])
    ensures Blank(s[n..])
  {
    forall i | 0 <= i < |s[n..]| ensures IsSpace(s[n..][i]) {
      if n + i < |s| - 1 { assert s[..|s| - 1][n..][i] == s[n..][i]; }
    }
  }

  lemma {:induction false} TrimmedOffIsBlank(s: string)
    ensures |TrimEnd(s)| <= |s| && Blank(s[|TrimEnd(s)|..]) && s == TrimEnd(s) + s[|TrimEnd(s)|..]
  {
    TrimEndSpec(s);
    if s != "" && IsSpace(s[|s| - 1]) {
      TrimmedOffIsBlank(s[..|s| - 1]);
      BlankThenSpace(s, |TrimEnd(s)|);
    }
  }

  lemma TrimFeeds(s: string)
    ensures TrimEnd(Feeds(s)) == Feeds(TrimEnd(s))
  {
    TrimmedOffIsBlank(s);
    var x, w := TrimEnd(s), s[|TrimEnd(s)|..];
    TrimEndSpec(s);
    if x != "" && IsBreak(x[|x| - 1]) { BreakIsSpace(x[|x| - 1]); }
    FeedsConcat(x, w);
    FeedsBlank(w);
    BlankTrims(Feeds(w));
    TrimEndConcat(Feeds(x), Feeds(w));
    if x != "" { FeedsEdge(x); }
  }

  /**
   * A text of other sections only keeps its characters, less trailing blanks, exactly when its breaks are line feeds.
   */
  lemma StripVerbatimIff(names: set<string>, text: string)
    requires names != {} && NoneOpens(names, SplitLines(text))
    ensures StripBlocks(names, text) == TrimEnd(text) <==> OnlyLineFeeds(TrimEnd(text))
  {
    if Trim(text) == "" {
      BlankTrimsAway(text);
    } else {
      var lines := SplitLines(text);
      KeptAfterOthers(names, lines, []);
      assert lines + [] == lines;
      SplitJoin(text);
      var joined := JoinLines(lines);
      TrimEndConcat(joined, LastFeed(text));
      assert TrimEnd("\n") == "" by { assert "\n"[..0] == ""; }
      assert TrimEnd("") == "" && joined + "" == joined;
      TrimFeeds(text);
      FeedsIff(TrimEnd(text));
    }
  }

  lemma {:induction false} JoinedBreaks(lines: seq<string>)
    requires forall i :: 0 <= i < |lines| ==> Unbroken(lines[i])
    ensures OnlyLineFeeds(JoinLines(lines))
  {
    if |lines| > 1 { JoinedBreaks(lines[..|lines| - 1]); }
  }

  /** Whatever the text, stripping it of named servers leaves no break but line feeds. */
  lemma StripLeavesLineFeeds(names: set<string>, text: string)
    requires names != {}
    ensures OnlyLineFeeds(StripBlocks(names, text))
  {
    if Trim(text) == "" {
      BlankTrimsAway(text);
    } else {
      var kept := Kept(names, SplitLines(text), false);
      KeptOpensNone(names, SplitLines(text), false);
      LinesUnbroken(text);
      forall i | 0 <= i < |kept| ensures Unbroken(kept[i]) { assert kept[i] in SplitLines(text); }
      JoinedBreaks(kept);
      TrimEndSpec(JoinLines(kept));
    }
  }
}
