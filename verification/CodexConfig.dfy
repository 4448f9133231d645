/** Refreshing the worker-local Codex configuration: declared MCP server blocks replaced, everything else kept. */
module CodexConfig {
  import opened Prelude
  import opened Strings

  // ---------------------------------------------------------------------------
  // Lines
  // ---------------------------------------------------------------------------

  function SplitLines(s: string): seq<string> {
    if s == "" then []
    else if IsBreak(s[0]) then [""] + SplitLines(s[BreakLength(s)..])
    else
      var rest := SplitLines(s[1..]);
      if rest == [] then [[s[0]]] else [[s[0]] + rest[0]] + rest[1..]
  }

  function JoinLines(lines: seq<string>): string {
    if lines == [] then ""
    else if |lines| == 1 then lines[0]
    else JoinLines(lines[..|lines| - 1]) + ("\n" + lines[|lines| - 1])
  }

  // ---------------------------------------------------------------------------
  // Sections and servers
  // ---------------------------------------------------------------------------

  /** The trimmed name of a section header line. */
  function Section(line: string): Option<string> {
    var t := Trim(line);
    if |t| >= 3 && t[0] == '[' && t[|t| - 1] == ']' && ']' !in t[1..|t| - 1] then Some(Trim(t[1..|t| - 1])) else None
  }

  const MCP := "mcp_servers."

  function UpToDot(s: string): string {
    if s == "" || s[0] == '.' then "" else [s[0]] + UpToDot(s[1..])
  }

  predicate IsQuote(c: char) {
    c == '"' || c == '\''
  }

  function Unquote(s: string): string {
    if s != "" && IsQuote(s[0]) then Unquote(s[1..])
    else if s != "" && IsQuote(s[|s| - 1]) then Unquote(s[..|s| - 1])
    else s
  }

  /** The section configures one of the named servers, directly or in a sub-table. */
  predicate Names(names: set<string>, section: string) {
    MCP <= section && Unquote(UpToDot(section[|MCP|..])) in names
  }

  /** The line opens a block of one of the named servers. */
  predicate Opens(names: set<string>, line: string) {
    Section(line).Some? && Names(names, Section(line).value)
  }

  /** The server a line of the appended text declares. */
  function Declares(line: string): Option<string> {
    var t := Trim(line);
    var head := "[" + MCP;
    if |t| > |head| + 1 && head <= t && t[|t| - 1] == ']' &&
       (forall i :: |head| <= i < |t| - 1 ==> t[i] != ']' && !IsSpace(t[i]))
    then Some(t[|head|..|t| - 1]) else None
  }

  /** `_codex_mcp_server_names`. */
  function DeclaredServers(text: string): set<string> {
    var lines := SplitOn(text, '\n');
    set i | 0 <= i < |lines| && Declares(lines[i]).Some? :: Declares(lines[i]).value
  }

  /** The lines outside the named servers' blocks. */
  function Kept(names: set<string>, lines: seq<string>, skipping: bool): seq<string> {
    if lines == [] then []
    else
      var skip := Skips(names, lines[0], skipping);
      (if skip then [] else [lines[0]]) + Kept(names, lines[1..], skip)
  }

  /** `_strip_codex_mcp_server_blocks`. */
  function StripBlocks(names: set<string>, text: string): string {
    if Trim(text) == "" || names == {} then TrimEnd(text)
    else TrimEnd(JoinLines(Kept(names, SplitLines(text), false)))
  }

  method StripServerBlocks(names: set<string>, text: string) returns (r: string)
    ensures r == StripBlocks(names, text)
  {
    if Trim(text) == "" || names == {} { return TrimEnd(text); }
    var lines := SplitLines(text);
    var output: seq<string>, skipping := [], false;
    assert lines[0..] == lines;
    for i := 0 to |lines|
      invariant Kept(names, lines, false) == output + Kept(names, lines[i..], skipping)
    {
      KeptStep(names, lines, i, skipping, output);
      var section := Section(lines[i]);
      if section.Some? { skipping := Names(names, section.value); }
      if !skipping { output := output + [lines[i]]; }
    }
    assert output + [] == output;
    return TrimEnd(JoinLines(output));
  }

  /** Whether lines are being skipped once this one has been looked at. */
  predicate Skips(names: set<string>, line: string, skipping: bool) {
    if Section(line).Some? then Opens(names, line) else skipping
  }

  lemma KeptStep(names: set<string>, lines: seq<string>, i: nat, skipping: bool, output: seq<string>)
    requires i < |lines|
    ensures var skip := Skips(names, lines[i], skipping);
            output + Kept(names, lines[i..], skipping) ==
              (if skip then output else output + [lines[i]]) + Kept(names, lines[i + 1..], skip)
  {
    assert lines[i..][0] == lines[i] && lines[i..][1..] == lines[i + 1..];
    var rest := Kept(names, lines[i + 1..], Skips(names, lines[i], skipping));
    assert output + ([] + rest) == output + rest;
    assert output + ([lines[i]] + rest) == output + [lines[i]] + rest;
  }

  /** The text part of `_write_codex_config`: what the file holds afterwards. */
  function Refresh(existing: string, addition: string): string {
    if Trim(addition) == "" then existing
    else
      var names := DeclaredServers(addition);
      var rest := if names != {} then StripBlocks(names, existing) else existing;
      TrimEnd(rest) + (if Trim(rest) != "" then "\n\n" else "") + Trim(addition) + "\n"
  }

  // ---------------------------------------------------------------------------
  // Lines of joined and concatenated texts
  // ---------------------------------------------------------------------------

  lemma SplitLineFeedFirst(y: string)
    ensures SplitLines("\n" + y) == [""] + SplitLines(y)
  {
    assert ("\n" + y)[1..] == y && BreakLength("\n" + y) == 1;
  }

  lemma SplitCons(c: char, rest: string)
    requires !IsBreak(c)
    ensures SplitLines([c] + rest) == var lines := SplitLines(rest); if lines == [] then [[c]]
      else [[c] + lines[0]] + lines[1..]
  {
    assert ([c] + rest)[1..] == rest;
  }

  lemma SplitOneThen(c: char, y: string)
    requires !IsBreak(c)
    ensures SplitLines([c] + ("\n" + y)) == SplitLines([c]) + SplitLines(y)
  {
    SplitCons(c, "\n" + y);
    SplitCons(c, "");
    SplitLineFeedFirst(y);
    assert [c] + "" == [c] && ([""] + SplitLines(y))[1..] == SplitLines(y);
  }

  lemma SplitConsThen(c: char, x: string, y: string)
    requires !IsBreak(c) && x != ""
    requires SplitLines(x + ("\n" + y)) == SplitLines(x) + SplitLines(y)
    ensures SplitLines([c] + (x + ("\n" + y))) == SplitLines([c] + x) + SplitLines(y)
  {
    SplitCons(c, x + ("\n" + y));
    SplitCons(c, x);
    SplitSome(x);
    Regroup(c, SplitLines(x), SplitLines(y));
  }

  lemma EmptyLineThen(x: string, y: string)
    requires x != "" && IsBreak(x[0])
    ensures SplitLines(x) + SplitLines(y) == [""] + (SplitLines(x[BreakLength(x)..]) + SplitLines(y))
  {
    Prepended("", SplitLines(x[BreakLength(x)..]), SplitLines(y));
  }

  lemma Prepended(line: string, rest: seq<string>, more: seq<string>)
    ensures [line] + rest + more == [line] + (rest + more)
  {
  }

  lemma FirstChar(x: string, z: string)
    requires x != ""
    ensures x == [x[0]] + x[1..] && x + z == [x[0]] + (x[1..] + z)
  {
  }

  /** A line feed after something that is not a break separates the lines of the two sides. */
  lemma {:induction false} SplitAtLineFeed(x: string, y: string)
    requires x != "" && !IsBreak(x[|x| - 1])
    ensures SplitLines(x + ("\n" + y)) == SplitLines(x) + SplitLines(y)
    decreases |x|
  {
    if IsBreak(x[0]) {
      SplitBreakFirst(x, "\n" + y);
      SplitAtLineFeed(x[BreakLength(x)..], y);
      EmptyLineThen(x, y);
    } else if |x| == 1 {
      SplitOneThen(x[0], y);
      assert x == [x[0]];
    } else {
      SplitAtLineFeed(x[1..], y);
      SplitConsThen(x[0], x[1..], y);
      FirstChar(x, "\n" + y);
    }
  }

  lemma Regroup(c: char, lines: seq<string>, more: seq<string>)
    requires lines != []
    ensures [[c] + (lines + more)[0]] + (lines + more)[1..] == [[c] + lines[0]] + lines[1..] + more
  {
  }

  lemma SplitBreakFirst(x: string, z: string)
    requires |x| >= 2 && IsBreak(x[0]) && !IsBreak(x[|x| - 1])
    ensures SplitLines(x + z) == [""] + SplitLines(x[BreakLength(x)..] + z)
    ensures x[BreakLength(x)..] != ""
  {
    assert BreakLength(x + z) == BreakLength(x);
    assert (x + z)[BreakLength(x)..] == x[BreakLength(x)..] + z;
  }

  lemma SplitSome(s: string)
    requires s != ""
    ensures SplitLines(s) != []
  {
  }

  lemma {:induction false} SplitUnbroken(line: string)
    requires line != "" && Unbroken(line)
    ensures SplitLines(line) == [line]
  {
    if |line| > 1 {
      SplitUnbroken(line[1..]);
      assert [line[0]] + line[1..] == line && [line[1..]][1..] == [];
    } else {
      assert line[1..] == "" && [line[0]] == line;
    }
  }

  lemma {:induction false} LinesUnbroken(s: string)
    ensures forall i :: 0 <= i < |SplitLines(s)| ==> Unbroken(SplitLines(s)[i])
    decreases |s|
  {
    if s != "" {
      if IsBreak(s[0]) { LinesUnbroken(s[BreakLength(s)..]); } else { LinesUnbroken(s[1..]); }
    }
  }

  /** Lines joined and split again are the same lines, as long as the last is not empty. */
  lemma {:induction false} JoinSplit(lines: seq<string>)
    requires forall i :: 0 <= i < |lines| ==> Unbroken(lines[i])
    requires lines != [] ==> lines[|lines| - 1] != ""
    ensures SplitLines(JoinLines(lines)) == lines
    decreases |lines|
  {
    if |lines| == 1 {
      SplitUnbroken(lines[0]);
    } else if lines != [] {
      SplitTail(lines[..|lines| - 1], lines[|lines| - 1]);
      SplitUnbroken(lines[|lines| - 1]);
      assert lines == lines[..|lines| - 1] + [lines[|lines| - 1]];
    }
  }

  lemma JoinThen(lines: seq<string>, y: string)
    requires |lines| > 1
    ensures var n := |lines| - 1; JoinLines(lines) + y == JoinLines(lines[..n]) + ("\n" + (lines[n] + y))
  {
  }

  lemma SplitTailStep(head: seq<string>, last: string, t: string, z: string, y: string)
    requires SplitLines(t) == head + SplitLines(z) && SplitLines(z) == [last] + SplitLines(y)
    ensures SplitLines(t) == head + [last] + SplitLines(y)
  {
  }

  /** Text after any joined lines starts on its own line. */
  lemma {:induction false} SplitTail(lines: seq<string>, y: string)
    requires lines != [] && y != ""
    requires forall i :: 0 <= i < |lines| ==> Unbroken(lines[i])
    ensures SplitLines(JoinLines(lines) + ("\n" + y)) == lines + SplitLines(y)
    decreases |lines|
  {
    var n := |lines| - 1;
    var head, last := lines[..n], lines[n];
    assert lines == head + [last];
    LineThen(last, y);
    if n > 0 {
      var t, z := JoinLines(lines) + ("\n" + y), last + ("\n" + y);
      JoinThen(lines, "\n" + y);
      SplitTail(head, z);
      SplitTailStep(head, last, t, z, y);
    }
  }

  lemma LineThen(line: string, y: string)
    requires Unbroken(line)
    ensures SplitLines(line + ("\n" + y)) == [line] + SplitLines(y)
  {
    if line == "" {
      assert line + ("\n" + y) == "\n" + y;
      SplitLineFeedFirst(y);
    } else {
      SplitAtLineFeed(line, y);
      SplitUnbroken(line);
    }
  }

  // ---------------------------------------------------------------------------
  // Trimming joined lines
  // ---------------------------------------------------------------------------

  lemma {:induction false} TrimEndConcat(x: string, y: string)
    ensures TrimEnd(x + y) == if TrimEnd(y) == "" then TrimEnd(x) else x + TrimEnd(y)
    decreases |y|
  {
    if y == "" {
      assert x + y == x;
    } else if IsSpace(y[|y| - 1]) {
      TrimEndConcat(x, y[..|y| - 1]);
      assert (x + y)[..|x + y| - 1] == x + y[..|y| - 1];
    }
  }

  /** Trailing blank lines dropped, and the last line trimmed. */
  function TrimTail(lines: seq<string>): (r: seq<string>)
    ensures r != [] ==> r[|r| - 1] != ""
  {
    if lines == [] then []
    else
      var n := |lines| - 1;
      if TrimEnd(lines[n]) == "" then TrimTail(lines[..n]) else lines[..n] + [TrimEnd(lines[n])]
  }

  lemma {:induction false} TrimEndJoined(lines: seq<string>)
    ensures TrimEnd(JoinLines(lines)) == JoinLines(TrimTail(lines))
    decreases |lines|
  {
    if lines != [] {
      var n := |lines| - 1;
      var head, last := lines[..n], lines[n];
      TrimEndJoined(head);
      if n == 0 {
        assert head == [] && [] + [TrimEnd(last)] == [TrimEnd(last)];
      } else {
        TrimEndConcat(JoinLines(head), "\n" + last);
        TrimEndConcat("\n", last);
        assert TrimEnd("\n") == "" by { assert "\n"[..0] == ""; }
        if TrimEnd(last) != "" {
          var out := head + [TrimEnd(last)];
          assert out[..n] == head;
        }
      }
    }
  }

  lemma TrimOfTrimEnd(line: string)
    ensures Trim(TrimEnd(line)) == Trim(line)
  {
    TrimEndSpec(line);
    TrimStartOfTrimEnd(line);
  }

  lemma {:induction false} TrimStartOfTrimEnd(s: string)
    ensures TrimEnd(TrimStart(TrimEnd(s))) == TrimEnd(TrimStart(s))
  {
    if s != "" && IsSpace(s[0]) {
      TrimStartOfTrimEnd(s[1..]);
      TrimEndConcat(s[..1], s[1..]);
      assert s == s[..1] + s[1..];
      if TrimEnd(s[1..]) == "" {
        assert TrimEnd(s[..1]) == "" by { assert s[..1][..0] == ""; }
      } else {
        assert (s[..1] + TrimEnd(s[1..]))[1..] == TrimEnd(s[1..]);
      }
    } else {
      TrimEndTwice(s);
      TrimEndSpec(s);
      if s != "" { TrimEndKeepsFront(s); }
    }
  }

  lemma TrimEndTwice(s: string)
    ensures TrimEnd(TrimEnd(s)) == TrimEnd(s)
  {
    TrimEndSpec(s);
  }

  lemma TrimEndKeepsFront(s: string)
    requires s != "" && !IsSpace(s[0])
    ensures TrimEnd(s) != "" && TrimEnd(s)[0] == s[0]
  {
  }

  // ---------------------------------------------------------------------------
  // Sections kept whole and in order
  // ---------------------------------------------------------------------------

  /** The lines grouped: what precedes the first header, then each header with the lines under it. */
  function Blocks(lines: seq<string>): (r: seq<seq<string>>)
    ensures r != []
  {
    if lines == [] then [[]]
    else
      var rest := Blocks(lines[1..]);
      if Section(lines[0]).Some? then [[], [lines[0]] + rest[0]] + rest[1..] else [[lines[0]] + rest[0]] + rest[1..]
  }

  predicate OpensBlock(names: set<string>, block: seq<string>) {
    block != [] && Opens(names, block[0])
  }

  function Flatten(blocks: seq<seq<string>>): seq<string> {
    if blocks == [] then [] else blocks[0] + Flatten(blocks[1..])
  }

  /** The blocks of other sections, whole and in order. */
  function Others(names: set<string>, blocks: seq<seq<string>>): seq<seq<string>> {
    if blocks == [] then []
    else (if OpensBlock(names, blocks[0]) then [] else [blocks[0]]) + Others(names, blocks[1..])
  }

  lemma FlattenFirst(block: seq<string>, blocks: seq<seq<string>>)
    ensures Flatten([block] + blocks) == block + Flatten(blocks)
  {
    assert ([block] + blocks)[1..] == blocks;
  }

  lemma OthersFirst(names: set<string>, block: seq<string>, blocks: seq<seq<string>>)
    ensures Flatten(Others(names, [block] + blocks)) ==
      (if OpensBlock(names, block) then [] else block) + Flatten(Others(names, blocks))
  {
    assert ([block] + blocks)[1..] == blocks;
    assert [] + Others(names, blocks) == Others(names, blocks);
    FlattenFirst(block, Others(names, blocks));
  }

  lemma HeaderOpens(names: set<string>, line: string, rest: seq<string>, skipping: bool)
    requires Section(line).Some?
    ensures OpensBlock(names, [line] + rest) == Skips(names, line, skipping)
  {
    assert ([line] + rest)[0] == line;
  }

  lemma Grouped(line: string, first: seq<string>, rest: seq<string>)
    ensures [line] + (first + rest) == [line] + first + rest
    ensures [] + rest == rest && [] + (first + rest) == first + rest
  {
  }

  /** A header line in front of lines already grouped. */
  lemma KeptHeader(names: set<string>, line: string, rest: seq<seq<string>>, skipping: bool, kept: seq<string>)
    requires Section(line).Some? && rest != []
    requires kept == (if Skips(names, line, skipping) then [] else rest[0]) + Flatten(Others(names, rest[1..]))
    ensures (if Skips(names, line, skipping) then [] else [line]) + kept ==
      Flatten(Others(names, [[line] + rest[0]] + rest[1..]))
  {
    OthersFirst(names, [line] + rest[0], rest[1..]);
    HeaderOpens(names, line, rest[0], skipping);
    Grouped(line, rest[0], Flatten(Others(names, rest[1..])));
  }

  lemma BlocksAtHeader(lines: seq<string>)
    requires lines != [] && Section(lines[0]).Some?
    ensures var rest := Blocks(lines[1..]);
            Blocks(lines)[0] == [] && Blocks(lines)[1..] == [[lines[0]] + rest[0]] + rest[1..]
  {
    var rest := Blocks(lines[1..]);
    assert Blocks(lines) == [[], [lines[0]] + rest[0]] + rest[1..];
  }

  lemma BlocksAtLine(lines: seq<string>)
    requires lines != [] && Section(lines[0]).None?
    ensures var rest := Blocks(lines[1..]); Blocks(lines)[0] == [lines[0]] + rest[0] && Blocks(lines)[1..] == rest[1..]
  {
  }

  /** Dropping line by line with a flag drops exactly the named servers' blocks. */
  lemma {:induction false} KeptIsOthers(names: set<string>, lines: seq<string>, skipping: bool)
    ensures var blocks := Blocks(lines);
            Kept(names, lines, skipping) == (if skipping then [] else blocks[0]) + Flatten(Others(names, blocks[1..]))
  {
    if lines != [] {
      var line, rest := lines[0], Blocks(lines[1..]);
      var skip := Skips(names, line, skipping);
      KeptIsOthers(names, lines[1..], skip);
      if Section(line).None? {
        BlocksAtLine(lines);
      } else {
        BlocksAtHeader(lines);
        KeptHeader(names, line, rest, skipping, Kept(names, lines[1..], skip));
      }
      Grouped(line, rest[0], Flatten(Others(names, rest[1..])));
    }
  }

  // ---------------------------------------------------------------------------
  // Refreshing twice
  // ---------------------------------------------------------------------------

  /** The appended text is nothing but blocks of servers it declares, spelled without quotes. */
  predicate OnlyDeclaredBlocks(addition: string) {
    var lines, names := SplitLines(Trim(addition)), DeclaredServers(addition);
    && lines != [] && Opens(names, lines[0])
    && forall i :: 0 <= i < |lines| && Section(lines[i]).Some? ==> Opens(names, lines[i])
  }

  predicate NoneOpens(names: set<string>, lines: seq<string>) {
    forall i :: 0 <= i < |lines| ==> !Opens(names, lines[i])
  }

  lemma {:induction false} KeptOpensNone(names: set<string>, lines: seq<string>, skipping: bool)
    ensures NoneOpens(names, Kept(names, lines, skipping))
    ensures forall l :: l in Kept(names, lines, skipping) ==> l in lines
  {
    if lines != [] { KeptOpensNone(names, lines[1..], Skips(names, lines[0], skipping)); }
  }

  /** Lines that open no named block are all kept, and what follows them is treated as if it came first. */
  lemma {:induction false} KeptAfterOthers(names: set<string>, lines: seq<string>, more: seq<string>)
    requires NoneOpens(names, lines)
    ensures Kept(names, lines + more, false) == lines + Kept(names, more, false)
  {
    if lines == [] {
      assert lines + more == more;
    } else {
      KeptAfterOthers(names, lines[1..], more);
      assert (lines + more)[1..] == lines[1..] + more;
      assert !Skips(names, lines[0], false);
      assert [lines[0]] + (lines[1..] + Kept(names, more, false)) == lines + Kept(names, more, false);
    }
  }

  /** Lines all of whose headers open named blocks are dropped to the last while skipping. */
  lemma {:induction false} KeptDropsAll(names: set<string>, lines: seq<string>)
    requires forall i :: 0 <= i < |lines| && Section(lines[i]).Some? ==> Opens(names, lines[i])
    ensures Kept(names, lines, true) == []
    ensures lines != [] && Opens(names, lines[0]) ==> Kept(names, lines, false) == []
  {
    if lines != [] { KeptDropsAll(names, lines[1..]); }
  }

  lemma {:induction false} TrimTailOpensNone(names: set<string>, lines: seq<string>)
    requires NoneOpens(names, lines) && forall i :: 0 <= i < |lines| ==> Unbroken(lines[i])
    ensures NoneOpens(names, TrimTail(lines)) && forall i :: 0 <= i < |TrimTail(lines)| ==> Unbroken(TrimTail(lines)[i])
  {
    if lines != [] {
      var n := |lines| - 1;
      if TrimEnd(lines[n]) == "" {
        TrimTailOpensNone(names, lines[..n]);
      } else {
        TrimOfTrimEnd(lines[n]);
        TrimEndSpec(lines[n]);
        assert Section(TrimEnd(lines[n])) == Section(lines[n]);
      }
    }
  }

  /** What stripping leaves, line by line: no line opens a named block, and the last is not blank. */
  lemma StrippedLines(names: set<string>, text: string) returns (lines: seq<string>)
    requires names != {} && Trim(text) != ""
    ensures lines == TrimTail(Kept(names, SplitLines(text), false))
    ensures StripBlocks(names, text) == JoinLines(lines)
    ensures SplitLines(JoinLines(lines)) == lines && NoneOpens(names, lines)
  {
    var kept := Kept(names, SplitLines(text), false);
    KeptOpensNone(names, SplitLines(text), false);
    LinesUnbroken(text);
    forall i | 0 <= i < |kept| ensures Unbroken(kept[i]) { assert kept[i] in SplitLines(text); }
    TrimTailOpensNone(names, kept);
    TrimEndJoined(kept);
    lines := TrimTail(kept);
    JoinSplit(lines);
  }

  /** A refreshed file: what was kept, a blank line unless nothing was, and the addition. */
  function Assembled(kept: seq<string>, addition: string): string {
    (if kept == [] then "" else JoinLines(kept) + "\n\n") + addition + "\n"
  }

  /** The lines a refresh puts in front of the appended ones. */
  function Front(kept: seq<string>): seq<string> {
    if kept == [] then [] else kept + [""]
  }

  /** Lines that survive being joined and split, and end visibly. */
  predicate Joinable(kept: seq<string>) {
    SplitLines(JoinLines(kept)) == kept && (kept != [] ==> Edge(JoinLines(kept)))
  }

  lemma JoinedThen(e: string, addition: string)
    requires Edge(e)
    ensures SplitLines(e + "\n\n" + addition + "\n") == SplitLines(e) + ([""] + SplitLines(addition + ("\n" + "")))
  {
    var z := addition + ("\n" + "");
    assert e + "\n\n" + addition + "\n" == e + ("\n" + ("\n" + z));
    SplitAtLineFeed(e, "\n" + z);
    SplitLineFeedFirst(z);
  }

  lemma RefreshedLines(kept: seq<string>, addition: string)
    requires Joinable(kept) && Edge(addition)
    ensures SplitLines(Assembled(kept, addition)) == Front(kept) + SplitLines(addition)
  {
    AdditionLines(addition);
    if kept == [] {
      assert "" + addition + "\n" == addition + ("\n" + "");
      assert [] + SplitLines(addition) == SplitLines(addition);
    } else {
      JoinedThen(JoinLines(kept), addition);
      assert kept + ([""] + SplitLines(addition)) == kept + [""] + SplitLines(addition);
    }
  }

  /** A text whose last character is not white space. */
  predicate Edge(s: string) {
    s != "" && !IsSpace(s[|s| - 1])
  }

  lemma AdditionLines(addition: string)
    requires Edge(addition)
    ensures SplitLines(addition + ("\n" + "")) == SplitLines(addition)
  {
    if IsBreak(addition[|addition| - 1]) { BreakIsSpace(addition[|addition| - 1]); }
    SplitAtLineFeed(addition, "");
    assert SplitLines(addition) + [] == SplitLines(addition);
  }

  lemma BlankOpensNothing(names: set<string>)
    ensures !Opens(names, "")
  {
    assert TrimStart("") == "" && TrimEnd("") == "";
  }

  /** A text with a visible character does not trim to nothing. */
  lemma NotBlank(s: string, i: nat)
    requires i < |s| && !IsSpace(s[i])
    ensures Trim(s) != ""
  {
    StartKeeps(s, i);
    TrimStartSpec(s);
    var front := TrimStart(s);
    EndKeeps(front, i - (|s| - |front|));
  }

  lemma {:induction false} StartKeeps(s: string, i: nat)
    requires i < |s| && !IsSpace(s[i])
    ensures |s| - |TrimStart(s)| <= i
  {
    if IsSpace(s[0]) { StartKeeps(s[1..], i - 1); }
  }

  lemma {:induction false} EndKeeps(s: string, i: nat)
    requires i < |s| && !IsSpace(s[i])
    ensures TrimEnd(s) != ""
  {
    if IsSpace(s[|s| - 1]) { EndKeeps(s[..|s| - 1], i); }
  }

  lemma BlankTrimsAway(s: string)
    requires Trim(s) == ""
    ensures TrimEnd(s) == "" && forall i :: 0 <= i < |s| ==> IsSpace(s[i])
  {
    forall i | 0 <= i < |s| ensures IsSpace(s[i]) {
      if !IsSpace(s[i]) { NotBlank(s, i); }
    }
    TrimEndSpec(s);
  }

  predicate Blank(s: string) {
    forall i :: 0 <= i < |s| ==> IsSpace(s[i])
  }

  lemma {:induction false} BlankLines(s: string)
    requires Blank(s)
    ensures forall i :: 0 <= i < |SplitLines(s)| ==> Blank(SplitLines(s)[i])
    decreases |s|
  {
    if s != "" {
      if IsBreak(s[0]) { BlankLines(s[BreakLength(s)..]); } else { BlankLines(s[1..]); }
    }
  }

  lemma {:induction false} BlankTail(lines: seq<string>)
    requires forall i :: 0 <= i < |lines| ==> Blank(lines[i])
    ensures TrimTail(lines) == []
    decreases |lines|
  {
    if lines != [] {
      TrimEndSpec(lines[|lines| - 1]);
      BlankTail(lines[..|lines| - 1]);
    }
  }

  /** What a refresh keeps of a file: the lines outside the declared servers' blocks, less trailing blanks. */
  function Remaining(existing: string, addition: string): seq<string> {
    TrimTail(Kept(DeclaredServers(addition), SplitLines(existing), false))
  }

  lemma RemainingLines(existing: string, addition: string)
    requires DeclaredServers(addition) != {}
    ensures var kept := Remaining(existing, addition);
            && StripBlocks(DeclaredServers(addition), existing) == JoinLines(kept)
            && Joinable(kept) && NoneOpens(DeclaredServers(addition), kept)
            && TrimEnd(JoinLines(kept)) == JoinLines(kept)
            && (Trim(JoinLines(kept)) == "" <==> kept == [])
  {
    var names, kept := DeclaredServers(addition), Remaining(existing, addition);
    if Trim(existing) == "" {
      BlankTrimsAway(existing);
      BlankLines(existing);
      KeptOpensNone(names, SplitLines(existing), false);
      var lines := Kept(names, SplitLines(existing), false);
      forall i | 0 <= i < |lines| ensures Blank(lines[i]) { assert lines[i] in SplitLines(existing); }
      BlankTail(lines);
    } else {
      var lines := StrippedLines(names, existing);
      TrimEndSpec(JoinLines(Kept(names, SplitLines(existing), false)));
      TrimEndJoined(Kept(names, SplitLines(existing), false));
    }
    if kept != [] { NotBlank(JoinLines(kept), |JoinLines(kept)| - 1); }
  }

  /** The refreshed text in terms of what remains of the old one. */
  lemma RefreshIs(existing: string, addition: string)
    requires Trim(addition) != "" && DeclaredServers(addition) != {}
    ensures Refresh(existing, addition) == Assembled(Remaining(existing, addition), Trim(addition))
  {
    RemainingLines(existing, addition);
    assert TrimEnd("") == "";
  }

  lemma RefreshedOnce(existing: string, addition: string)
    requires Trim(addition) != "" && DeclaredServers(addition) != {}
    ensures SplitLines(Refresh(existing, addition)) == Front(Remaining(existing, addition)) + SplitLines(Trim(addition))
  {
    var kept := Remaining(existing, addition);
    RemainingLines(existing, addition);
    TrimmedEdge(addition);
    RefreshedLines(kept, Trim(addition));
    RefreshIs(existing, addition);
  }

  lemma TrimmedEdge(s: string)
    ensures Trim(s) != "" ==> Edge(Trim(s))
  {
    TrimEndSpec(TrimStart(s));
  }

  /** What remains is what precedes the first section and all sections but those of the declared servers. */
  lemma RemainingIsOthers(existing: string, addition: string)
    ensures var blocks := Blocks(SplitLines(existing));
            Remaining(existing, addition) ==
              TrimTail(blocks[0] + Flatten(Others(DeclaredServers(addition), blocks[1..])))
  {
    KeptIsOthers(DeclaredServers(addition), SplitLines(existing), false);
  }

  /**
   * The refreshed file, line by line: everything before the first section and every section of another server or
   * of another kind, whole and in order; a blank line; and the appended text. Only trailing blanks are lost.
   */
  lemma RefreshKeepsOtherSections(existing: string, addition: string)
    requires Trim(addition) != "" && DeclaredServers(addition) != {}
    ensures var blocks := Blocks(SplitLines(existing));
            var kept := TrimTail(blocks[0] + Flatten(Others(DeclaredServers(addition), blocks[1..])));
            SplitLines(Refresh(existing, addition)) == Front(kept) + SplitLines(Trim(addition))
  {
    RefreshedOnce(existing, addition);
    RemainingIsOthers(existing, addition);
  }

  lemma {:induction false} TrimTailConcat(x: seq<string>, y: seq<string>)
    ensures TrimTail(x + y) == if TrimTail(y) == [] then TrimTail(x) else x + TrimTail(y)
    decreases |y|
  {
    if y == [] {
      assert x + y == x;
    } else {
      var n := |y| - 1;
      assert (x + y)[..|x + y| - 1] == x + y[..n];
      if TrimEnd(y[n]) == "" {
        TrimTailConcat(x, y[..n]);
      } else {
        assert x + (y[..n] + [TrimEnd(y[n])]) == x + y[..n] + [TrimEnd(y[n])];
      }
    }
  }

  lemma {:induction false} TrimTailTwice(lines: seq<string>)
    ensures TrimTail(TrimTail(lines)) == TrimTail(lines)
  {
    if lines != [] {
      var n := |lines| - 1;
      if TrimEnd(lines[n]) == "" { TrimTailTwice(lines[..n]); } else { TrimEndTwice(lines[n]); }
    }
  }

  lemma FrontTrims(lines: seq<string>, kept: seq<string>)
    requires kept == TrimTail(lines)
    ensures TrimTail(Front(kept)) == kept
  {
    TrimTailTwice(lines);
    if kept != [] { assert Front(kept)[..|Front(kept)| - 1] == kept; }
    assert TrimEnd("") == "";
  }

  /**
   * What remains after a second refresh: the same as after the first, and whatever the appended text keeps of itself.
   */
  lemma RemainingAgain(existing: string, addition: string)
    requires Trim(addition) != "" && DeclaredServers(addition) != {}
    ensures var own := TrimTail(Kept(DeclaredServers(addition), SplitLines(Trim(addition)), false));
            var kept := Remaining(existing, addition);
            Remaining(Refresh(existing, addition), addition) == if own == [] then kept else Front(kept) + own
  {
    var names, kept, lines := DeclaredServers(addition), Remaining(existing, addition), SplitLines(Trim(addition));
    RemainingLines(existing, addition);
    RefreshIs(existing, addition);
    TrimEndSpec(TrimStart(addition));
    RefreshedLines(kept, Trim(addition));
    BlankOpensNothing(names);
    KeptAfterOthers(names, Front(kept), lines);
    TrimTailConcat(Front(kept), Kept(names, lines, false));
    FrontTrims(Kept(names, SplitLines(existing), false), kept);
  }

  /** A text that declares no server is appended once more by every refresh. */
  lemma UndeclaredGrows(existing: string, addition: string)
    requires Trim(addition) != "" && DeclaredServers(addition) == {}
    ensures |Refresh(Refresh(existing, addition), addition)| > |Refresh(existing, addition)|
  {
    var once := Refresh(existing, addition);
    TrimEndSpec(TrimStart(addition));
    LastLineFeed(TrimEnd(existing) + (if Trim(existing) != "" then "\n\n" else ""), Trim(addition));
    NotBlank(once, |once| - 2);
  }

  lemma LastLineFeed(front: string, text: string)
    requires Edge(text)
    ensures TrimEnd(front + text + "\n") == front + text
  {
    var t := front + text + "\n";
    assert t[..|t| - 1] == front + text;
    assert TrimEnd(front + text) == front + text;
  }

  /** What the appended text keeps of itself when stripped of the servers it declares. */
  function OwnLines(addition: string): seq<string> {
    TrimTail(Kept(DeclaredServers(addition), SplitLines(Trim(addition)), false))
  }

  lemma StripOwn(addition: string)
    requires Trim(addition) != "" && DeclaredServers(addition) != {}
    ensures StripBlocks(DeclaredServers(addition), Trim(addition)) == "" <==> OwnLines(addition) == []
  {
    TrimEndJoined(Kept(DeclaredServers(addition), SplitLines(Trim(addition)), false));
    TrimTwice(addition);
    assert StripBlocks(DeclaredServers(addition), Trim(addition)) == JoinLines(OwnLines(addition));
  }

  lemma RefreshTwiceDeclared(existing: string, addition: string)
    requires Trim(addition) != "" && DeclaredServers(addition) != {}
    ensures Refresh(Refresh(existing, addition), addition) == Refresh(existing, addition) <==> OwnLines(addition) == []
  {
    var once := Refresh(existing, addition);
    var kept, again := Remaining(existing, addition), Remaining(once, addition);
    RemainingAgain(existing, addition);
    RefreshIs(existing, addition);
    RefreshIs(once, addition);
    RefreshedOnce(existing, addition);
    RefreshedOnce(once, addition);
    if Refresh(once, addition) == once {
      assert |Front(kept)| == |Front(again)|;
    }
  }

  /**
   * Refreshing with the same text again changes nothing exactly when that text, stripped of the servers it declares,
   * leaves nothing.
   */
  lemma RefreshTwiceIff(existing: string, addition: string)
    ensures Refresh(Refresh(existing, addition), addition) == Refresh(existing, addition)
       <==> StripBlocks(DeclaredServers(addition), Trim(addition)) == ""
  {
    if Trim(addition) == "" {
      assert TrimEnd("") == "";
    } else if DeclaredServers(addition) == {} {
      UndeclaredGrows(existing, addition);
      TrimEndTwice(TrimStart(addition));
    } else {
      StripOwn(addition);
      RefreshTwiceDeclared(existing, addition);
    }
  }

  /** So it holds for a text made only of blocks of unquoted servers. */
  lemma RefreshTwice(existing: string, addition: string)
    requires OnlyDeclaredBlocks(addition)
    ensures Refresh(Refresh(existing, addition), addition) == Refresh(existing, addition)
  {
    assert DeclaredServers(addition) != {} && Trim(addition) != "";
    KeptDropsAll(DeclaredServers(addition), SplitLines(Trim(addition)));
    assert OwnLines(addition) == [];
    RefreshTwiceDeclared(existing, addition);
  }
}
