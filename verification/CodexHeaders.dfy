/** Which lines open or declare a server's block, as the lines are spelled. */
module CodexHeaders {
  import opened Prelude
  import opened Strings
  import opened CodexConfig

  // ---------------------------------------------------------------------------
  // Trimming
  // ---------------------------------------------------------------------------

  predicate Blank(s: string) {
    forall i :: 0 <= i < |s| ==> IsSpace(s[i])
  }

  lemma {:induction false} FrontTrimmed(a: string, x: string)
    requires Blank(a)
    ensures TrimStart(a + x) == TrimStart(x)
  {
    if a == "" {
      assert a + x == x;
    } else {
      FrontTrimmed(a[1..], x);
      assert (a + x)[1..] == a[1..] + x;
    }
  }

  lemma {:induction false} BackTrimmed(x: string, b: string)
    requires Blank(b)
    ensures TrimEnd(x + b) == TrimEnd(x)
  {
    if b == "" {
      assert x + b == x;
    } else {
      var n := |b| - 1;
      BackTrimmed(x, b[..n]);
      assert (x + b)[..|x + b| - 1] == x + b[..n];
    }
  }

  lemma {:induction false} FrontRemoved(s: string) returns (a: string)
    ensures Blank(a) && s == a + TrimStart(s)
  {
    if s != "" && IsSpace(s[0]) {
      a := FrontRemoved(s[1..]);
      a := [s[0]] + a;
      assert s == [s[0]] + s[1..];
    } else {
      a := "";
    }
  }

  lemma {:induction false} BackRemoved(s: string) returns (b: string)
    ensures Blank(b) && s == TrimEnd(s) + b
  {
    if s != "" && IsSpace(s[|s| - 1]) {
      b := BackRemoved(s[..|s| - 1]);
      b := b + [s[|s| - 1]];
      assert s == s[..|s| - 1] + [s[|s| - 1]];
    } else {
      b := "";
    }
  }

  /** The text with white space around it. */
  predicate Padded(line: string, a: string, t: string, b: string) {
    line == a + (t + b) && Blank(a) && Blank(b)
  }

  lemma Unpadded(line: string) returns (a: string, b: string)
    ensures Padded(line, a, Trim(line), b)
  {
    a := FrontRemoved(line);
    b := BackRemoved(TrimStart(line));
  }

  lemma PaddedTrims(line: string, a: string, t: string, b: string)
    requires Padded(line, a, t, b) && Edged(t)
    ensures Trim(line) == t
  {
    FrontTrimmed(a, t + b);
    assert (t + b)[0] == t[0];
    BackTrimmed(t, b);
  }

  // ---------------------------------------------------------------------------
  // Header lines
  // ---------------------------------------------------------------------------

  /** The line is a bracketed name: nothing but white space around it, and no other closing bracket. */
  predicate Brackets(line: string, a: string, name: string, b: string) {
    Padded(line, a, "[" + (name + "]"), b) && name != "" && ']' !in name
  }

  lemma BracketedEdges(name: string)
    ensures Edged("[" + (name + "]"))
    ensures var t := "[" + (name + "]"); |t| == |name| + 2 && t[1..|t| - 1] == name && t[0] == '[' && t[|t| - 1] == ']'
  {
  }

  lemma BracketsSection(line: string, a: string, name: string, b: string)
    requires Brackets(line, a, name, b)
    ensures Section(line) == Some(Trim(name))
  {
    BracketedEdges(name);
    PaddedTrims(line, a, "[" + (name + "]"), b);
  }

  lemma SectionBrackets(line: string) returns (a: string, name: string, b: string)
    requires Section(line).Some?
    ensures Brackets(line, a, name, b) && Section(line).value == Trim(name)
  {
    a, b := Unpadded(line);
    var t := Trim(line);
    name := t[1..|t| - 1];
    assert t == "[" + (name + "]");
  }

  // ---------------------------------------------------------------------------
  // Server names
  // ---------------------------------------------------------------------------

  predicate AllQuotes(s: string) {
    forall i :: 0 <= i < |s| ==> s[i] in "\"'"
  }

  /** A name in any quotes, up to the first dot. */
  predicate Spells(s: string, p: string, server: string, q: string, rest: string) {
    && s == p + server + q + rest && AllQuotes(p) && AllQuotes(q)
    && (server != "" ==> server[0] !in "\"'" && server[|server| - 1] !in "\"'")
    && '.' !in server && (rest != "" ==> rest[0] == '.')
  }

  lemma QuoteIff(c: char)
    ensures IsQuote(c) <==> c in "\"'"
  {
    assert "\"'"[0] == '"' && "\"'"[1] == '\'';
  }

  lemma {:induction false} FrontUnquoted(p: string, x: string)
    requires AllQuotes(p)
    ensures Unquote(p + x) == Unquote(x)
  {
    if p == "" {
      assert p + x == x;
    } else {
      QuoteIff(p[0]);
      FrontUnquoted(p[1..], x);
      assert (p + x)[1..] == p[1..] + x;
    }
  }

  lemma {:induction false} BackUnquoted(x: string, q: string)
    requires AllQuotes(q) && (x != "" ==> !IsQuote(x[0]) && !IsQuote(x[|x| - 1]))
    ensures Unquote(x + q) == x
  {
    if q == "" {
      assert x + q == x;
    } else {
      var n := |q| - 1;
      QuoteIff(q[0]);
      QuoteIff(q[n]);
      if x == "" {
        BackUnquoted(x, q[1..]);
        assert (x + q)[1..] == x + q[1..];
      } else {
        BackUnquoted(x, q[..n]);
        assert (x + q)[..|x + q| - 1] == x + q[..n];
      }
    }
  }

  lemma {:induction false} UnquotedEdges(s: string)
    ensures var u := Unquote(s); u != "" ==> u[0] !in "\"'" && u[|u| - 1] !in "\"'"
    decreases |s|
  {
    if s != "" {
      QuoteIff(s[0]);
      QuoteIff(s[|s| - 1]);
      if IsQuote(s[0]) { UnquotedEdges(s[1..]); } else if IsQuote(s[|s| - 1]) { UnquotedEdges(s[..|s| - 1]); }
    }
  }

  lemma QuoteInFront(c: char, p: string, rest: string)
    requires IsQuote(c) && AllQuotes(p)
    ensures AllQuotes([c] + p) && [c] + (p + rest) == ([c] + p) + rest
  {
    QuoteIff(c);
  }

  lemma QuoteBehind(front: string, q: string, c: char)
    requires IsQuote(c) && AllQuotes(q)
    ensures AllQuotes(q + [c]) && (front + q) + [c] == front + (q + [c])
  {
    QuoteIff(c);
  }

  lemma {:induction false} QuotesRemoved(s: string) returns (p: string, q: string)
    ensures s == p + (Unquote(s) + q) && AllQuotes(p) && AllQuotes(q)
    decreases |s|
  {
    if s != "" && IsQuote(s[0]) {
      var p1;
      p1, q := QuotesRemoved(s[1..]);
      QuoteInFront(s[0], p1, Unquote(s) + q);
      assert s == [s[0]] + s[1..];
      p := [s[0]] + p1;
    } else if s != "" && IsQuote(s[|s| - 1]) {
      var q1;
      p, q1 := QuotesRemoved(s[..|s| - 1]);
      QuoteBehind(Unquote(s), q1, s[|s| - 1]);
      assert s == s[..|s| - 1] + [s[|s| - 1]];
      q := q1 + [s[|s| - 1]];
      assert s == p + (Unquote(s) + q);
    } else {
      p, q := "", "";
    }
  }

  lemma {:induction false} DotFound(s: string)
    ensures UpToDot(s) <= s && '.' !in UpToDot(s)
    ensures |UpToDot(s)| < |s| ==> s[|UpToDot(s)|] == '.'
  {
    if s != "" && s[0] != '.' { DotFound(s[1..]); }
  }

  lemma {:induction false} UpToDotIs(f: string, rest: string)
    requires '.' !in f && (rest != "" ==> rest[0] == '.')
    ensures UpToDot(f + rest) == f
  {
    if f == "" {
      assert f + rest == rest;
    } else {
      UpToDotIs(f[1..], rest);
      assert (f + rest)[1..] == f[1..] + rest;
    }
  }

  lemma QuotesDotless(p: string)
    requires AllQuotes(p)
    ensures '.' !in p
  {
  }

  lemma SpellsReads(s: string, p: string, server: string, q: string, rest: string)
    requires Spells(s, p, server, q, rest)
    ensures Unquote(UpToDot(s)) == server
  {
    var first := p + server + q;
    QuotesDotless(p);
    QuotesDotless(q);
    UpToDotIs(first, rest);
    if server != "" {
      QuoteIff(server[0]);
      QuoteIff(server[|server| - 1]);
    }
    assert first == p + (server + q);
    FrontUnquoted(p, server + q);
    BackUnquoted(server, q);
  }

  lemma ReadsSpell(s: string) returns (p: string, q: string, rest: string)
    ensures Spells(s, p, Unquote(UpToDot(s)), q, rest)
  {
    var first := UpToDot(s);
    DotFound(s);
    rest := s[|first|..];
    p, q := QuotesRemoved(first);
    UnquotedEdges(first);
    var server := Unquote(first);
    assert s == first + rest && first == p + server + q;
    assert forall i :: 0 <= i < |server| ==> server[i] == first[|p| + i];
  }

  // ---------------------------------------------------------------------------
  // Lines that open a server's block
  // ---------------------------------------------------------------------------

  /** The section is the server's table, or one below it. */
  ghost predicate IsTableOf(section: string, server: string) {
    exists p, q, rest :: TableSpelled(section, p, server, q, rest)
  }

  predicate TableSpelled(section: string, p: string, server: string, q: string, rest: string) {
    |section| >= 12 && section[..12] == "mcp_servers." && Spells(section[12..], p, server, q, rest)
  }

  /** A header line of the server's table, or of one below it. */
  ghost predicate Heads(line: string, server: string) {
    exists a, name, b :: Brackets(line, a, name, b) && IsTableOf(Trim(name), server)
  }

  lemma NamesIff(names: set<string>, section: string)
    ensures Names(names, section) <==> exists server :: server in names && IsTableOf(section, server)
  {
    if Names(names, section) {
      var p, q, rest := ReadsSpell(section[|MCP|..]);
      var server := Unquote(UpToDot(section[|MCP|..]));
      assert TableSpelled(section, p, server, q, rest);
      assert IsTableOf(section, server);
    }
    if exists server :: server in names && IsTableOf(section, server) {
      var server :| server in names && IsTableOf(section, server);
      var p, q, rest :| TableSpelled(section, p, server, q, rest);
      SpellsReads(section[12..], p, server, q, rest);
      assert |MCP| == 12 && MCP <= section;
    }
  }

  /** A line opens a block of the named servers exactly when it is a header line of one of them. */
  lemma OpensIff(names: set<string>, line: string)
    ensures Opens(names, line) <==> exists server :: server in names && Heads(line, server)
  {
    if Opens(names, line) {
      var a, name, b := SectionBrackets(line);
      NamesIff(names, Trim(name));
      var server :| server in names && IsTableOf(Trim(name), server);
      assert Heads(line, server);
    }
    if exists server :: server in names && Heads(line, server) {
      var server :| server in names && Heads(line, server);
      var a, name, b :| Brackets(line, a, name, b) && IsTableOf(Trim(name), server);
      BracketsSection(line, a, name, b);
      NamesIff(names, Trim(name));
    }
  }

  // ---------------------------------------------------------------------------
  // Lines that declare a server
  // ---------------------------------------------------------------------------

  /** The bare header of one server, with nothing but white space around it. */
  predicate DeclaresAs(line: string, a: string, server: string, b: string) {
    && Padded(line, a, "[mcp_servers." + (server + "]"), b)
    && server != "" && forall i :: 0 <= i < |server| ==> server[i] != ']' && !IsSpace(server[i])
  }

  /** A line declares a server exactly when it is that server's bare header. */
  lemma DeclaresIff(line: string, server: string)
    ensures Declares(line) == Some(server) <==> exists a, b :: DeclaresAs(line, a, server, b)
  {
    var t := Trim(line);
    var head := "[" + MCP;
    assert |head| == 13 && head == "[mcp_servers.";
    if Declares(line) == Some(server) {
      var a, b := Unpadded(line);
      assert t == "[mcp_servers." + (server + "]") by {
        assert t == t[..13] + (t[13..|t| - 1] + [t[|t| - 1]]);
      }
      forall i | 0 <= i < |server| ensures server[i] != ']' && !IsSpace(server[i]) { assert server[i] == t[13 + i]; }
      assert DeclaresAs(line, a, server, b);
    }
    if exists a, b :: DeclaresAs(line, a, server, b) {
      var a, b :| DeclaresAs(line, a, server, b);
      DeclaredTrims(line, a, server, b);
    }
  }

  lemma DeclaredTrims(line: string, a: string, server: string, b: string)
    requires DeclaresAs(line, a, server, b)
    ensures Declares(line) == Some(server)
  {
    var t := "[mcp_servers." + (server + "]");
    assert t[0] == '[' && t[|t| - 1] == ']';
    PaddedTrims(line, a, t, b);
    var head := "[" + MCP;
    assert |head| == 13 && head <= t && t[13..|t| - 1] == server;
    forall i | 13 <= i < |t| - 1 ensures t[i] != ']' && !IsSpace(t[i]) { assert t[i] == server[i - 13]; }
  }
}
