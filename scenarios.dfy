/** Small files and the statements `processFile` hands to `doRegex` for them, one for each of the
    lexer's less obvious behaviours. */
module Scenarios {
  import opened Wrappers
  import opened Lexer

  /** A slash that starts no comment is kept, and the character read after it is lost: in `a/;b;`
      the ';' does not end a statement. */
  lemma LookaheadAfterSlashIsLost(s: seq<char>)
    requires s == "a/;b;"
    ensures Statements(s) == [Statement("a/b;", 1)]
  {
    assert s[0] == 'a' && s[1] == '/' && s[2] == ';' && s[3] == 'b' && s[4] == ';';
    var st2 := Begun('a').(buf := "a/", lastc := '/');
    var st3 := st2.(buf := "a/b", lastc := 'b');
    RunStep(s, 0, Start, Move(Begun('a'), 1, None));
    assert Begun('a').buf + ['/'] == st2.buf;
    RunStep(s, 1, Begun('a'), Move(st2, 3, None));
    assert st2.buf + ['b'] == st3.buf;
    RunStep(s, 3, st2, Move(st3, 4, None));
    assert st3.buf + [';'] == "a/b;";
    RunStep(s, 4, st3, Move(Start, 5, Some(Statement("a/b;", 1))));
  }

  /** A slash that starts no comment is kept in the statement (`a/2;` gives "a/;"). */
  lemma SlashIsKept(s: seq<char>)
    requires s == "a/2;"
    ensures Statements(s) == [Statement("a/;", 1)]
  {
    assert s[0] == 'a' && s[1] == '/' && s[2] == '2' && s[3] == ';';
    var st2 := Begun('a').(buf := "a/", lastc := '/');
    RunStep(s, 0, Start, Move(Begun('a'), 1, None));
    assert Begun('a').buf + ['/'] == st2.buf;
    RunStep(s, 1, Begun('a'), Move(st2, 3, None));
    assert st2.buf + [';'] == "a/;";
    RunStep(s, 3, st2, Move(Start, 4, Some(Statement("a/;", 1))));
  }

  /** A '#' inside a started statement is kept (`a#b;` gives "a#b;"). */
  lemma HashIsKept(s: seq<char>)
    requires s == "a#b;"
    ensures Statements(s) == [Statement("a#b;", 1)]
  {
    assert s[0] == 'a' && s[1] == '#' && s[2] == 'b' && s[3] == ';';
    var st2 := Begun('a').(buf := "a#", lastc := '#');
    var st3 := st2.(buf := "a#b", lastc := 'b');
    RunStep(s, 0, Start, Move(Begun('a'), 1, None));
    assert Begun('a').buf + ['#'] == st2.buf;
    RunStep(s, 1, Begun('a'), Move(st2, 2, None));
    assert st2.buf + ['b'] == st3.buf;
    RunStep(s, 2, st2, Move(st3, 3, None));
    assert st3.buf + [';'] == "a#b;";
    RunStep(s, 3, st3, Move(Start, 4, Some(Statement("a#b;", 1))));
  }

  /** A terminator on a directive line ends a statement without leaving directive mode, so the
      newline emits a second, empty one. */
  lemma DirectiveEmitsAtTerminatorAndNewline(s: seq<char>)
    requires s == "#x;\n"
    ensures Statements(s) == [Statement("x;", 1), Statement("", 1)]
  {
    assert s[0] == '#' && s[1] == 'x' && s[2] == ';' && s[3] == '\n';
    var st1 := Start.(started := true, hash := true, lastc := '#');
    var st2 := st1.(buf := "x", lastc := 'x');
    var st3 := st1.(buf := [], started := false, lastc := '\0');
    RunStep(s, 0, Start, Move(st1, 1, None));
    RunStep(s, 1, st1, Move(st2, 2, None));
    assert st2.buf + [';'] == "x;";
    RunStep(s, 2, st2, Move(st3, 3, Some(Statement("x;", 1))));
    RunStep(s, 3, st3, Move(Start.(line := 2), 4, Some(Statement("", 1))));
  }

  /** A line comment swallows the newline that would have ended a directive: the directive runs on
      into the next line and ends at its terminator, with the line counted once. */
  lemma LineCommentHidesDirectiveEnd(s: seq<char>)
    requires s == "#x //c\ny;"
    ensures Statements(s) == [Statement("x y;", 2)]
  {
    assert s[0] == '#' && s[1] == 'x' && s[2] == ' ' && s[3] == '/' && s[4] == '/';
    assert s[5] == 'c' && s[6] == '\n' && s[7] == 'y' && s[8] == ';';
    var st1 := Start.(started := true, hash := true, lastc := '#');
    var st2 := st1.(buf := "x", lastc := 'x');
    var st3 := st1.(buf := "x ", lastc := ' ');
    var st7 := st3.(line := 2);
    var st8 := st7.(buf := "x y", lastc := 'y');
    RunStep(s, 0, Start, Move(st1, 1, None));
    RunStep(s, 1, st1, Move(st2, 2, None));
    assert st2.buf + [' '] == st3.buf;
    RunStep(s, 2, st2, Move(st3, 3, None));
    assert SkipLine(s, 5) == 7;
    RunStep(s, 3, st3, Move(st7, 7, None));
    assert st7.buf + ['y'] == st8.buf;
    RunStep(s, 7, st7, Move(st8, 8, None));
    assert st8.buf + [';'] == "x y;";
    RunStep(s, 8, st8, Move(st8.(buf := [], started := false, lastc := '\0'), 9, Some(Statement("x y;", 2))));
  }

  /** A block comment counts the newlines inside it, and a statement carries the line of its
      terminator. */
  lemma BlockCommentCountsItsNewlines(s: seq<char>)
    requires s == "a/*\n*/;"
    ensures Statements(s) == [Statement("a;", 2)]
  {
    assert s[0] == 'a' && s[1] == '/' && s[2] == '*' && s[3] == '\n' && s[4] == '*' && s[5] == '/' && s[6] == ';';
    assert SkipBlock(s, 5, true, 2) == (6, 2);
    assert SkipBlock(s, 4, false, 2) == (6, 2);
    assert SkipBlock(s, 3, false, 1) == (6, 2);
    var st6 := Begun('a').(line := 2);
    RunStep(s, 0, Start, Move(Begun('a'), 1, None));
    RunStep(s, 1, Begun('a'), Move(st6, 6, None));
    assert st6.buf + [';'] == "a;";
    RunStep(s, 6, st6, Move(Start.(line := 2), 7, Some(Statement("a;", 2))));
  }

  /** A terminator inside a literal is ordinary text. */
  lemma QuotedTerminatorIsText(s: seq<char>)
    requires s == "';';"
    ensures Statements(s) == [Statement("';';", 1)]
  {
    assert s[0] == '\'' && s[1] == ';' && s[2] == '\'' && s[3] == ';';
    var st1 := Begun('\'').(inQuotes := true, lastQuote := '\'');
    var st2 := st1.(buf := "';", lastc := ';');
    var st3 := st2.(buf := "';'", lastc := '\'', inQuotes := false, lastQuote := '\0');
    RunStep(s, 0, Start, Move(st1, 1, None));
    assert st1.buf + [';'] == st2.buf;
    RunStep(s, 1, st1, Move(st2, 2, None));
    assert st2.buf + ['\''] == st3.buf;
    RunStep(s, 2, st2, Move(st3, 3, None));
    assert st3.buf + [';'] == "';';";
    RunStep(s, 3, st3, Move(Start, 4, Some(Statement("';';", 1))));
  }

  /** A backslash before a newline joins the lines: neither character is kept and the line counter
      does not move. */
  lemma ContinuationJoinsLines(s: seq<char>)
    requires s == "a\\\nb;"
    ensures Statements(s) == [Statement("ab;", 1)]
  {
    assert s[0] == 'a' && s[1] == '\\' && s[2] == '\n' && s[3] == 'b' && s[4] == ';';
    var st4 := Begun('a').(buf := "ab", lastc := 'b');
    RunStep(s, 0, Start, Move(Begun('a'), 1, None));
    RunStep(s, 1, Begun('a'), Move(Begun('a'), 3, None));
    assert Begun('a').buf + ['b'] == st4.buf;
    RunStep(s, 3, Begun('a'), Move(st4, 4, None));
    assert st4.buf + [';'] == "ab;";
    RunStep(s, 4, st4, Move(Start, 5, Some(Statement("ab;", 1))));
  }

  /** A comment sets the started flag before it is recognised as a comment, so a '#' after a
      leading comment is kept as text instead of opening a directive line. */
  lemma CommentStartsTheStatement(s: seq<char>)
    requires s == "/**/#x;"
    ensures Statements(s) == [Statement("#x;", 1)]
  {
    assert s[0] == '/' && s[1] == '*' && s[2] == '*' && s[3] == '/' && s[4] == '#' && s[5] == 'x' && s[6] == ';';
    assert SkipBlock(s, 3, true, 1) == (4, 1);
    assert SkipBlock(s, 2, false, 1) == (4, 1);
    var st1 := Start.(started := true);
    var st2 := st1.(buf := "#", lastc := '#');
    var st3 := st2.(buf := "#x", lastc := 'x');
    RunStep(s, 0, Start, Move(st1, 4, None));
    assert st1.buf + ['#'] == st2.buf;
    RunStep(s, 4, st1, Move(st2, 5, None));
    assert st2.buf + ['x'] == st3.buf;
    RunStep(s, 5, st2, Move(st3, 6, None));
    assert st3.buf + [';'] == "#x;";
    RunStep(s, 6, st3, Move(Start, 7, Some(Statement("#x;", 1))));
  }

  /** A comment leaves the previous character in place, so a blank before it and a blank after it
      collapse into one. */
  lemma CommentKeepsPreviousCharacter(s: seq<char>)
    requires s == "a /**/ b;"
    ensures Statements(s) == [Statement("a b;", 1)]
  {
    assert s[0] == 'a' && s[1] == ' ' && s[2] == '/' && s[3] == '*' && s[4] == '*' && s[5] == '/';
    assert s[6] == ' ' && s[7] == 'b' && s[8] == ';';
    assert SkipBlock(s, 5, true, 1) == (6, 1);
    assert SkipBlock(s, 4, false, 1) == (6, 1);
    var st2 := Begun('a').(buf := "a ", lastc := ' ');
    var st3 := st2.(buf := "a b", lastc := 'b');
    RunStep(s, 0, Start, Move(Begun('a'), 1, None));
    assert Begun('a').buf + [' '] == st2.buf;
    RunStep(s, 1, Begun('a'), Move(st2, 2, None));
    RunStep(s, 2, st2, Move(st2, 6, None));
    RunStep(s, 6, st2, Move(st2, 7, None));
    assert st2.buf + ['b'] == st3.buf;
    RunStep(s, 7, st2, Move(st3, 8, None));
    assert st3.buf + [';'] == "a b;";
    RunStep(s, 8, st3, Move(Start, 9, Some(Statement("a b;", 1))));
  }
}
