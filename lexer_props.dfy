/** Properties of the statement extractor: literals are never split, statements are emitted as
    soon as their end is read, and line numbers only grow and count the newlines consumed. */
module LexerProps {
  import opened Wrappers
  import opened Strings
  import opened Lexer

  /** Locals the loop can reach: the line counter starts at 1, and `lastQuote` holds the open
      literal's delimiter, or NUL when no literal is open. */
  predicate Inv(st: Lex)
  {
    st.line >= 1 && (if st.inQuotes then IsQuote(st.lastQuote) else st.lastQuote == '\0')
  }

  /** The literal the lexer considers open, if any. */
  function QuoteOf(st: Lex): Option<char>
  {
    if st.inQuotes then Some(st.lastQuote) else None
  }

  /** A quote character opens a literal when none is open and closes only its own. */
  function NextQuote(q: Option<char>, c: char): Option<char>
  {
    if q.None? then Some(c) else if q.value == c then None else q
  }

  /** Reads statement text the way a C reader would, from literal state `q`: a backslash and the
      character after it form one unit, quotes open and close literals. The result is the literal
      state at the end, or None when the text has a terminator outside a literal or ends in a
      dangling backslash. */
  function Scan(t: seq<char>, q: Option<char>): Option<Option<char>>
    decreases |t|
  {
    if t == [] then Some(q)
    else if t[0] == '\\' then (if |t| == 1 then None else Scan(t[2..], q))
    else if q.None? && IsTerminator(t[0]) then None
    else if IsQuote(t[0]) then Scan(t[1..], NextQuote(q, t[0]))
    else Scan(t[1..], q)
  }

  /** A well-split statement read from literal state `q0`: either it holds no terminator outside a
      literal at all (a directive line), or its only one is its last character. */
  predicate Split(t: seq<char>, q0: Option<char>)
  {
    Scan(t, q0).Some?
    || (|t| > 0 && IsTerminator(t[|t| - 1]) && Scan(t[..|t| - 1], q0) == Some(None))
  }

  lemma {:induction false} ScanAppend(a: seq<char>, b: seq<char>, q: Option<char>)
    requires Scan(a, q).Some?
    ensures Scan(a + b, q) == Scan(b, Scan(a, q).value)
    decreases |a|
  {
    if a == [] {
      assert a + b == b;
    } else if a[0] == '\\' {
      assert (a + b)[2..] == a[2..] + b;
      ScanAppend(a[2..], b, q);
    } else {
      assert (a + b)[1..] == a[1..] + b;
      if IsQuote(a[0]) {
        ScanAppend(a[1..], b, NextQuote(q, a[0]));
      } else {
        ScanAppend(a[1..], b, q);
      }
    }
  }

  /** The literal state in which each emitted statement began, in emission order. */
  function RunStarts(s: seq<char>, pos: nat, st: Lex, q0: Option<char>): seq<Option<char>>
    requires pos <= |s|
    decreases |s| - pos
  {
    if pos == |s| then []
    else
      var r := Step(s, pos, st);
      (if r.emit.Some? then [q0] else [])
      + RunStarts(s, r.pos, r.st, if r.emit.Some? then QuoteOf(r.st) else q0)
  }

  /** The literal state in which each of `Statements(s)` began. */
  function StartQuotes(s: seq<char>): seq<Option<char>>
  {
    RunStarts(s, 0, Start, None)
  }

  /** What one step preserves: the invariant holds after it, the line counter has not gone down,
      an emitted statement is well split and carries the current line, and the remaining buffer
      reads, from the state its statement began in, as the current literal state. */
  predicate KeepsQuoting(st: Lex, q0: Option<char>, r: Move)
  {
    Inv(r.st) && r.st.line >= st.line
    && (r.emit.Some? ==> Split(r.emit.value.text, q0) && r.emit.value.line == st.line && r.st.buf == [])
    && (r.emit.None? ==> Scan(r.st.buf, q0) == Some(QuoteOf(r.st)))
  }

  /** Appending text that reads as no change of literal state keeps the buffer's reading. */
  lemma PushKeepsQuoting(st: Lex, q0: Option<char>, t: seq<char>, st': Lex)
    requires Scan(st.buf, q0) == Some(QuoteOf(st))
    requires st'.buf == st.buf + t && Scan(t, QuoteOf(st)) == Some(QuoteOf(st'))
    ensures Scan(st'.buf, q0) == Some(QuoteOf(st'))
  {
    ScanAppend(st.buf, t, q0);
  }

  lemma BlankKeepsQuoting(st: Lex, q0: Option<char>, c: char, p: nat)
    requires IsBlank(c) && Inv(st) && Scan(st.buf, q0) == Some(QuoteOf(st))
    ensures KeepsQuoting(st, q0, BlankStep(st, c, p))
  {
    var r := BlankStep(st, c, p);
    if r.st.buf != st.buf {
      PushKeepsQuoting(st, q0, [c], r.st);
    }
  }

  lemma BackslashKeepsQuoting(s: seq<char>, p: nat, st: Lex, q0: Option<char>)
    requires 0 < p <= |s| && Inv(st) && Scan(st.buf, q0) == Some(QuoteOf(st))
    ensures KeepsQuoting(st, q0, BackslashStep(s, p, st))
  {
    var r := BackslashStep(s, p, st);
    if p < |s| && s[p] != '\r' && s[p] != '\n' {
      assert ['\\', s[p]][2..] == [];
      PushKeepsQuoting(st, q0, ['\\', s[p]], r.st);
    }
  }

  lemma QuoteKeepsQuoting(st: Lex, q0: Option<char>, c: char, p: nat)
    requires IsQuote(c) && Inv(st) && Scan(st.buf, q0) == Some(QuoteOf(st))
    ensures KeepsQuoting(st, q0, QuoteStep(st, c, p))
  {
    var q := QuoteOf(st);
    assert Scan([c], q) == Scan([], NextQuote(q, c));
    PushKeepsQuoting(st, q0, [c], QuoteStep(st, c, p).st);
  }

  lemma SlashKeepsQuoting(s: seq<char>, p: nat, st: Lex, q0: Option<char>)
    requires 0 < p <= |s| && Inv(st) && Scan(st.buf, q0) == Some(QuoteOf(st))
    ensures KeepsQuoting(st, q0, SlashStep(s, p, st))
  {
    var r := SlashStep(s, p, st);
    if r.st.buf != st.buf {
      PushKeepsQuoting(st, q0, ['/'], r.st);
    }
  }

  lemma HashKeepsQuoting(st: Lex, q0: Option<char>, p: nat)
    requires Inv(st) && Scan(st.buf, q0) == Some(QuoteOf(st))
    ensures KeepsQuoting(st, q0, HashStep(st, p))
  {
    if st.started {
      PushKeepsQuoting(st, q0, ['#'], HashStep(st, p).st);
    }
  }

  lemma TerminatorKeepsQuoting(st: Lex, q0: Option<char>, c: char, p: nat)
    requires IsTerminator(c) && Inv(st) && Scan(st.buf, q0) == Some(QuoteOf(st))
    ensures KeepsQuoting(st, q0, TerminatorStep(st, c, p))
  {
    if st.inQuotes {
      PushKeepsQuoting(st, q0, [c], TerminatorStep(st, c, p).st);
    } else {
      var t := st.buf + [c];
      assert t[..|t| - 1] == st.buf && t[|t| - 1] == c;
      assert Split(t, q0);
    }
  }

  lemma OtherKeepsQuoting(st: Lex, q0: Option<char>, c: char, p: nat)
    requires !IsQuote(c) && !IsTerminator(c) && c != '\\'
    requires Inv(st) && Scan(st.buf, q0) == Some(QuoteOf(st))
    ensures KeepsQuoting(st, q0, OtherStep(st, c, p))
  {
    PushKeepsQuoting(st, q0, [c], OtherStep(st, c, p).st);
  }

  lemma StepKeepsQuoting(s: seq<char>, pos: nat, st: Lex, q0: Option<char>)
    requires pos < |s| && Inv(st) && Scan(st.buf, q0) == Some(QuoteOf(st))
    ensures KeepsQuoting(st, q0, Step(s, pos, st))
  {
    var c, p := s[pos], pos + 1;
    if c == '\r' || c == '\n' {
    } else if IsBlank(c) {
      BlankKeepsQuoting(st, q0, c, p);
    } else if c == '\\' {
      BackslashKeepsQuoting(s, p, st, q0);
    } else if IsQuote(c) {
      QuoteKeepsQuoting(st, q0, c, p);
    } else if c == '/' {
      SlashKeepsQuoting(s, p, st, q0);
    } else if c == '#' {
      HashKeepsQuoting(st, q0, p);
    } else if IsTerminator(c) {
      TerminatorKeepsQuoting(st, q0, c, p);
    } else {
      OtherKeepsQuoting(st, q0, c, p);
    }
  }

  /** No statement is ever cut inside a quoted literal, and a terminator inside a literal never
      ends one: every emitted statement is well split, read from the literal state it began in. */
  lemma {:induction false} RunKeepsQuoting(s: seq<char>, pos: nat, st: Lex, q0: Option<char>)
    requires pos <= |s| && Inv(st) && Scan(st.buf, q0) == Some(QuoteOf(st))
    ensures |RunStarts(s, pos, st, q0)| == |Run(s, pos, st)|
    ensures forall k | 0 <= k < |Run(s, pos, st)| :: Split(Run(s, pos, st)[k].text, RunStarts(s, pos, st, q0)[k])
    decreases |s| - pos
  {
    if pos < |s| {
      var r := Step(s, pos, st);
      StepKeepsQuoting(s, pos, st, q0);
      var q1 := if r.emit.Some? then QuoteOf(r.st) else q0;
      RunKeepsQuoting(s, r.pos, r.st, q1);
      var rest, restStarts := Run(s, r.pos, r.st), RunStarts(s, r.pos, r.st, q1);
      assert Run(s, pos, st) == ToSeq(r.emit) + rest;
      assert RunStarts(s, pos, st, q0) == (if r.emit.Some? then [q0] else []) + restStarts;
      if r.emit.Some? {
        forall k | 0 <= k < |Run(s, pos, st)|
          ensures Split(Run(s, pos, st)[k].text, RunStarts(s, pos, st, q0)[k])
        {
          if k > 0 {
            assert Run(s, pos, st)[k] == rest[k - 1];
            assert RunStarts(s, pos, st, q0)[k] == restStarts[k - 1];
          }
        }
      }
    }
  }

  /** Every statement of a file is well split, read from the literal state it began in. */
  lemma StatementsNeverSplitLiterals(s: seq<char>)
    ensures |StartQuotes(s)| == |Statements(s)|
    ensures forall k | 0 <= k < |Statements(s)| :: Split(Statements(s)[k].text, StartQuotes(s)[k])
  {
    RunKeepsQuoting(s, 0, Start, None);
  }

  /** A statement that ends at a terminator, with no earlier terminator outside a literal. */
  predicate EndsAtTerminator(t: seq<char>)
  {
    |t| > 0 && IsTerminator(t[|t| - 1]) && Scan(t[..|t| - 1], None) == Some(None)
  }

  /** Without directive lines only terminators end statements, and each statement begins outside
      any literal: its last character is a terminator and no earlier one lies outside a literal. */
  lemma {:induction false} RunWithoutDirectives(s: seq<char>, pos: nat, st: Lex)
    requires pos <= |s| && Inv(st) && !st.hash && Scan(st.buf, None) == Some(QuoteOf(st))
    requires forall i | pos <= i < |s| :: s[i] != '#'
    ensures forall k | 0 <= k < |Run(s, pos, st)| :: EndsAtTerminator(Run(s, pos, st)[k].text)
    decreases |s| - pos
  {
    if pos < |s| {
      var r := Step(s, pos, st);
      StepWithoutDirectives(s, pos, st, r);
      RunWithoutDirectives(s, r.pos, r.st);
      var all, rest := Run(s, pos, st), Run(s, r.pos, r.st);
      assert all == ToSeq(r.emit) + rest;
      forall k | 0 <= k < |all|
        ensures EndsAtTerminator(all[k].text)
      {
        if r.emit.None? {
          assert all[k] == rest[k];
        } else if k == 0 {
          assert all[k] == r.emit.value;
        } else {
          assert all[k] == rest[k - 1];
        }
      }
    }
  }

  /** One step of `RunWithoutDirectives`: outside directive mode a step keeps the lexer out of it,
      and what it emits ends at its only terminator outside a literal. */
  lemma StepWithoutDirectives(s: seq<char>, pos: nat, st: Lex, r: Move)
    requires pos < |s| && Inv(st) && !st.hash && Scan(st.buf, None) == Some(QuoteOf(st))
    requires s[pos] != '#' && r == Step(s, pos, st)
    ensures Inv(r.st) && !r.st.hash && Scan(r.st.buf, None) == Some(QuoteOf(r.st))
    ensures r.emit.Some? ==> EndsAtTerminator(r.emit.value.text)
  {
    StepKeepsQuoting(s, pos, st, None);
    assert !r.st.hash && (r.emit.Some? ==> !r.st.inQuotes && Scan(r.emit.value.text, None).None?) by {
      var c := s[pos];
      if IsTerminator(c) && !st.inQuotes {
        ScanAppend(st.buf, [c], None);
      }
    }
  }

  /** The termination property for files without directive lines. */
  lemma StatementsEndAtTheirOnlyTerminator(s: seq<char>)
    requires '#' !in s
    ensures forall k | 0 <= k < |Statements(s)| :: EndsAtTerminator(Statements(s)[k].text)
  {
    RunWithoutDirectives(s, 0, Start);
  }

  /** A tail of input with neither a terminator nor a newline emits nothing: a statement still
      accumulating at the end of input is dropped. */
  lemma {:induction false} UnterminatedTailIsDropped(s: seq<char>, pos: nat, st: Lex)
    requires pos <= |s|
    requires forall i | pos <= i < |s| :: !IsTerminator(s[i]) && s[i] != '\n'
    ensures Run(s, pos, st) == []
    decreases |s| - pos
  {
    if pos < |s| {
      var r := Step(s, pos, st);
      UnterminatedTailIsDropped(s, r.pos, r.st);
    }
  }

  /** Emitted statements carry non-decreasing line numbers, none below the current line. */
  lemma {:induction false} RunLinesAscend(s: seq<char>, pos: nat, st: Lex)
    requires pos <= |s|
    ensures forall k | 0 <= k < |Run(s, pos, st)| :: st.line <= Run(s, pos, st)[k].line
    ensures forall j, k | 0 <= j < k < |Run(s, pos, st)| :: Run(s, pos, st)[j].line <= Run(s, pos, st)[k].line
    decreases |s| - pos
  {
    if pos < |s| {
      var r := Step(s, pos, st);
      assert r.st.line >= st.line;
      RunLinesAscend(s, r.pos, r.st);
      var rest := Run(s, r.pos, r.st);
      assert Run(s, pos, st) == ToSeq(r.emit) + rest;
      if r.emit.Some? {
        assert r.emit.value.line == st.line;
        assert forall k | 1 <= k < |Run(s, pos, st)| :: Run(s, pos, st)[k] == rest[k - 1];
      }
    }
  }

  /** Line numbers of a file's statements start at 1 or later and never decrease. */
  lemma StatementLinesAscend(s: seq<char>)
    ensures forall k | 0 <= k < |Statements(s)| :: 1 <= Statements(s)[k].line
    ensures forall j, k | 0 <= j < k < |Statements(s)| :: Statements(s)[j].line <= Statements(s)[k].line
  {
    RunLinesAscend(s, 0, Start);
  }

  /** A newline that is consumed as a lookahead and thrown away: after a backslash (a line
      continuation) or after a slash outside a literal that starts no comment. */
  predicate LostNewline(s: seq<char>, pos: nat, st: Lex)
    requires pos < |s|
  {
    (s[pos] == '\\' || (s[pos] == '/' && !st.inQuotes)) && pos + 1 < |s| && s[pos + 1] == '\n'
  }

  /** Every newline a step consumes adds one to the line counter, except one thrown away as a
      lookahead (unless the step ran into the end of input, where nothing more is emitted). */
  lemma StepCountsLines(s: seq<char>, pos: nat, st: Lex)
    requires pos < |s|
    ensures Step(s, pos, st).pos < |s| ==>
              Step(s, pos, st).st.line + (if LostNewline(s, pos, st) then 1 else 0)
              == st.line + Count('\n', s[pos..Step(s, pos, st).pos])
  {
    var c, p := s[pos], pos + 1;
    if c == '\\' {
      BackslashCountsLines(s, pos, st);
    } else if c == '/' {
      SlashCountsLines(s, pos, st);
    } else {
      assert Step(s, pos, st).pos == p;
      assert s[pos..p] == [c];
      assert Step(s, pos, st).st.line == st.line + (if c == '\n' then 1 else 0);
    }
  }

  lemma BackslashCountsLines(s: seq<char>, pos: nat, st: Lex)
    requires pos < |s| && s[pos] == '\\'
    ensures var r := BackslashStep(s, pos + 1, st);
            r.pos < |s| ==> r.st.line + (if LostNewline(s, pos, st) then 1 else 0) == st.line + Count('\n', s[pos..r.pos])
  {
    var r := BackslashStep(s, pos + 1, st);
    if r.pos < |s| {
      assert s[pos..r.pos] == ['\\'] + [s[pos + 1]];
      CountAppend('\n', ['\\'], [s[pos + 1]]);
    }
  }

  lemma SlashCountsLines(s: seq<char>, pos: nat, st: Lex)
    requires pos < |s| && s[pos] == '/'
    ensures var r := SlashStep(s, pos + 1, st);
            r.pos < |s| ==> r.st.line + (if LostNewline(s, pos, st) then 1 else 0) == st.line + Count('\n', s[pos..r.pos])
  {
    var r := SlashStep(s, pos + 1, st);
    if r.pos < |s| {
      if st.inQuotes {
        assert s[pos..r.pos] == ['/'];
      } else if s[pos + 1] == '/' {
        var q := SkipLine(s, pos + 2);
        assert s[pos..q] == ['/', '/'] + s[pos + 2..q - 1] + ['\n'];
        CountAppend('\n', ['/', '/'] + s[pos + 2..q - 1], ['\n']);
        CountAppend('\n', ['/', '/'], s[pos + 2..q - 1]);
        assert '\n' !in s[pos + 2..q - 1];
        CountZero('\n', s[pos + 2..q - 1]);
      } else if s[pos + 1] == '*' {
        assert s[pos..r.pos] == ['/', '*'] + s[pos + 2..r.pos];
        CountAppend('\n', ['/', '*'], s[pos + 2..r.pos]);
      } else {
        assert s[pos..r.pos] == ['/'] + [s[pos + 1]];
        CountAppend('\n', ['/'], [s[pos + 1]]);
      }
    }
  }

  lemma {:induction false} SkipLineExtends(s: seq<char>, t: seq<char>, p: nat)
    requires p <= |s| && SkipLine(s, p) < |s|
    ensures SkipLine(s + t, p) == SkipLine(s, p)
    decreases |s| - p
  {
    if s[p] != '\n' {
      SkipLineExtends(s, t, p + 1);
    }
  }

  lemma {:induction false} SkipBlockExtends(s: seq<char>, t: seq<char>, p: nat, star: bool, line: int)
    requires p <= |s| && SkipBlock(s, p, star, line).0 < |s|
    ensures SkipBlock(s + t, p, star, line) == SkipBlock(s, p, star, line)
    decreases |s| - p
  {
    if !(star && s[p] == '/') {
      SkipBlockExtends(s, t, p + 1, s[p] == '*', if s[p] == '\n' then line + 1 else line);
    }
  }

  /** A comment outside a literal appends nothing, emits nothing and keeps `lastc`: only the
      started flag and the line counter change, a line comment counting its one newline and a
      block comment every newline inside it. */
  lemma CommentsLeaveNoText(s: seq<char>, pos: nat, st: Lex)
    requires pos + 1 < |s| && s[pos] == '/' && !st.inQuotes && (s[pos + 1] == '/' || s[pos + 1] == '*')
    ensures Step(s, pos, st).emit.None?
    ensures Step(s, pos, st).st == st.(started := true, line := Step(s, pos, st).st.line)
    ensures s[pos + 1] == '/' ==> Step(s, pos, st).st.line == st.line + 1
    ensures s[pos + 1] == '*' ==> Step(s, pos, st).st.line == st.line + Count('\n', s[pos + 2..Step(s, pos, st).pos])
  {
    assert Step(s, pos, st) == SlashStep(s, pos + 1, st);
  }

  /** A step over a longer input does the same thing, unless its lookahead ran into the end of
      the shorter one, and then it emitted nothing. */
  lemma StepExtends(s: seq<char>, t: seq<char>, pos: nat, st: Lex)
    requires pos < |s|
    ensures Step(s + t, pos, st) == Step(s, pos, st)
            || (Step(s, pos, st).pos == |s| && Step(s, pos, st).emit.None?)
  {
    var c := s[pos];
    assert (s + t)[pos] == c;
    if c == '\\' {
      BackslashExtends(s, t, pos + 1, st);
    } else if c == '/' {
      SlashExtends(s, t, pos + 1, st);
    } else {
      StepWithoutLookahead(s, s + t, pos, st);
    }
  }

  /** Apart from a backslash or a slash, a step reads nothing but the character it is at. */
  lemma StepWithoutLookahead(s: seq<char>, u: seq<char>, pos: nat, st: Lex)
    requires pos < |s| && pos < |u| && s[pos] == u[pos] && s[pos] != '\\' && s[pos] != '/'
    ensures Step(s, pos, st) == Step(u, pos, st)
  {
  }

  /** A backslash reads the same continuation from a longer input, unless it stood last. */
  lemma BackslashExtends(s: seq<char>, t: seq<char>, p: nat, st: Lex)
    requires 0 < p <= |s|
    ensures BackslashStep(s + t, p, st) == BackslashStep(s, p, st)
            || (BackslashStep(s, p, st).pos == |s| && BackslashStep(s, p, st).emit.None?)
  {
    if p < |s| {
      assert (s + t)[p] == s[p];
    }
  }

  /** A slash, and any comment it opens, reads the same from a longer input unless the comment
      or the lookahead ran up to the end. */
  lemma SlashExtends(s: seq<char>, t: seq<char>, p: nat, st: Lex)
    requires 0 < p <= |s|
    ensures SlashStep(s + t, p, st) == SlashStep(s, p, st)
            || (SlashStep(s, p, st).pos == |s| && SlashStep(s, p, st).emit.None?)
  {
    if !st.inQuotes && p < |s| {
      assert (s + t)[p] == s[p];
      if s[p] == '/' && SkipLine(s, p + 1) < |s| {
        SkipLineExtends(s, t, p + 1);
      } else if s[p] == '*' && SkipBlock(s, p + 1, false, st.line).0 < |s| {
        SkipBlockExtends(s, t, p + 1, false, st.line);
      }
    }
  }

  /** Statements are emitted as soon as their end has been read: reading more input never takes
      back or changes an emitted statement. */
  lemma {:induction false} RunExtends(s: seq<char>, t: seq<char>, pos: nat, st: Lex)
    requires pos <= |s|
    ensures Run(s, pos, st) <= Run(s + t, pos, st)
    decreases |s| - pos
  {
    if pos < |s| {
      var r := Step(s, pos, st);
      StepExtends(s, t, pos, st);
      if Step(s + t, pos, st) == r {
        RunExtends(s, t, r.pos, r.st);
      } else {
        assert Run(s, r.pos, r.st) == [];
      }
    }
  }

  /** The statements of a file are a prefix of the statements of any longer file beginning with it. */
  lemma StatementsAreStreamed(s: seq<char>, t: seq<char>)
    ensures Statements(s) <= Statements(s + t)
  {
    RunExtends(s, t, 0, Start);
  }

  /** Every byte a step stores is a byte of the input or one of the backslash, slash and hash the
      lexer keeps, so a NUL-free file never puts a NUL into the statement. */
  lemma StepKeepsNulFree(s: seq<char>, pos: nat, st: Lex)
    requires pos < |s| && '\0' !in s && '\0' !in st.buf
    ensures '\0' !in Step(s, pos, st).st.buf
    ensures Step(s, pos, st).emit.Some? ==> '\0' !in Step(s, pos, st).emit.value.text
  {
    assert s[pos] in s;
    if pos + 1 < |s| {
      assert s[pos + 1] in s;
    }
  }

  /** In a NUL-free file the matcher and the reporter, which stop at the first NUL, see every
      emitted statement whole. */
  lemma {:induction false} RunIsSeenWhole(s: seq<char>, pos: nat, st: Lex)
    requires pos <= |s| && '\0' !in s && '\0' !in st.buf
    ensures forall k | 0 <= k < |Run(s, pos, st)| :: CString(Run(s, pos, st)[k].text) == Run(s, pos, st)[k].text
    decreases |s| - pos
  {
    if pos < |s| {
      var r := Step(s, pos, st);
      StepKeepsNulFree(s, pos, st);
      RunIsSeenWhole(s, r.pos, r.st);
      var rest := Run(s, r.pos, r.st);
      assert Run(s, pos, st) == ToSeq(r.emit) + rest;
      if r.emit.Some? {
        CStringOfPlainText(r.emit.value.text);
        assert forall k | 1 <= k < |Run(s, pos, st)| :: Run(s, pos, st)[k] == rest[k - 1];
      }
    }
  }

  /** Every statement of a NUL-free file reaches `doRegex` whole, kept slashes and hashes included. */
  lemma StatementsAreSeenWhole(s: seq<char>)
    requires '\0' !in s
    ensures forall k | 0 <= k < |Statements(s)| :: CString(Statements(s)[k].text) == Statements(s)[k].text
  {
    RunIsSeenWhole(s, 0, Start);
  }
}
