/** `processFile` as written, storing into a memory image of `g_buffer`. Two of its stores (chunt.c:291 and chunt.c:305) move
    the offset on without writing anything, so the statement handed to `doRegex` holds whatever
    byte was left in that slot: a NUL from `calloc`, or a byte of an earlier statement. */
module Findings {
  import opened Wrappers
  import opened Strings
  import opened Lexer
  import Growth

  /** The steps that, as written, advance the offset past a slot they never store into: a slash
      outside a literal that starts no comment, and a '#' after the statement has started. */
  predicate SkipsSlot(s: seq<char>, pos: nat, st: Lex)
    requires pos < |s|
  {
    (s[pos] == '/' && !st.inQuotes && !(pos + 1 < |s| && (s[pos + 1] == '/' || s[pos + 1] == '*')))
    || (s[pos] == '#' && st.started)
  }

  /** `mem` with `t` stored from index `at` on. */
  function Store(mem: seq<char>, at: nat, t: seq<char>): (r: seq<char>)
    requires at + |t| <= |mem|
    ensures |r| == |mem|
  {
    mem[..at] + t + mem[at + |t|..]
  }

  /** What a store writes and what it leaves alone. */
  lemma StoreFacts(mem: seq<char>, at: nat, t: seq<char>)
    requires at + |t| <= |mem|
    ensures Store(mem, at, t)[at..at + |t|] == t
    ensures forall i | 0 <= i < |mem| && !(at <= i < at + |t|) :: Store(mem, at, t)[i] == mem[i]
  {
    var r := Store(mem, at, t);
    forall i | 0 <= i < |mem| && !(at <= i < at + |t|)
      ensures r[i] == mem[i]
    {
      if i < at {
        assert r[i] == mem[..at][i];
      } else {
        assert r[i] == mem[at + |t|..][i - at - |t|];
      }
    }
  }

  /** A step stores at most two bytes, never more than it reads, and only appends unless it emits. */
  lemma StepBound(s: seq<char>, pos: nat, st: Lex)
    requires pos < |s| && |st.buf| <= pos
    ensures |Step(s, pos, st).st.buf| <= Step(s, pos, st).pos
    ensures |Step(s, pos, st).st.buf| <= |st.buf| + 2
    ensures Step(s, pos, st).emit.None? ==> st.buf <= Step(s, pos, st).st.buf
    ensures Step(s, pos, st).emit.Some? ==> Step(s, pos, st).st.buf == []
    ensures Step(s, pos, st).emit.Some? ==>
              Step(s, pos, st).emit.value.text == st.buf + (if IsTerminator(s[pos]) then [s[pos]] else [])
  {
  }

  /** One iteration as written. The locals move as in `Lexer.Step`, and only the length of `buf` is
      used, as the offset `idx`; the bytes live in `mem`, the contents of `g_buffer`. A statement
      is handed on as the whole buffer, the `char*` that `doRegex` receives. */
  function StepAsWritten(s: seq<char>, pos: nat, st: Lex, mem: seq<char>): (r: (Move, seq<char>))
    requires pos < |s| && |st.buf| <= pos && |s| < |mem|
    ensures |r.1| == |mem|
  {
    StepBound(s, pos, st);
    var m := Step(s, pos, st);
    var n := |st.buf|;
    if m.emit.Some? then
      var mem' := Store(mem, n, if IsTerminator(s[pos]) then [s[pos], '\0'] else ['\0']);
      (m.(emit := Some(Statement(mem', m.emit.value.line))), mem')
    else if SkipsSlot(s, pos, st) then (m, mem)
    else (m, Store(mem, n, m.st.buf[n..]))
  }

  /** The buffers `doRegex` receives as written, from position `pos` on. */
  function RunAsWritten(s: seq<char>, pos: nat, st: Lex, mem: seq<char>): seq<Statement>
    requires pos <= |s| && |st.buf| <= pos && |s| < |mem|
    decreases |s| - pos
  {
    if pos == |s| then []
    else
      StepBound(s, pos, st);
      var r := StepAsWritten(s, pos, st, mem);
      ToSeq(r.0.emit) + RunAsWritten(s, r.0.pos, r.0.st, r.1)
  }

  /** What `doRegex` reads of each statement it receives: the C string, up to the first NUL. */
  function Seen(sts: seq<Statement>): (r: seq<Statement>)
    ensures |r| == |sts|
    ensures forall k | 0 <= k < |sts| :: r[k] == Statement(CString(sts[k].text), sts[k].line)
  {
    if sts == [] then [] else [Statement(CString(sts[0].text), sts[0].line)] + Seen(sts[1..])
  }

  /** Reading two runs of statements is reading one after the other. */
  lemma {:induction false} SeenAppend(a: seq<Statement>, b: seq<Statement>)
    ensures Seen(a + b) == Seen(a) + Seen(b)
    decreases |a|
  {
    if a == [] {
      assert a + b == b;
    } else {
      assert (a + b)[1..] == a[1..] + b;
      SeenAppend(a[1..], b);
    }
  }

  /** A NUL ends the C string whatever follows it. */
  lemma {:induction false} CStringStops(t: seq<char>, rest: seq<char>)
    ensures CString(t + ['\0'] + rest) == CString(t)
  {
    if t != [] && t[0] != '\0' {
      assert (t + ['\0'] + rest)[1..] == t[1..] + ['\0'] + rest;
      CStringStops(t[1..], rest);
    }
  }

  /** Where no step skips a slot, `doRegex` reads as written exactly the statements of the model:
      the two differ only at the skipped slots. */
  lemma {:induction false} AsWrittenAgreesWithoutSkips(s: seq<char>, pos: nat, st: Lex, mem: seq<char>)
    requires pos <= |s| && |st.buf| <= pos && |s| < |mem| && mem[..|st.buf|] == st.buf
    requires forall i | pos <= i < |s| :: s[i] != '/' && s[i] != '#'
    ensures Seen(RunAsWritten(s, pos, st, mem)) == Seen(Run(s, pos, st))
    decreases |s| - pos
  {
    if pos < |s| {
      var m := Step(s, pos, st);
      var r := StepAsWritten(s, pos, st, mem);
      StepAsWrittenAgrees(s, pos, st, mem, m, r);
      RunAsWrittenUnfold(s, pos, st, mem, r.0, r.1);
      AsWrittenAgreesWithoutSkips(s, m.pos, m.st, r.1);
      SeenAppend(ToSeq(r.0.emit), RunAsWritten(s, m.pos, m.st, r.1));
      SeenAppend(ToSeq(m.emit), Run(s, m.pos, m.st));
    }
  }

  /** One step of `AsWrittenAgreesWithoutSkips`: a step that skips no slot moves as the model does,
      leaves the buffer's prefix equal to `buf`, and hands on a C string that reads as the model's
      statement. */
  lemma StepAsWrittenAgrees(s: seq<char>, pos: nat, st: Lex, mem: seq<char>, m: Move, r: (Move, seq<char>))
    requires pos < |s| && |st.buf| <= pos && |s| < |mem| && mem[..|st.buf|] == st.buf
    requires s[pos] != '/' && s[pos] != '#'
    requires m == Step(s, pos, st) && r == StepAsWritten(s, pos, st, mem)
    ensures r.0.pos == m.pos && r.0.st == m.st && |m.st.buf| <= m.pos && |s| < |r.1|
    ensures r.1[..|m.st.buf|] == m.st.buf
    ensures Seen(ToSeq(r.0.emit)) == Seen(ToSeq(m.emit))
  {
    StepBound(s, pos, st);
    var n := |st.buf|;
    if m.emit.Some? {
      var t := if IsTerminator(s[pos]) then [s[pos], '\0'] else ['\0'];
      EmitAsWritten(s, pos, st, mem, m, t);
      StoredReadsAs(mem, st.buf, t, m.emit.value.text);
    } else {
      AppendAsWritten(s, pos, st, mem, m);
      StorePrefix(mem, st.buf, m.st.buf[n..]);
      assert st.buf + m.st.buf[n..] == m.st.buf;
    }
  }

  /** A buffer stored after `buf` and ended by a NUL reads, as a C string, as the text before
      that NUL. */
  lemma StoredReadsAs(mem: seq<char>, buf: seq<char>, t: seq<char>, text: seq<char>)
    requires |buf| + |t| <= |mem| && mem[..|buf|] == buf
    requires |t| >= 1 && t[|t| - 1] == '\0' && text == buf + t[..|t| - 1]
    ensures CString(Store(mem, |buf|, t)) == CString(text)
  {
    var rest := mem[|buf| + |t|..];
    assert Store(mem, |buf|, t) == text + ['\0'] + rest;
    CStringStops(text, rest);
  }

  /** A store after a prefix keeps the prefix. */
  lemma StorePrefix(mem: seq<char>, buf: seq<char>, u: seq<char>)
    requires |buf| + |u| <= |mem| && mem[..|buf|] == buf
    ensures Store(mem, |buf|, u)[..|buf| + |u|] == buf + u
  {
  }

  /** The as-written run from `pos` is the buffer handed on by the step there followed by the run
      after it. */
  lemma RunAsWrittenUnfold(s: seq<char>, pos: nat, st: Lex, mem: seq<char>, m: Move, mem': seq<char>)
    requires pos < |s| && |st.buf| <= pos && |s| < |mem| && StepAsWritten(s, pos, st, mem) == (m, mem')
    ensures |m.st.buf| <= m.pos <= |s| && |s| < |mem'|
    ensures RunAsWritten(s, pos, st, mem) == ToSeq(m.emit) + RunAsWritten(s, m.pos, m.st, mem')
  {
    StepBound(s, pos, st);
  }

  /** A character that none of the cases of the `switch` names. */
  predicate IsPlain(c: char)
  {
    c != '\r' && c != '\n' && !IsBlank(c) && c != '\\' && !IsQuote(c) && c != '/' && c != '#' && !IsTerminator(c)
  }

  /** A plain character goes to the `default` case. */
  lemma PlainDispatch(s: seq<char>, pos: nat, st: Lex)
    requires pos < |s| && IsPlain(s[pos])
    ensures Step(s, pos, st) == OtherStep(st, s[pos], pos + 1)
  {
  }

  /** A terminator goes to its own case. */
  lemma TerminatorDispatch(s: seq<char>, pos: nat, st: Lex)
    requires pos < |s| && IsTerminator(s[pos])
    ensures Step(s, pos, st) == TerminatorStep(st, s[pos], pos + 1)
  {
  }

  /** A '#' goes to its own case. */
  lemma HashDispatch(s: seq<char>, pos: nat, st: Lex)
    requires pos < |s| && s[pos] == '#'
    ensures Step(s, pos, st) == HashStep(st, pos + 1)
  {
  }

  /** Storing one byte is an update. */
  lemma StoreOne(mem: seq<char>, at: nat, a: char)
    requires at < |mem|
    ensures Store(mem, at, [a]) == mem[at := a]
  {
    StoreFacts(mem, at, [a]);
    var r := Store(mem, at, [a]);
    assert r[at] == r[at..at + 1][0];
  }

  /** Storing two bytes is two updates. */
  lemma StoreTwo(mem: seq<char>, at: nat, a: char, b: char)
    requires at + 2 <= |mem|
    ensures Store(mem, at, [a, b]) == mem[at := a][at + 1 := b]
  {
    StoreFacts(mem, at, [a, b]);
    var r := Store(mem, at, [a, b]);
    assert r[at] == r[at..at + 2][0] && r[at + 1] == r[at..at + 2][1];
  }

  /** A step that emits stores the terminator, if it read one, and a NUL at the offset, and hands
      on the buffer. */
  lemma EmitAsWritten(s: seq<char>, pos: nat, st: Lex, mem: seq<char>, m: Move, t: seq<char>)
    requires pos < |s| && |st.buf| <= pos && |s| < |mem|
    requires m == Step(s, pos, st) && m.emit.Some? && t == (if IsTerminator(s[pos]) then [s[pos], '\0'] else ['\0'])
    ensures |st.buf| + |t| <= |mem|
    ensures StepAsWritten(s, pos, st, mem)
            == (m.(emit := Some(Statement(Store(mem, |st.buf|, t), m.emit.value.line))), Store(mem, |st.buf|, t))
  {
    StepBound(s, pos, st);
  }

  /** A step that neither emits nor skips a slot stores what it appended to `buf`. */
  lemma AppendAsWritten(s: seq<char>, pos: nat, st: Lex, mem: seq<char>, m: Move)
    requires pos < |s| && |st.buf| <= pos && |s| < |mem|
    requires m == Step(s, pos, st) && m.emit.None? && !SkipsSlot(s, pos, st)
    ensures |st.buf| <= |m.st.buf| <= |mem|
    ensures StepAsWritten(s, pos, st, mem) == (m, Store(mem, |st.buf|, m.st.buf[|st.buf|..]))
  {
    StepBound(s, pos, st);
  }

  /** A step that skips a slot stores nothing. */
  lemma SkipAsWritten(s: seq<char>, pos: nat, st: Lex, mem: seq<char>, m: Move)
    requires pos < |s| && |st.buf| <= pos && |s| < |mem|
    requires m == Step(s, pos, st) && m.emit.None? && SkipsSlot(s, pos, st)
    ensures StepAsWritten(s, pos, st, mem) == (m, mem)
  {
  }

  /** As written, a plain character is stored at the offset. */
  lemma PlainStepAsWritten(s: seq<char>, pos: nat, st: Lex, mem: seq<char>)
    requires pos < |s| && |st.buf| <= pos && |s| < |mem|
    requires IsPlain(s[pos])
    ensures StepAsWritten(s, pos, st, mem) == (OtherStep(st, s[pos], pos + 1), mem[|st.buf| := s[pos]])
  {
    var n, c := |st.buf|, s[pos];
    var m := OtherStep(st, c, pos + 1);
    PlainDispatch(s, pos, st);
    assert m.st.buf[n..] == [c];
    AppendAsWritten(s, pos, st, mem, m);
    StoreOne(mem, n, c);
  }

  /** The run as written past a plain character. */
  lemma PlainAsWritten(s: seq<char>, pos: nat, st: Lex, mem: seq<char>, st': Lex, mem': seq<char>)
    requires pos < |s| && |st.buf| <= pos && |s| < |mem|
    requires IsPlain(s[pos])
    requires st' == st.(started := true, buf := st.buf + [s[pos]], lastc := s[pos]) && mem' == mem[|st.buf| := s[pos]]
    ensures RunAsWritten(s, pos, st, mem) == RunAsWritten(s, pos + 1, st', mem')
  {
    PlainStepAsWritten(s, pos, st, mem);
    RunAsWrittenUnfold(s, pos, st, mem, OtherStep(st, s[pos], pos + 1), mem');
  }

  /** As written, a terminator outside a literal is stored with a NUL after it, and the buffer is
      handed on. */
  lemma EndStepAsWritten(s: seq<char>, pos: nat, st: Lex, mem: seq<char>, mem': seq<char>)
    requires pos < |s| && |st.buf| <= pos && |s| < |mem|
    requires IsTerminator(s[pos]) && !st.inQuotes
    requires mem' == mem[|st.buf| := s[pos]][|st.buf| + 1 := '\0']
    ensures StepAsWritten(s, pos, st, mem)
            == (Move(st.(buf := [], started := false, lastc := '\0'), pos + 1, Some(Statement(mem', st.line))), mem')
  {
    var n, c := |st.buf|, s[pos];
    var m := TerminatorStep(st, c, pos + 1);
    TerminatorDispatch(s, pos, st);
    EmitAsWritten(s, pos, st, mem, m, [c, '\0']);
    StoreTwo(mem, n, c, '\0');
  }

  /** The growth check of chunt.c:329 as written lets a turn begin with the offset one short of
      a buffer of `size` bytes; a terminator there stores its NUL at index `size`, one past the end
      of that buffer. */
  lemma TerminatorWritesPastGuard(s: seq<char>, pos: nat, st: Lex, mem: seq<char>)
    requires pos < |s| && |st.buf| <= pos && |s| < |mem| && IsTerminator(s[pos]) && !st.inQuotes
    ensures var size := |st.buf| + 1;
            Growth.GrownSizeAsWritten(|st.buf|, size) == size
            && StepAsWritten(s, pos, st, mem).1 == mem[|st.buf| := s[pos]][size := '\0']
  {
    EndStepAsWritten(s, pos, st, mem, mem[|st.buf| := s[pos]][|st.buf| + 1 := '\0']);
  }

  /** The run as written past a terminator outside a literal. */
  lemma EndAsWritten(s: seq<char>, pos: nat, st: Lex, mem: seq<char>, st': Lex, mem': seq<char>)
    requires pos < |s| && |st.buf| <= pos && |s| < |mem|
    requires IsTerminator(s[pos]) && !st.inQuotes
    requires st' == st.(buf := [], started := false, lastc := '\0') && mem' == mem[|st.buf| := s[pos]][|st.buf| + 1 := '\0']
    ensures RunAsWritten(s, pos, st, mem) == [Statement(mem', st.line)] + RunAsWritten(s, pos + 1, st', mem')
  {
    EndStepAsWritten(s, pos, st, mem, mem');
    RunAsWrittenUnfold(s, pos, st, mem, Move(st', pos + 1, Some(Statement(mem', st.line))), mem');
  }

  /** As written, a slash that starts no comment moves the offset on and stores nothing. */
  lemma SlashAsWritten(s: seq<char>, pos: nat, st: Lex, mem: seq<char>, st': Lex)
    requires pos + 1 < |s| && |st.buf| <= pos && |s| < |mem|
    requires s[pos] == '/' && !st.inQuotes && s[pos + 1] != '/' && s[pos + 1] != '*'
    requires st' == st.(started := true, buf := st.buf + ['/'], lastc := '/')
    ensures RunAsWritten(s, pos, st, mem) == RunAsWritten(s, pos + 2, st', mem)
  {
    var m := SlashStep(s, pos + 1, st);
    assert Step(s, pos, st) == m;
    SkipAsWritten(s, pos, st, mem, m);
    RunAsWrittenUnfold(s, pos, st, mem, m, mem);
  }

  /** As written, a '#' inside a started statement moves the offset on and stores nothing. */
  lemma HashAsWritten(s: seq<char>, pos: nat, st: Lex, mem: seq<char>, st': Lex)
    requires pos < |s| && |st.buf| <= pos && |s| < |mem|
    requires s[pos] == '#' && st.started
    requires st' == st.(buf := st.buf + ['#'], lastc := '#')
    ensures RunAsWritten(s, pos, st, mem) == RunAsWritten(s, pos + 1, st', mem)
  {
    var m := HashStep(st, pos + 1);
    HashDispatch(s, pos, st);
    SkipAsWritten(s, pos, st, mem, m);
    RunAsWrittenUnfold(s, pos, st, mem, m, mem);
  }

  /** The last statement of a file is `c/d;`, from offset `p` on, with `c` and `d` plain and `d`
      no comment opener. */
  predicate SlashStatementAt(s: seq<char>, p: nat)
  {
    |s| == p + 4 && IsPlain(s[p]) && s[p] != '\0' && s[p + 1] == '/' && IsPlain(s[p + 2]) && s[p + 2] != '*'
    && IsTerminator(s[p + 3])
  }

  /** `c/d;` as written: `c` goes to slot 0, the slash moves the offset to 2 without a store, and
      the terminator and its NUL go to slots 2 and 3. */
  lemma SlashStatementBuffer(s: seq<char>, p: nat, st: Lex, mem: seq<char>) returns (mem': seq<char>)
    requires SlashStatementAt(s, p) && |s| < |mem| && st.buf == [] && !st.inQuotes
    ensures mem' == mem[0 := s[p]][2 := s[p + 3]][3 := '\0']
    ensures RunAsWritten(s, p, st, mem) == [Statement(mem', st.line)]
  {
    var st1 := st.(started := true, buf := st.buf + [s[p]], lastc := s[p]);
    PlainAsWritten(s, p, st, mem, st1, mem[|st.buf| := s[p]]);
    mem' := SlashStatementRest(s, p, st1, mem[|st.buf| := s[p]]);
  }

  /** The slash and the terminator of `c/d;`, after `c`. */
  lemma SlashStatementRest(s: seq<char>, p: nat, st: Lex, mem: seq<char>) returns (mem': seq<char>)
    requires |s| == p + 4 && s[p + 1] == '/' && s[p + 2] != '/' && s[p + 2] != '*' && IsTerminator(s[p + 3])
    requires |s| < |mem| && |st.buf| == 1 && !st.inQuotes
    ensures mem' == mem[2 := s[p + 3]][3 := '\0']
    ensures RunAsWritten(s, p + 1, st, mem) == [Statement(mem', st.line)]
  {
    var st2 := st.(started := true, buf := st.buf + ['/'], lastc := '/');
    mem' := mem[|st2.buf| := s[p + 3]][|st2.buf| + 1 := '\0'];
    SlashAsWritten(s, p + 1, st, mem, st2);
    EndAsWritten(s, p + 3, st2, mem, st2.(buf := [], started := false, lastc := '\0'), mem');
  }

  /** `a/2;` and every file of that shape, as written: the slash's slot keeps the NUL it was
      allocated with, so `doRegex` sees only "a" (in the model it sees "a/;"). */
  lemma SlashSlotTruncates(s: seq<char>, mem: seq<char>)
    requires SlashStatementAt(s, 0) && |mem| == 5 && mem[1] == '\0'
    ensures Seen(RunAsWritten(s, 0, Start, mem)) == [Statement([s[0]], 1)]
  {
    var mem' := SlashStatementBuffer(s, 0, Start, mem);
    assert mem'[..1] == [s[0]];
    CStringEndsAt(mem', 1);
  }

  /** A file that opens with a two-character statement `ab;` before `c/d;`. */
  predicate StaleByteShape(s: seq<char>)
  {
    |s| == 7 && IsPlain(s[0]) && s[0] != '\0' && IsPlain(s[1]) && s[1] != '\0' && IsTerminator(s[2])
    && SlashStatementAt(s, 3)
  }

  /** A statement `ab;` from offset `p` on, with `a` and `b` plain, followed by four more
      characters. */
  predicate FirstStatementAt(s: seq<char>, p: nat)
  {
    |s| == p + 7 && IsPlain(s[p]) && IsPlain(s[p + 1]) && IsTerminator(s[p + 2])
  }

  /** The first statement `ab;` as written: stored at slots 0 to 2, with a NUL after it. */
  lemma FirstStatementBuffer(s: seq<char>, p: nat, st: Lex, mem: seq<char>, st': Lex) returns (mem': seq<char>)
    requires FirstStatementAt(s, p) && |s| < |mem|
    requires st.buf == [] && !st.inQuotes && st' == st.(buf := [], started := false, lastc := '\0')
    ensures mem' == mem[0 := s[p]][1 := s[p + 1]][2 := s[p + 2]][3 := '\0']
    ensures RunAsWritten(s, p, st, mem) == [Statement(mem', st.line)] + RunAsWritten(s, p + 3, st', mem')
  {
    var st1 := st.(started := true, buf := st.buf + [s[p]], lastc := s[p]);
    PlainAsWritten(s, p, st, mem, st1, mem[|st.buf| := s[p]]);
    mem' := FirstStatementRest(s, p, st1, mem[|st.buf| := s[p]], st');
  }

  /** The second character and the terminator of `ab;`, after `a`. */
  lemma FirstStatementRest(s: seq<char>, p: nat, st: Lex, mem: seq<char>, st': Lex) returns (mem': seq<char>)
    requires FirstStatementAt(s, p) && |s| < |mem| && |st.buf| == 1 && !st.inQuotes
    requires st' == st.(buf := [], started := false, lastc := '\0')
    ensures mem' == mem[1 := s[p + 1]][2 := s[p + 2]][3 := '\0']
    ensures RunAsWritten(s, p + 1, st, mem) == [Statement(mem', st.line)] + RunAsWritten(s, p + 3, st', mem')
  {
    var st2 := st.(started := true, buf := st.buf + [s[p + 1]], lastc := s[p + 1]);
    PlainAsWritten(s, p + 1, st, mem, st2, mem[|st.buf| := s[p + 1]]);
    mem' := FirstStatementEnd(s, p, st2, mem[|st.buf| := s[p + 1]], st');
  }

  /** The terminator of `ab;`, after `ab`. */
  lemma FirstStatementEnd(s: seq<char>, p: nat, st: Lex, mem: seq<char>, st': Lex) returns (mem': seq<char>)
    requires FirstStatementAt(s, p) && |s| < |mem| && |st.buf| == 2 && !st.inQuotes
    requires st' == st.(buf := [], started := false, lastc := '\0')
    ensures mem' == mem[2 := s[p + 2]][3 := '\0']
    ensures RunAsWritten(s, p + 2, st, mem) == [Statement(mem', st.line)] + RunAsWritten(s, p + 3, st', mem')
  {
    mem' := mem[|st.buf| := s[p + 2]][|st.buf| + 1 := '\0'];
    EndAsWritten(s, p + 2, st, mem, st', mem');
  }

  /** `xy;a/2;` and every file of that shape, as written: the slash's slot keeps a byte of the
      previous statement, so `doRegex` sees "ay;", text that is not in the file (in the model it
      sees "a/;"). */
  lemma SlashSlotKeepsStaleByte(s: seq<char>, mem: seq<char>)
    requires StaleByteShape(s) && |mem| == 8
    ensures Seen(RunAsWritten(s, 0, Start, mem)) == [Statement(s[..3], 1), Statement([s[3], s[1], s[6]], 1)]
  {
    var mem3 := FirstStatementBuffer(s, 0, Start, mem, Start);
    var mem7 := SlashStatementBuffer(s, 3, Start, mem3);
    assert mem3[..3] == s[..3];
    CStringEndsAt(mem3, 3);
    assert mem7[..3] == [s[3], s[1], s[6]];
    CStringEndsAt(mem7, 3);
    assert RunAsWritten(s, 0, Start, mem) == [Statement(mem3, 1), Statement(mem7, 1)];
  }

  /** The statement `c#d;` from offset `p` to the end, with `c` and `d` plain. */
  predicate HashStatementAt(s: seq<char>, p: nat)
  {
    |s| == p + 4 && IsPlain(s[p]) && s[p] != '\0' && s[p + 1] == '#' && IsPlain(s[p + 2]) && IsTerminator(s[p + 3])
  }

  /** `c#d;` as written: `c` goes to slot 0, the '#' moves the offset to 2 without a store, and
      the rest goes to slots 2 to 4. */
  lemma HashStatementBuffer(s: seq<char>, p: nat, st: Lex, mem: seq<char>) returns (mem': seq<char>)
    requires HashStatementAt(s, p) && |s| < |mem| && st.buf == [] && !st.inQuotes
    ensures mem' == mem[0 := s[p]][2 := s[p + 2]][3 := s[p + 3]][4 := '\0']
    ensures RunAsWritten(s, p, st, mem) == [Statement(mem', st.line)]
  {
    var st1 := st.(started := true, buf := st.buf + [s[p]], lastc := s[p]);
    PlainAsWritten(s, p, st, mem, st1, mem[|st.buf| := s[p]]);
    mem' := HashStatementRest(s, p, st1, mem[|st.buf| := s[p]]);
  }

  /** The '#' and what follows it in `c#d;`, after `c`: slot 1 is never written. */
  lemma HashStatementRest(s: seq<char>, p: nat, st: Lex, mem: seq<char>) returns (mem': seq<char>)
    requires HashStatementAt(s, p) && |s| < |mem| && |st.buf| == 1 && st.started && !st.inQuotes
    ensures mem' == mem[2 := s[p + 2]][3 := s[p + 3]][4 := '\0']
    ensures RunAsWritten(s, p + 1, st, mem) == [Statement(mem', st.line)]
  {
    var st2 := st.(buf := st.buf + ['#'], lastc := '#');
    HashAsWritten(s, p + 1, st, mem, st2);
    mem' := HashStatementEnd(s, p, st2, mem);
  }

  /** `d;` after `c#` in `c#d;`. */
  lemma HashStatementEnd(s: seq<char>, p: nat, st: Lex, mem: seq<char>) returns (mem': seq<char>)
    requires HashStatementAt(s, p) && |s| < |mem| && |st.buf| == 2 && !st.inQuotes
    ensures mem' == mem[2 := s[p + 2]][3 := s[p + 3]][4 := '\0']
    ensures RunAsWritten(s, p + 2, st, mem) == [Statement(mem', st.line)]
  {
    var st3 := st.(started := true, buf := st.buf + [s[p + 2]], lastc := s[p + 2]);
    var mem3 := mem[|st.buf| := s[p + 2]];
    mem' := mem3[|st3.buf| := s[p + 3]][|st3.buf| + 1 := '\0'];
    PlainAsWritten(s, p + 2, st, mem, st3, mem3);
    EndAsWritten(s, p + 3, st3, mem3, st3.(buf := [], started := false, lastc := '\0'), mem');
  }

  /** `a#b;` and every file of that shape, as written: the hash's slot keeps its NUL and `doRegex`
      sees only "a" (in the model it sees "a#b;"). */
  lemma HashSlotTruncates(s: seq<char>, mem: seq<char>)
    requires HashStatementAt(s, 0) && |mem| == 5 && mem[1] == '\0'
    ensures Seen(RunAsWritten(s, 0, Start, mem)) == [Statement([s[0]], 1)]
  {
    var mem' := HashStatementBuffer(s, 0, Start, mem);
    assert mem'[..1] == [s[0]];
    CStringEndsAt(mem', 1);
  }
}
