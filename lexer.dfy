/** The statement extractor of `processFile` (chunt.c:187-337) as a pure transition function.
    A `Lex` value holds the locals that the C loop carries from one character to the next; `Step`
    consumes the character at `pos` (and any lookahead the C code reads with `fgetc`/`fgets`) and
    says where reading resumes and which statement, if any, is handed to the matcher. */
module Lexer {
  import opened Wrappers
  import opened Strings

  predicate IsQuote(c: char) { c == '"' || c == '\'' || c == '`' }

  predicate IsTerminator(c: char) { c == ';' || c == '{' || c == '}' }

  predicate IsBlank(c: char) { c == ' ' || c == '\t' }

  /** The lexer locals of `processFile`: the statement text so far (`g_buffer[0..idx]`), `lineNum`,
      `bStarted`, `bInQuotes`, `lastQuote`, `bHash` and `lastc`. */
  datatype Lex = Lex(buf: seq<char>, line: int, started: bool, inQuotes: bool,
                     lastQuote: char, hash: bool, lastc: char)

  /** The locals as `processFile` initialises them (chunt.c:188-191). */
  const Start: Lex := Lex([], 1, false, false, '\0', false, '\0')

  /** The locals after a first character `c` that none of the cases of the `switch` names. */
  function Begun(c: char): Lex
  {
    Lex([c], 1, true, false, '\0', false, c)
  }

  /** What `doRegex` is called with: the statement text and the line it was emitted on. */
  datatype Statement = Statement(text: seq<char>, line: int)

  /** One iteration of the loop: the new locals, where reading resumes, the statement emitted. */
  datatype Move = Move(st: Lex, pos: nat, emit: Option<Statement>)

  /** Where `fgets` leaves the stream: just past the first newline at or after `p`, or the end. */
  function SkipLine(s: seq<char>, p: nat): (q: nat)
    requires p <= |s|
    ensures p <= q <= |s|
    ensures p < |s| ==> p < q
    ensures forall i | p <= i < q - 1 :: s[i] != '\n'
    ensures q == |s| || s[q - 1] == '\n'
    decreases |s| - p
  {
    if p == |s| then p else if s[p] == '\n' then p + 1 else SkipLine(s, p + 1)
  }

  /** The block-comment loop stops at position `i` when `s[i]` is a slash and the character read
      before it was a star; `star` says whether that held of the character read before `p`. */
  predicate ClosesAt(s: seq<char>, p: nat, star: bool, i: nat)
    requires p <= i < |s|
  {
    s[i] == '/' && (if i == p then star else s[i - 1] == '*')
  }

  /** The block-comment loop (chunt.c:276-289): reading resumes just past the first closing slash,
      or at the end of input, and the line counter has grown by every newline consumed. */
  function SkipBlock(s: seq<char>, p: nat, star: bool, line: int): (r: (nat, int))
    requires p <= |s|
    ensures p <= r.0 <= |s|
    ensures r.1 == line + Count('\n', s[p..r.0])
    ensures forall i | p <= i < r.0 - 1 :: !ClosesAt(s, p, star, i)
    ensures r.0 == |s| || (p < r.0 && ClosesAt(s, p, star, r.0 - 1))
    decreases |s| - p
  {
    if p == |s| then (p, line)
    else if star && s[p] == '/' then (p + 1, line)
    else
      var r := SkipBlock(s, p + 1, s[p] == '*', if s[p] == '\n' then line + 1 else line);
      assert s[p..r.0][1..] == s[p + 1..r.0];
      assert forall i | p < i < |s| :: ClosesAt(s, p + 1, s[p] == '*', i) == ClosesAt(s, p, star, i);
      r
  }

  /** '\r' (chunt.c:203-204): dropped; it still becomes `lastc`. */
  function CarriageReturnStep(st: Lex, p: nat): Move
  {
    Move(st.(lastc := '\r'), p, None)
  }

  /** '\n' (chunt.c:206-216): ends a directive statement, then counts the line. */
  function NewlineStep(st: Lex, p: nat): Move
  {
    if st.hash then
      Move(st.(buf := [], started := false, hash := false, line := st.line + 1, lastc := '\0'),
           p, Some(Statement(st.buf, st.line)))
    else
      Move(st.(line := st.line + 1, lastc := '\n'), p, None)
  }

  /** Space or tab (chunt.c:219-226): kept once the statement has started and `lastc` is no blank. */
  function BlankStep(st: Lex, c: char, p: nat): Move
  {
    var keep := st.started && !IsBlank(st.lastc);
    Move(st.(buf := if keep then st.buf + [c] else st.buf, lastc := c), p, None)
  }

  /** Backslash (chunt.c:230-240), whose lookahead is `s[p]`: a continuation drops both characters;
      any other character is kept after the backslash. A backslash at the end of input adds nothing
      (the statement is never emitted in that case). */
  function BackslashStep(s: seq<char>, p: nat, st: Lex): Move
    requires 0 < p <= |s|
  {
    if p == |s| then Move(st.(started := true), p, None)
    else if s[p] == '\r' || s[p] == '\n' then Move(st.(started := true), p + 1, None)
    else Move(st.(started := true, buf := st.buf + ['\\', s[p]], lastc := s[p]), p + 1, None)
  }

  /** A quote (chunt.c:243-256): kept; opens a literal when none is open, closes the open one when
      it is its delimiter. */
  function QuoteStep(st: Lex, c: char, p: nat): Move
  {
    var st' := st.(started := true, buf := st.buf + [c], lastc := c);
    if !st.inQuotes then Move(st'.(inQuotes := true, lastQuote := c), p, None)
    else if c == st.lastQuote then Move(st'.(inQuotes := false, lastQuote := '\0'), p, None)
    else Move(st', p, None)
  }

  /** Slash (chunt.c:261-294), whose lookahead is `s[p]`: outside a literal a second slash or a star starts
      comments that leave no text and keep `lastc`; any other lookahead character is consumed and
      lost, and the slash is kept. */
  function SlashStep(s: seq<char>, p: nat, st: Lex): Move
    requires 0 < p <= |s|
  {
    var st' := st.(started := true);
    if st.inQuotes then Move(st'.(buf := st.buf + ['/'], lastc := '/'), p, None)
    else if p < |s| && s[p] == '/' then Move(st'.(line := st.line + 1), SkipLine(s, p + 1), None)
    else if p < |s| && s[p] == '*' then
      var r := SkipBlock(s, p + 1, false, st.line);
      Move(st'.(line := r.1), r.0, None)
    else Move(st'.(buf := st.buf + ['/'], lastc := '/'), if p < |s| then p + 1 else p, None)
  }

  /** '#' (chunt.c:298-307): before the statement has started it enters directive mode and is not
      kept; later it is kept. */
  function HashStep(st: Lex, p: nat): Move
  {
    if !st.started then Move(st.(started := true, hash := true, lastc := '#'), p, None)
    else Move(st.(buf := st.buf + ['#'], lastc := '#'), p, None)
  }

  /** ';', '{' or '}' (chunt.c:309-320): kept; outside a literal it ends the statement, which is
      emitted with the current line, and the offset and started flag are reset. */
  function TerminatorStep(st: Lex, c: char, p: nat): Move
  {
    if st.inQuotes then Move(st.(buf := st.buf + [c], lastc := c), p, None)
    else Move(st.(buf := [], started := false, lastc := '\0'), p, Some(Statement(st.buf + [c], st.line)))
  }

  /** Any other character (chunt.c:323-325): kept, and the statement has started. */
  function OtherStep(st: Lex, c: char, p: nat): Move
  {
    Move(st.(started := true, buf := st.buf + [c], lastc := c), p, None)
  }

  /** One iteration of the `fgetc` loop of `processFile`, dispatching on the character read. */
  function Step(s: seq<char>, pos: nat, st: Lex): (r: Move)
    requires pos < |s|
    ensures pos < r.pos <= |s|
  {
    var c := s[pos];
    var p := pos + 1;
    if c == '\r' then CarriageReturnStep(st, p)
    else if c == '\n' then NewlineStep(st, p)
    else if IsBlank(c) then BlankStep(st, c, p)
    else if c == '\\' then BackslashStep(s, p, st)
    else if IsQuote(c) then QuoteStep(st, c, p)
    else if c == '/' then SlashStep(s, p, st)
    else if c == '#' then HashStep(st, p)
    else if IsTerminator(c) then TerminatorStep(st, c, p)
    else OtherStep(st, c, p)
  }

  /** The statements emitted from position `pos` on, in order, starting from locals `st`. */
  function Run(s: seq<char>, pos: nat, st: Lex): seq<Statement>
    requires pos <= |s|
    decreases |s| - pos
  {
    if pos == |s| then []
    else
      var r := Step(s, pos, st);
      ToSeq(r.emit) + Run(s, r.pos, r.st)
  }

  /** The run from `pos` is the statement of the turn there followed by the run after it. */
  lemma RunStep(s: seq<char>, pos: nat, st: Lex, m: Move)
    requires pos < |s| && m == Step(s, pos, st)
    ensures Run(s, pos, st) == ToSeq(m.emit) + Run(s, m.pos, m.st)
  {
  }

  /** The statements `processFile` hands to `doRegex` for a file with contents `s`. */
  function Statements(s: seq<char>): seq<Statement>
  {
    Run(s, 0, Start)
  }
}
