/** `processFile` (chunt.c:187-337) as an object whose fields are the loop's locals, writing the
    statement into the array `buffer` and handing each finished one to `doRegex`. Every method is
    proved to do what the matching transition of `Lexer.Step` says. */
module Scanning {
  import opened Wrappers
  import opened Strings
  import opened Lexer
  import Match
  import Growth

  class Scanner {
    const cfg: Match.Config
    const filename: seq<char>
    const input: seq<char>
    /** How much of the file `fgetc` has consumed. */
    var pos: nat
    /** `g_buffer`, shared by all files of a run. */
    var buffer: array<char>
    var idx: nat
    var lineNum: int
    var started: bool
    var inQuotes: bool
    var lastQuote: char
    var hash: bool
    var lastc: char
    /** What has been printed to standard output for this file. */
    var out: seq<char>
    /** The statements handed to `doRegex` so far. */
    ghost var trace: seq<Statement>

    /** Between iterations the buffer has room for the two bytes an iteration may write. */
    ghost predicate Valid()
      reads this
    {
      idx + Growth.MaxWrite <= buffer.Length && pos <= |input|
    }

    /** The locals as the pure lexer sees them. */
    ghost function State(): Lex
      reads this, buffer
      requires idx <= buffer.Length
    {
      Lex(buffer[..idx], lineNum, started, inQuotes, lastQuote, hash, lastc)
    }

    /** The object has made move `m`, starting from trace `trace0` and output `out0`. */
    ghost predicate Did(m: Move, trace0: seq<Statement>, out0: seq<char>)
      reads this, buffer
      requires idx <= buffer.Length
    {
      State() == m.st && pos == m.pos && trace == trace0 + ToSeq(m.emit)
      && out == out0 + Match.ReportEmitted(cfg, filename, m.emit)
    }

    constructor (cfg: Match.Config, filename: seq<char>, input: seq<char>, buffer: array<char>)
      requires Growth.MaxWrite <= buffer.Length
      ensures Valid() && State() == Start && pos == 0 && trace == [] && out == []
      ensures this.cfg == cfg && this.filename == filename && this.input == input && this.buffer == buffer
    {
      this.cfg := cfg;
      this.filename := filename;
      this.input := input;
      this.buffer := buffer;
      pos, idx, lineNum := 0, 0, 1;
      started, inQuotes, lastQuote, hash, lastc := false, false, '\0', false, '\0';
      out := [];
      trace := [];
    }

    /** The whole `fgetc` loop: afterwards every statement of the file has been handed to
        `doRegex`, in order, and its reports printed. */
    method ProcessFile()
      requires Valid() && pos == 0 && State() == Start && trace == [] && out == []
      modifies this, buffer
      ensures Valid() && pos == |input|
      ensures trace == Statements(input)
      ensures out == Match.ReportAll(cfg, filename, Statements(input))
      ensures buffer == old(buffer) || fresh(buffer)
      ensures buffer.Length >= old(buffer.Length)
    {
      while pos < |input|
        invariant Valid()
        invariant trace + Run(input, pos, State()) == Statements(input)
        invariant out == Match.ReportAll(cfg, filename, trace)
        invariant buffer == old(buffer) || fresh(buffer)
        invariant buffer.Length >= old(buffer.Length)
        decreases |input| - pos
      {
        ghost var m := Lexer.Step(input, pos, State());
        RunStep(input, pos, State(), m);
        assert trace + Run(input, pos, State()) == (trace + ToSeq(m.emit)) + Run(input, m.pos, m.st);
        Match.ReportAllSnoc(cfg, filename, trace, m.emit);
        Step();
      }
    }

    /** One iteration of the loop, followed by the buffer check. */
    method Step()
      requires Valid() && pos < |input|
      modifies this, buffer
      ensures Valid()
      ensures Did(Lexer.Step(input, old(pos), old(State())), old(trace), old(out))
      ensures buffer == old(buffer) || fresh(buffer)
      ensures buffer.Length >= old(buffer.Length)
    {
      Dispatch();
      if idx + Growth.MaxWrite > buffer.Length {
        ghost var st := State();
        Grow(Growth.GrownSize(idx, buffer.Length));
        assert buffer[..idx] == buffer[..old(buffer.Length)][..idx];
        assert State() == st;
      }
    }

    /** The `switch` on the character read. */
    method Dispatch()
      requires Valid() && pos < |input|
      modifies this, buffer
      ensures buffer == old(buffer) && idx <= buffer.Length
      ensures Did(Lexer.Step(input, old(pos), old(State())), old(trace), old(out))
    {
      var c := input[pos];
      pos := pos + 1;
      if c == '\r' {
        lastc := c;
      } else if c == '\n' {
        Newline();
      } else if c == ' ' || c == '\t' {
        Blank(c);
      } else if c == '\\' {
        Backslash();
      } else if c == '"' || c == '\'' || c == '`' {
        Quote(c);
      } else if c == '/' {
        Slash();
      } else if c == '#' {
        Hash();
      } else if c == '{' || c == '}' || c == ';' {
        Terminator(c);
      } else {
        started := true;
        Put(c);
        lastc := c;
      }
    }

    /** `g_buffer[idx++] = c`. */
    method Put(c: char)
      requires idx < buffer.Length
      modifies this`idx, buffer
      ensures idx == old(idx) + 1
      ensures buffer[..idx] == old(buffer[..idx]) + [c]
    {
      buffer[idx] := c;
      idx := idx + 1;
    }

    /** Ends the statement: writes its NUL, rewinds the offset and calls `doRegex` on it. */
    method Emit()
      requires idx < buffer.Length
      modifies this`idx, this`trace, this`out, buffer
      ensures idx == 0
      ensures trace == old(trace) + [Statement(old(buffer[..idx]), lineNum)]
      ensures out == old(out) + Match.ReportOne(cfg, filename, Statement(old(buffer[..idx]), lineNum))
    {
      var text := buffer[..idx];
      buffer[idx] := '\0';
      idx := 0;
      trace := trace + [Statement(text, lineNum)];
      var o := Match.DoRegex(cfg, filename, lineNum, CString(text));
      out := out + o;
    }

    /** `realloc`: a larger buffer holding the same bytes. */
    method Grow(size: nat)
      requires buffer.Length <= size
      modifies this`buffer
      ensures fresh(buffer) && buffer.Length == size
      ensures buffer[..old(buffer.Length)] == old(buffer[..])
    {
      var grown := new char[size](_ => '\0');
      var i := 0;
      while i < buffer.Length
        invariant i <= buffer.Length <= grown.Length == size
        invariant grown[..i] == buffer[..i]
        invariant buffer[..] == old(buffer[..])
      {
        grown[i] := buffer[i];
        i := i + 1;
      }
      assert buffer[..buffer.Length] == buffer[..];
      buffer := grown;
    }

    method Newline()
      requires Valid() && 0 < pos
      modifies this, buffer
      ensures buffer == old(buffer) && idx + Growth.MaxWrite <= buffer.Length
      ensures Did(NewlineStep(old(State()), old(pos)), old(trace), old(out))
    {
      if hash {
        EndDirective();
      } else {
        lastc := '\n';
        lineNum := lineNum + 1;
      }
    }

    /** A newline ending a directive line (chunt.c:207-215): the line is emitted with the line
        of the newline that ends it, and the statement starts over on the next line. */
    method EndDirective()
      requires Valid() && hash
      modifies this, buffer
      ensures buffer == old(buffer) && idx == 0
      ensures Did(NewlineStep(old(State()), old(pos)), old(trace), old(out))
    {
      ghost var st := State();
      started, hash := false, false;
      Emit();
      lastc := '\0';
      lineNum := lineNum + 1;
      assert NewlineStep(st, pos) == Move(State(), pos, Some(Statement(st.buf, st.line)));
    }

    method Blank(c: char)
      requires Valid() && IsBlank(c)
      modifies this, buffer
      ensures buffer == old(buffer) && idx <= buffer.Length
      ensures Did(BlankStep(old(State()), c, old(pos)), old(trace), old(out))
    {
      if started {
        if lastc != ' ' && lastc != '\t' {
          Put(c);
        }
      }
      lastc := c;
    }

    method Backslash()
      requires Valid() && 0 < pos
      modifies this, buffer
      ensures buffer == old(buffer) && idx <= buffer.Length
      ensures Did(BackslashStep(input, old(pos), old(State())), old(trace), old(out))
    {
      started := true;
      if pos < |input| {
        var nextc := input[pos];
        pos := pos + 1;
        if nextc != '\r' && nextc != '\n' {
          Put('\\');
          Put(nextc);
          lastc := nextc;
        }
      }
    }

    method Quote(c: char)
      requires Valid() && IsQuote(c)
      modifies this, buffer
      ensures buffer == old(buffer) && idx <= buffer.Length
      ensures Did(QuoteStep(old(State()), c, old(pos)), old(trace), old(out))
    {
      started := true;
      Put(c);
      if !inQuotes {
        inQuotes, lastQuote := true, c;
      } else if c == lastQuote {
        inQuotes, lastQuote := false, '\0';
      }
      lastc := c;
    }

    method Slash()
      requires Valid() && 0 < pos
      modifies this, buffer
      ensures buffer == old(buffer) && idx <= buffer.Length
      ensures Did(SlashStep(input, old(pos), old(State())), old(trace), old(out))
    {
      started := true;
      if inQuotes {
        Put('/');
        lastc := '/';
      } else if pos < |input| && input[pos] == '/' {
        pos := SkipLine(input, pos + 1);
        lineNum := lineNum + 1;
      } else if pos < |input| && input[pos] == '*' {
        pos := pos + 1;
        SkipBlockComment();
      } else {
        if pos < |input| {
          pos := pos + 1;
        }
        Put('/');
        lastc := '/';
      }
    }

    /** The block-comment loop (chunt.c:276-289); `prev` is `_ch`. */
    method SkipBlockComment()
      requires pos <= |input|
      modifies this`pos, this`lineNum
      ensures (pos, lineNum) == SkipBlock(input, old(pos), false, old(lineNum))
    {
      var prev := '\0';
      while pos < |input|
        invariant old(pos) <= pos <= |input|
        invariant SkipBlock(input, pos, prev == '*', lineNum) == SkipBlock(input, old(pos), false, old(lineNum))
        decreases |input| - pos
      {
        var ch := input[pos];
        pos := pos + 1;
        if prev == '*' && ch == '/' {
          return;
        }
        if ch == '\n' {
          lineNum := lineNum + 1;
        }
        prev := ch;
      }
    }

    method Hash()
      requires Valid()
      modifies this, buffer
      ensures buffer == old(buffer) && idx <= buffer.Length
      ensures Did(HashStep(old(State()), old(pos)), old(trace), old(out))
    {
      if !started {
        started, hash := true, true;
      } else {
        Put('#');
      }
      lastc := '#';
    }

    method Terminator(c: char)
      requires Valid() && IsTerminator(c)
      modifies this, buffer
      ensures buffer == old(buffer) && idx <= buffer.Length
      ensures Did(TerminatorStep(old(State()), c, old(pos)), old(trace), old(out))
    {
      ghost var text := State().buf + [c];
      Put(c);
      if !inQuotes {
        assert buffer[..idx] == text;
        started := false;
        Emit();
        lastc := '\0';
        assert State() == TerminatorStep(old(State()), c, pos).st;
      } else {
        lastc := c;
      }
    }
  }
}
