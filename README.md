# chunt: statement extraction and reporting, in Dafny

`chunt` is a small C tool (`chunt.c`) that reads C-like source files one character at a time,
cuts them into *statements* and checks each statement against a list of regular expressions.
It reports every match as a text line (`file:line:statement`) or as an HTML table row.

This project models the three functions that do the work:

- `processFile`: the lexer state machine. It handles blanks, line continuations, quoted
  literals, line and block comments, directive lines that start with `#`, and the terminators
  `;`, `{` and `}`. It also grows the statement buffer.
- `doRegex`: reports a statement once for each pattern it matches, in pattern order.
- `output`: renders one report, with `<` and `>` escaped in HTML mode.

The model comes in two forms:

- **Lexer** (`lexer.dfy`) is the pure specification. `Step` is one turn of the `while (fgetc)`
  loop, written as one function per `case` of the `switch`. `Statements(s)` is the list of
  `(text, line)` pairs that `processFile` hands to `doRegex` for a file holding `s`.
- **Scanning** (`scanner.dfy`) is the imperative form. `Scanner` is a class whose fields are the
  locals of `processFile`, and whose statement buffer is an `array<char>` grown by 1024 bytes.
  It has one method per `case`, except that the `'\r'` case and the `default` case are
  handled inline in `Dispatch`. Each method is proved to make exactly the move that `Step`
  prescribes. `ProcessFile` is proved to hand `doRegex` exactly `Statements(input)` and to print
  exactly the reports for them.

The other modules are:

- **Match** (`matcher.dfy`): `doRegex`.
- **Report** (`report.dfy`): `output`.
- **Driver** (`driver.dfy`): the file loop of `main`.
- **Growth** (`growth.dfy`): the growth rule for the buffer.
- **Strings** (`strings.dfy`): C strings and `%d`.
- **LexerProps** (`lexer_props.dfy`): properties of the lexer over all inputs.
- **Scenarios** (`scenarios.dfy`): worked examples of the lexer's less obvious behaviour.
- **Findings** (`findings.dfy`): `processFile` as written, storing into a memory image of
  `g_buffer`, for the defects listed below (its differences from the C are under "Left out").

Regular-expression matching is a parameter of the model. `Config.matches` decides whether a
compiled pattern matches a text; it stands in for `regexec`.

The model follows the code in these places, where one might expect otherwise:

- **Line numbers after block comments.** In `foo(); /* line2`+newline+`line3 */ bar();` the comment
  holds one newline, so `bar();` is reported on line 2, not line 3. Each newline inside a comment adds
  one (chunt.c:285-286). See `Scenarios.BlockCommentCountsItsNewlines`.
- **Terminators on directive lines.** A terminator on a directive line does not clear the
  directive flag (chunt.c:313-319). The newline then emits a second statement
  holding whatever followed the terminator on that line (empty when nothing did). See
  `Scenarios.DirectiveEmitsAtTerminatorAndNewline`.
- **The character after a slash.** A slash that starts no comment consumes the character after
  it, and that character is lost (chunt.c:266, 290-292). See `Scenarios.LookaheadAfterSlashIsLost`.
- **Blank collapsing.** Blanks are collapsed by comparing with the last character *read*
  (`lastc`), not the last one stored. Comments leave `lastc` unchanged (chunt.c:269, 275). See
  `Scenarios.CommentKeepsPreviousCharacter`.
- **Comments start a statement.** A comment sets `bStarted` (chunt.c:262), so a `#` after a
  leading comment is text. See `Scenarios.CommentStartsTheStatement`.

## Model

| member | source | states |
|---|---|---|
| Lexer.SkipLine | chunt.c:267-271 | a line comment ends just after the first newline, or at end of file; no newline is skipped before that point |
| Lexer.SkipBlock | chunt.c:272-289 | a block comment ends at the first `/` preceded by a `*` read inside the comment, or at end of file; the line counter grows by exactly the number of newlines consumed |
| Lexer.Step | chunt.c:199-326 | every turn of the loop consumes at least one character and never reads past the end of the file |
| Lexer.RunStep | chunt.c:199-335 | the statements from a position on are those the turn there emits followed by those from where the turn stops; `processFile`'s loop invariant rests on it |
| Lexer.CarriageReturnStep | chunt.c:203-204 | a carriage return is dropped; it only becomes `lastc` |
| Lexer.NewlineStep | chunt.c:206-216 | a newline counts the line; on a directive line it first emits the statement with the current line and resets the buffer, started and directive flags, and `lastc` becomes NUL, otherwise `lastc` becomes the newline |
| Lexer.BlankStep | chunt.c:219-226 | a blank is stored only when the statement has started and `lastc` is no blank; it always becomes `lastc` |
| Lexer.BackslashStep | chunt.c:230-240 | the statement has started; a backslash before `\r` or `\n` consumes both and keeps `lastc`; otherwise the backslash and the next character are stored and that character becomes `lastc` |
| Lexer.QuoteStep | chunt.c:243-256 | a quote is stored and starts the statement; it opens a literal when none is open and closes the open one only when it is its delimiter |
| Lexer.SlashStep | chunt.c:261-294 | a slash starts the statement; inside a literal it is stored; outside, `//` skips the line and counts it, `/*` skips the block and counts its newlines, both keeping `lastc`; otherwise the slash is stored and the lookahead is consumed |
| Lexer.HashStep | chunt.c:298-307 | a `#` before the statement has started opens a directive line without storing anything; a later `#` is stored; it becomes `lastc` |
| Lexer.TerminatorStep | chunt.c:309-320 | a terminator is stored; outside a literal the statement including it is emitted with the current line, and the buffer, started flag and `lastc` are reset, while the directive flag is kept |
| Lexer.OtherStep | chunt.c:323-325 | any other character is stored, starts the statement and becomes `lastc` |
| Lexer.Run | chunt.c:199-335 | the statements emitted from a position and lexer state up to end of file, in order; nothing is emitted for an unterminated tail |
| Lexer.Statements | chunt.c:187-337 | the statements `processFile` hands to `doRegex` for a file, starting from the initial locals |
| Scanning.Scanner.constructor | chunt.c:188-191 | the locals start as `lineNum = 1`, nothing started, not quoted, not a directive, empty buffer |
| Scanning.Scanner.ProcessFile | chunt.c:187-337 | after the whole file is read, the statements handed to `doRegex` are exactly `Statements(input)`, and the output is exactly their reports in order; the buffer is kept or replaced by a larger one |
| Scanning.Scanner.Step | chunt.c:199-334 | one turn of the loop makes the move `Lexer.Step` prescribes, then grows the buffer so the next turn's two writes fit |
| Scanning.Scanner.Dispatch | chunt.c:200-326 | the `switch` sends each character to the case that makes the move `Lexer.Step` prescribes |
| Scanning.Scanner.Put | chunt.c:325 | `g_buffer[idx++] = c` appends `c` to the statement text and leaves the rest of it unchanged |
| Scanning.Scanner.Emit | chunt.c:312-318 | a statement is NUL-terminated and handed to `doRegex` with the current line; the trace and the output grow by that statement and its reports, and the offset returns to 0 |
| Scanning.Scanner.Grow | chunt.c:329-332 | `realloc` yields a buffer of the requested size whose prefix is the old buffer's contents |
| Scanning.Scanner.Newline | chunt.c:206-216 | a newline counts a line and, on a directive line, ends the statement |
| Scanning.Scanner.EndDirective | chunt.c:207-215 | a directive line is emitted with the line number of the newline that ends it, then the counter moves to the next line and the next statement starts fresh |
| Scanning.Scanner.Blank | chunt.c:219-226 | a blank is kept only inside a started statement and only when the previous character read was no blank |
| Scanning.Scanner.Backslash | chunt.c:230-240 | a backslash and its successor are kept together, except that a backslash before a line break joins the lines and keeps nothing |
| Scanning.Scanner.Quote | chunt.c:243-256 | a quote is kept; it opens a literal when none is open and closes only a literal opened by the same quote |
| Scanning.Scanner.Slash | chunt.c:261-294 | a slash inside a literal is kept; outside one, `//` and `/*` skip a comment and count its lines, and any other slash is kept while its lookahead character is lost |
| Scanning.Scanner.SkipBlockComment | chunt.c:276-289 | the comment loop stops where `Lexer.SkipBlock` does, with the same line count |
| Scanning.Scanner.Hash | chunt.c:298-307 | a `#` before the statement has started opens a directive line and is not kept; a later `#` is kept |
| Scanning.Scanner.Terminator | chunt.c:309-320 | a terminator is kept; outside a literal it ends the statement, which goes to `doRegex` with the current line |
| Growth.GrownSize | chunt.c:327-332 | the buffer never shrinks, grows by exactly 1024 when it grows, and always leaves room for the two bytes one turn writes |
| Match.MatchingIndicesSpec | chunt.c:179-183 | the patterns reported for a statement are exactly those that match it, each once, in list order |
| Match.MatchingIndices | chunt.c:178-184 | the indices of the patterns that match a text, scanning the list in order |
| Match.MatchingIndicesSnoc | chunt.c:179-183 | looking at one more pattern adds one report exactly when that pattern matches |
| Match.DoRegex | chunt.c:176-185 | `doRegex` prints the statement's row once per matching pattern and nothing else |
| Match.RepeatLength | chunt.c:176-185 | k reports of a row take k times its length; nothing is printed exactly when no pattern matches or the row is empty |
| Match.ReportAllSnoc | chunt.c:318 | the output of a file grows by the reports of each statement as it is emitted |
| Match.NoPatternsNoReports | chunt.c:179 | with no patterns, nothing is reported whatever the file holds |
| Match.ReportOne | chunt.c:176-185 | what `doRegex` prints for one statement: its row, for the C string of the buffer, once per matching pattern |
| Match.ReportAll | chunt.c:199-335 | what a file's statements print, statement by statement in emission order |
| Report.EscapeSpec | chunt.c:146-161 | the escaped text holds no `<` or `>`, is three bytes longer per escaped character, and equals the text when there is nothing to escape |
| Report.EscapeAppend | chunt.c:146-161 | escaping works character by character, so it distributes over concatenation |
| Report.UnescapeEscape | chunt.c:146-161 | text without ampersands is recovered exactly from its escaped form |
| Report.EscapeKeepsEntities | chunt.c:147-160 | ampersands are not escaped: `<` and the literal text `&lt;` render the same, so escaping is not injective on text that holds `&` |
| Report.EscapeChar | chunt.c:147-160 | `<` becomes `&lt;`, `>` becomes `&gt;`, and any other character is kept |
| Report.Escape | chunt.c:146-161 | the statement cell: each character escaped in turn |
| Report.TextLine | chunt.c:134 | the text-mode line `file:line:statement` followed by a newline |
| Report.HtmlHeader | chunt.c:139 | the row header: the path cell `basedir/file` and the `chunt://basedir/file:line` link cell, then the opening of the statement cell |
| Report.Row | chunt.c:132-173 | the bytes `output` prints: the text line, or header, escaped statement and `</td></tr>` |
| Report.PrintEscaped | chunt.c:142-169 | flushing the scratch buffer in chunks prints the row header, the fully escaped statement and the row trailer, with no byte lost or repeated at a flush |
| Report.Output | chunt.c:129-174 | `output` prints the text line or the HTML row for the statement; the unescaped HTML branch prints the same bytes as the escaping one |
| Report.TextLineReadsBack | chunt.c:134 | a text-mode line splits back into file, line number and statement whenever the file name holds no colon |
| Report.HtmlCellIsEscaped | chunt.c:139-171 | an HTML row is the header, the statement cell and the trailer; the cell holds no `<` or `>`, and a statement without ampersands reads back from it |
| Strings.CString | chunt.c:180 | `regexec` and `printf("%s")` see the statement up to its first NUL: a NUL-free prefix that ends at a NUL or at the end |
| Strings.DecimalRoundTrip | chunt.c:134 | `%d` prints an optional minus sign and digits that read back as the same number |
| Driver.OpenError | chunt.c:195 | the warning for a file that cannot be opened is not empty |
| Driver.ProcessFile | chunt.c:193-197 | a file that cannot be opened produces its warning and no reports; an opened file produces the reports of its statements and no warning |
| Driver.ProcessFiles | chunt.c:351-355 | files are processed in command-line order; standard output is the concatenation of their reports, and the file loop's standard error that of their open warnings |
| Driver.AllReportsAppend | chunt.c:351-355 | the output of a run over two lists of files is the output of the first list followed by that of the second |
| Driver.UnopenedFilesAreSilent | chunt.c:194-197 | files that cannot be opened produce no reports |
| Driver.WarningsOnlyForUnopened | chunt.c:194-197 | the file loop's standard error is empty if and only if every file could be opened |
| Driver.NoPatternsNoReports | chunt.c:176-185 | with no patterns, a whole run prints nothing to standard output |
| Driver.FileReport | chunt.c:187-337 | an opened file contributes the reports of its statements to standard output; an unopened one contributes nothing |
| Driver.FileWarning | chunt.c:193-197 | an unopened file contributes its open error to standard error; an opened one contributes nothing |
| Driver.AllReports | chunt.c:351-355 | standard output of the file loop: each file's reports in command-line order |
| Driver.AllWarnings | chunt.c:351-355 | the file loop's standard error: each unopened file's warning in command-line order |
| LexerProps.StepKeepsQuoting | chunt.c:199-326 | each turn keeps `bInQuotes`/`lastQuote` in step with the quotes in the statement text read so far |
| LexerProps.BlankKeepsQuoting | chunt.c:219-226 | blanks do not change the quoting state |
| LexerProps.BackslashKeepsQuoting | chunt.c:230-240 | an escaped character never opens or closes a literal |
| LexerProps.QuoteKeepsQuoting | chunt.c:243-256 | a quote changes the quoting state exactly as reading it in the text does |
| LexerProps.SlashKeepsQuoting | chunt.c:261-294 | slashes and comments do not change the quoting state |
| LexerProps.HashKeepsQuoting | chunt.c:298-307 | `#` does not change the quoting state |
| LexerProps.TerminatorKeepsQuoting | chunt.c:309-320 | a terminator outside a literal ends a statement whose text is well split; inside one it is text |
| LexerProps.OtherKeepsQuoting | chunt.c:323-325 | ordinary characters do not change the quoting state |
| LexerProps.RunKeepsQuoting | chunt.c:199-335 | every statement emitted from any reachable state is well split, read from the literal state in which it began |
| LexerProps.StatementsNeverSplitLiterals | chunt.c:243-256 | no statement holds a terminator outside a literal except as its last character; terminators inside literals never end a statement |
| LexerProps.StepWithoutDirectives | chunt.c:309-320 | in a file without `#`, each turn keeps the quoting invariant, and anything it emits ends at its only unquoted terminator |
| LexerProps.RunWithoutDirectives | chunt.c:199-335 | in a file without `#` from some position on, every statement emitted from there ends at its only unquoted terminator |
| LexerProps.StatementsEndAtTheirOnlyTerminator | chunt.c:309-320 | in a file without `#`, every statement ends with `;`, `{` or `}` and holds no other terminator outside a literal |
| LexerProps.UnterminatedTailIsDropped | chunt.c:199-336 | input with no terminator and no newline emits nothing, so an unterminated last statement is silently dropped |
| LexerProps.RunLinesAscend | chunt.c:199-335 | statements are emitted with line numbers that never decrease and never fall below the current line |
| LexerProps.StatementLinesAscend | chunt.c:190 | the line numbers of a file's statements start at 1 or more and never decrease |
| LexerProps.StepCountsLines | chunt.c:199-326 | for a turn that stops before the end of input, the line counter has grown by the newlines consumed, less one for a newline lost as a lookahead (a `//` comment at end of file still counts a line) |
| LexerProps.BackslashCountsLines | chunt.c:230-240 | for a turn that stops before the end of input, a line continuation does not count its newline |
| LexerProps.SlashCountsLines | chunt.c:261-294 | for a turn that stops before the end of input, a line comment counts its one newline, a block comment counts every newline inside it, and a newline lost after a slash is not counted |
| LexerProps.CommentsLeaveNoText | chunt.c:265-289 | a comment adds no text, emits nothing and changes nothing but the started flag and the line count |
| LexerProps.StepExtends | chunt.c:199-326 | a turn reads the same from a longer file, unless it stopped at the end and emitted nothing |
| LexerProps.BackslashExtends | chunt.c:230-240 | a backslash reads the same lookahead from a longer file, unless it stood last |
| LexerProps.SlashExtends | chunt.c:261-294 | a slash or a comment reads the same from a longer file, unless it ran up to the end |
| LexerProps.StepWithoutLookahead | chunt.c:200-326 | except for a backslash or a slash, a turn depends only on the character it reads |
| LexerProps.SkipLineExtends | chunt.c:267-271 | a line comment that ends before the end of the file ends at the same place in any longer file |
| LexerProps.SkipBlockExtends | chunt.c:272-289 | a block comment that closes before the end of the file closes at the same place in any longer file |
| LexerProps.RunExtends | chunt.c:199-335 | reading more input never changes or takes back a statement already emitted |
| LexerProps.StatementsAreStreamed | chunt.c:199-335 | the statements of a file are a prefix of those of any file that begins with it |
| LexerProps.StepKeepsNulFree | chunt.c:199-326 | a file without NUL bytes never puts a NUL into a statement |
| LexerProps.RunIsSeenWhole | chunt.c:180 | in a NUL-free file `regexec` sees every emitted statement whole |
| LexerProps.StatementsAreSeenWhole | chunt.c:180 | in a NUL-free file, `doRegex` and `output` see each statement whole (with the slash and `#` stores corrected) |
| Scenarios.LookaheadAfterSlashIsLost | chunt.c:261-294 | `a/;b;` gives the single statement `a/b;`: the `;` after the slash is consumed as its lookahead |
| Scenarios.SlashIsKept | chunt.c:290-292 | `a/2;` gives `a/;`: the slash is kept and the `2` is lost |
| Scenarios.HashIsKept | chunt.c:304-306 | `a#b;` gives `a#b;` |
| Scenarios.DirectiveEmitsAtTerminatorAndNewline | chunt.c:206-320 | `#x;\n` gives `x;` and then an empty statement, both on line 1 |
| Scenarios.LineCommentHidesDirectiveEnd | chunt.c:206-271 | `#x //c`+newline+`y;` gives the single statement `x y;` on line 2: the line comment swallows the newline that would have ended the directive, which runs on to the terminator |
| Scenarios.BlockCommentCountsItsNewlines | chunt.c:272-289 | `a/*`+newline+`*/;` gives `a;` on line 2: the comment's newline is counted and a statement carries the line of its terminator |
| Scenarios.QuotedTerminatorIsText | chunt.c:243-320 | `';';` gives one statement: the quoted `;` is text |
| Scenarios.ContinuationJoinsLines | chunt.c:230-240 | `a\`+newline+`b;` gives `ab;` on line 1 |
| Scenarios.CommentStartsTheStatement | chunt.c:261-307 | `/**/#x;` gives `#x;`: after a leading comment, `#` is text |
| Scenarios.CommentKeepsPreviousCharacter | chunt.c:219-289 | `a /**/ b;` gives `a b;`: the blanks on both sides of a comment collapse into one |
| Findings.StepAsWritten | chunt.c:199-326 | the turn as written: the same move as `Lexer.Step`, with the statement bytes stored into a fixed memory image that has the buffer's length |
| Findings.RunAsWritten | chunt.c:199-335 | the buffers `doRegex` receives as written, turn by turn, each turn storing into the memory left by the previous one |
| Findings.TerminatorWritesPastGuard | chunt.c:309-332 | with the offset one short of the buffer size, the check as written does not grow the buffer, and a terminator then stores its NUL at index `size`, one past the end |
| Findings.StepBound | chunt.c:199-326 | a turn writes at most two bytes; it extends the statement text or emits that text plus the terminator and resets the buffer |
| Findings.StepAsWrittenAgrees | chunt.c:199-326 | apart from a slash or `#`, a turn as written makes the same move and hands `doRegex` the same C string |
| Findings.AsWrittenAgreesWithoutSkips | chunt.c:199-335 | in a file without `/` or `#`, the code as written hands `doRegex` the same C strings as the corrected lexer |
| Findings.StoredReadsAs | chunt.c:312-318 | after the final NUL is stored, the buffer reads as the statement text |
| Findings.PlainAsWritten | chunt.c:323-325 | an ordinary character is stored at the offset |
| Findings.EndAsWritten | chunt.c:309-320 | a terminator and a NUL are stored, and the statement is emitted |
| Findings.SlashAsWritten | chunt.c:291 | as written, a slash that starts no comment advances the offset without storing anything |
| Findings.HashAsWritten | chunt.c:305 | as written, a later `#` advances the offset without storing anything |
| Findings.SlashSlotTruncates | chunt.c:291 | as written, `a/2;` in a fresh buffer reaches `doRegex` as `a`: the skipped slot is a NUL from `calloc` |
| Findings.SlashSlotKeepsStaleByte | chunt.c:291 | as written, `ab;c/d;` reaches `doRegex` as `ab;` and then `cb;`: the skipped slot holds a byte of the previous statement |
| Findings.HashSlotTruncates | chunt.c:305 | as written, `a#b;` in a fresh buffer reaches `doRegex` as `a` |

## Left out

- Regular expressions: `regcomp` and `regexec` are not modelled. A compiled pattern is an opaque
  `Pattern`, and `Config.matches` decides whether it matches. Case sensitivity (`-r`/`-R`)
  and compile failures belong to `regcomp`.
- Command-line parsing (`parseOpts`, `usage`, chunt.c:38-127) and the linked lists of patterns
  and file names are not modelled. The patterns and files are sequences in command-line order.
- I/O is a parameter:
  - A file's contents are a `Source` whose `contents` is `None` when `fopen` fails.
  - `fgetc` reads the next element of the sequence.
  - `printf` and `fprintf(stderr, …)` append to output sequences.
  - `getcwd` is the `basedir` field.
  - `fclose` and a read error in the middle of a file are not modelled.
- Memory failure: a failing `calloc` or `realloc` is not modelled.
- Scanning.Scanner.Slash: a line comment is skipped to the end of its line. `fgets(g_trash, 65535, fd)` (chunt.c:270) stops after 65534 bytes, and the rest of a longer line would be read as code; the model does not capture this.
- Report.HtmlCellIsEscaped: `snprintf` truncates the row header at 65535 bytes (chunt.c:139); the model treats the header as unbounded.
- Report.PrintEscaped: after a flush, `strcat` (chunt.c:152, 157) appends an entity at the first NUL of `g_trash`, which can lie beyond `jdx`. The model appends each entity at `jdx`, which is what the flush logic intends.
- Lexer.BackslashStep: at end of file, `fgetc` returns EOF and `(char)EOF` is stored after the backslash (chunt.c:232-236). The statement is never emitted, so the model stores nothing.
- Lexer.SlashStep: at end of file, the EOF lookahead of a slash is not a comment opener, so the slash is kept and nothing more is read.
- Lexer.Step: `lineNum` is a C `int` and `g_bufferSize` is unsigned. The model uses unbounded integers and does not capture wrap-around after 2^31 lines or a 4 GiB buffer.
- NUL bytes in a file are kept in the statement text. `doRegex` and `output` see the text only up to its first NUL (`Strings.CString`).
- The lexer (`Lexer.Step`, `Scanning.Scanner.Slash`, `Scanning.Scanner.Hash`) stores the slash and the `#` that the code as written skips, and grows the buffer before a turn can overflow it. The code as written is kept in `Findings` and `Growth.GrownSizeAsWritten`.

- Findings.StepAsWritten: the memory image is always longer than the file (`|s| < |mem|`), so the as-written model never runs out of buffer and does not show the overflow of chunt.c:329 in a run; that overflow is shown for a single turn by `Findings.TerminatorWritesPastGuard`.
- Findings.StepAsWritten: a backslash at end of input stores nothing, while chunt.c:232-236 stores `\` and `(char)EOF` into the shared `g_buffer`. Those bytes could show up in a later file through a skipped slot; the model does not capture this.

## Findings

| source | as written | input that shows it | evidently intended | confidence | as-written member | corrected member |
|---|---|---|---|---|---|---|
| chunt.c:329 | the buffer grows only once `idx >= g_bufferSize`, after a turn that may write two bytes | a statement of 65534 ordinary characters followed by `;` in a fresh 65535-byte buffer. `;` is stored at offset 65534 and its NUL at 65535, one past the end | grow whenever the next turn's two writes would not fit | not executed | Findings.TerminatorWritesPastGuard | Growth.GrownSize |
| chunt.c:291 | `g_buffer[idx++] == c;` compares instead of storing, so the slot of a kept slash is skipped | `a/2;` in a fresh buffer reaches `doRegex` as `a` | store the slash (chunt.c:260 says it is kept) | not executed | Findings.SlashSlotTruncates | Scenarios.SlashIsKept |
| chunt.c:291 | the skipped slot keeps a byte of an earlier statement | `ab;c/d;` reaches `doRegex` as `ab;` and then `cb;` | store the slash | not executed | Findings.SlashSlotKeepsStaleByte | LexerProps.StatementsAreSeenWhole |
| chunt.c:305 | `g_buffer[idx++];` advances the offset without storing the `#` | `a#b;` in a fresh buffer reaches `doRegex` as `a` | store the `#` | not executed | Findings.HashSlotTruncates | Scenarios.HashIsKept |
