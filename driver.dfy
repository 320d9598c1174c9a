/** The file loop of `main` (chunt.c:344-355): one `g_buffer` for the whole run, the files in
    command-line order, each read by `processFile` from a fresh lexer state. */
module Driver {
  import opened Wrappers
  import opened Strings
  import opened Lexer
  import Match
  import Growth
  import Scanning

  /** A file named on the command line: its name, and its bytes, or `None` when `fopen` fails. */
  datatype Source = Source(name: seq<char>, contents: Option<seq<char>>)

  /** The line `processFile` writes to standard error for a file it cannot open. */
  function OpenError(name: seq<char>): (r: seq<char>)
    ensures r != []
  {
    "[-] ERROR: Could not open " + name + "\n"
  }

  /** What one file contributes to standard output: the reports of all its statements. */
  function FileReport(cfg: Match.Config, src: Source): seq<char>
  {
    if src.contents.Some? then Match.ReportAll(cfg, src.name, Statements(src.contents.value)) else []
  }

  /** What one file contributes to standard error. */
  function FileWarning(src: Source): seq<char>
  {
    if src.contents.Some? then [] else OpenError(src.name)
  }

  /** Standard output of a whole run. */
  function AllReports(cfg: Match.Config, srcs: seq<Source>): seq<char>
  {
    Concat(src => FileReport(cfg, src), srcs)
  }

  /** What the file loop writes to standard error: one line per file that could not be opened, in order. */
  function AllWarnings(srcs: seq<Source>): seq<char>
  {
    Concat(FileWarning, srcs)
  }

  /** `main` after `parseOpts`: allocates the 65535-byte buffer once and runs `processFile` on each
      file in turn, handing the (possibly grown) buffer on to the next file. */
  method ProcessFiles(cfg: Match.Config, srcs: seq<Source>) returns (out: seq<char>, err: seq<char>)
    ensures out == AllReports(cfg, srcs)
    ensures err == AllWarnings(srcs)
  {
    var buffer := new char[Growth.InitialSize](_ => '\0');
    out, err := [], [];
    var i := 0;
    while i < |srcs|
      invariant i <= |srcs|
      invariant fresh(buffer) && Growth.MaxWrite <= buffer.Length
      invariant out == AllReports(cfg, srcs[..i])
      invariant err == AllWarnings(srcs[..i])
    {
      ConcatSnoc(src => FileReport(cfg, src), srcs, i);
      ConcatSnoc(FileWarning, srcs, i);
      var o, e;
      o, e, buffer := ProcessFile(cfg, srcs[i], buffer);
      out, err := out + o, err + e;
      i := i + 1;
    }
    assert srcs[..i] == srcs;
  }

  /** `processFile` on one file, with the buffer left by the previous file: what it prints to
      standard output and to standard error, and the buffer it hands on. */
  method ProcessFile(cfg: Match.Config, src: Source, buffer: array<char>)
    returns (out: seq<char>, err: seq<char>, next: array<char>)
    requires Growth.MaxWrite <= buffer.Length
    modifies buffer
    ensures out == FileReport(cfg, src) && err == FileWarning(src)
    ensures Growth.MaxWrite <= next.Length && (next == buffer || fresh(next))
  {
    next := buffer;
    if src.contents.None? {
      return [], OpenError(src.name), next;
    }
    var sc := new Scanning.Scanner(cfg, src.name, src.contents.value, buffer);
    sc.ProcessFile();
    out, err, next := sc.out, [], sc.buffer;
  }

  /** Nothing carries over from one file to the next: the run over two lists of files prints
      what the two runs print separately, one after the other. */
  lemma AllReportsAppend(cfg: Match.Config, a: seq<Source>, b: seq<Source>)
    ensures AllReports(cfg, a + b) == AllReports(cfg, a) + AllReports(cfg, b)
    ensures AllWarnings(a + b) == AllWarnings(a) + AllWarnings(b)
  {
    ConcatAppend(src => FileReport(cfg, src), a, b);
    ConcatAppend(FileWarning, a, b);
  }

  /** Files that cannot be opened print nothing to standard output. */
  lemma {:induction false} UnopenedFilesAreSilent(cfg: Match.Config, srcs: seq<Source>)
    requires forall k | 0 <= k < |srcs| :: srcs[k].contents.None?
    ensures AllReports(cfg, srcs) == []
  {
    if srcs != [] {
      UnopenedFilesAreSilent(cfg, srcs[..|srcs| - 1]);
    }
  }

  /** Standard error stays empty exactly when every file could be opened. */
  lemma {:induction false} WarningsOnlyForUnopened(srcs: seq<Source>)
    ensures AllWarnings(srcs) == [] <==> forall k | 0 <= k < |srcs| :: srcs[k].contents.Some?
  {
    if srcs != [] {
      var n := |srcs| - 1;
      WarningsOnlyForUnopened(srcs[..n]);
      assert forall k | 0 <= k < n :: srcs[..n][k] == srcs[k];
    }
  }

  /** With no pattern that compiled, a run prints no report at all. */
  lemma {:induction false} NoPatternsNoReports(cfg: Match.Config, srcs: seq<Source>)
    requires cfg.patterns == []
    ensures AllReports(cfg, srcs) == []
  {
    if srcs != [] {
      NoPatternsNoReports(cfg, srcs[..|srcs| - 1]);
      var src := srcs[|srcs| - 1];
      if src.contents.Some? {
        Match.NoPatternsNoReports(cfg, src.name, Statements(src.contents.value));
      }
    }
  }
}
