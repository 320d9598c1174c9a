/** The match loop `doRegex` (chunt.c:176-185) and the run-wide settings it reads. */
module Match {
  import opened Wrappers
  import opened Strings
  import opened Lexer
  import Report

  /** A pattern as given with `-r` (case-insensitive) or `-R` (case-sensitive); compiling it is the
      regex library's business. */
  datatype Pattern = Pattern(regex: seq<char>, caseSensitive: bool)

  /** The settings `parseOpts` and `main` establish before any file is read: the output mode, the
      working directory, the patterns that compiled, in command-line order, and `regexec` as an
      opaque test of a pattern against a statement. */
  datatype Config = Config(mode: Report.Mode, basedir: seq<char>, patterns: seq<Pattern>,
                           matches: (Pattern, seq<char>) -> bool)

  /** The patterns among `ps` that match `text`, by index, in list order. */
  function MatchingIndices(matches: (Pattern, seq<char>) -> bool, ps: seq<Pattern>, text: seq<char>): seq<nat>
  {
    if ps == [] then []
    else
      var n := |ps| - 1;
      MatchingIndices(matches, ps[..n], text) + (if matches(ps[n], text) then [n] else [])
  }

  /** `MatchingIndices` lists, in increasing order, exactly the indices of the patterns that match. */
  lemma {:induction false} MatchingIndicesSpec(matches: (Pattern, seq<char>) -> bool, ps: seq<Pattern>, text: seq<char>)
    ensures forall j | 0 <= j < |MatchingIndices(matches, ps, text)| :: MatchingIndices(matches, ps, text)[j] < |ps|
    ensures forall i, j | 0 <= i < j < |MatchingIndices(matches, ps, text)| ::
              MatchingIndices(matches, ps, text)[i] < MatchingIndices(matches, ps, text)[j]
    ensures forall k: nat :: k in MatchingIndices(matches, ps, text) <==> k < |ps| && matches(ps[k], text)
  {
    if ps != [] {
      var n := |ps| - 1;
      MatchingIndicesSpec(matches, ps[..n], text);
      assert forall k | 0 <= k < n :: ps[..n][k] == ps[k];
    }
  }

  /** Testing one more pattern adds one match exactly when that pattern matches. */
  lemma MatchingIndicesSnoc(matches: (Pattern, seq<char>) -> bool, ps: seq<Pattern>, text: seq<char>, i: nat)
    requires i < |ps|
    ensures |MatchingIndices(matches, ps[..i + 1], text)|
            == |MatchingIndices(matches, ps[..i], text)| + (if matches(ps[i], text) then 1 else 0)
  {
    assert ps[..i + 1][..i] == ps[..i];
  }

  /** `n` copies of `row`, one after the other. */
  function Repeat(row: seq<char>, n: nat): seq<char>
  {
    if n == 0 then [] else Repeat(row, n - 1) + row
  }

  /** `doRegex`: tests every pattern of the list in order and calls `output` once for each one that
      matches, so the statement's row is printed once per matching pattern and never otherwise. */
  method DoRegex(cfg: Config, file: seq<char>, line: int, text: seq<char>) returns (o: seq<char>)
    ensures o == Repeat(Report.Row(cfg.mode, cfg.basedir, file, line, text),
                        |MatchingIndices(cfg.matches, cfg.patterns, text)|)
  {
    ghost var row := Report.Row(cfg.mode, cfg.basedir, file, line, text);
    o := [];
    var i := 0;
    while i < |cfg.patterns|
      invariant i <= |cfg.patterns|
      invariant o == Repeat(row, |MatchingIndices(cfg.matches, cfg.patterns[..i], text)|)
    {
      MatchingIndicesSnoc(cfg.matches, cfg.patterns, text, i);
      if cfg.matches(cfg.patterns[i], text) {
        var printed := Report.Output(cfg.mode, cfg.basedir, file, line, text);
        o := o + printed;
      }
      i := i + 1;
    }
    assert cfg.patterns[..i] == cfg.patterns;
  }

  /** Everything `doRegex` prints for one emitted statement; the regex library and `printf` see
      the buffer only up to its first NUL. */
  function ReportOne(cfg: Config, file: seq<char>, st: Statement): seq<char>
  {
    var text := CString(st.text);
    Repeat(Report.Row(cfg.mode, cfg.basedir, file, st.line, text), |MatchingIndices(cfg.matches, cfg.patterns, text)|)
  }

  /** Everything printed for a sequence of statements of one file, in emission order. */
  function ReportAll(cfg: Config, file: seq<char>, sts: seq<Statement>): seq<char>
  {
    Concat(st => ReportOne(cfg, file, st), sts)
  }

  /** What `doRegex` prints for an emitted statement, if there is one. */
  function ReportEmitted(cfg: Config, file: seq<char>, emit: Option<Statement>): seq<char>
  {
    if emit.Some? then ReportOne(cfg, file, emit.value) else []
  }

  /** Emitting one more statement appends its reports to those printed so far. */
  lemma ReportAllSnoc(cfg: Config, file: seq<char>, sts: seq<Statement>, emit: Option<Statement>)
    ensures ReportAll(cfg, file, sts + ToSeq(emit)) == ReportAll(cfg, file, sts) + ReportEmitted(cfg, file, emit)
  {
    if emit.Some? {
      assert (sts + ToSeq(emit))[..|sts|] == sts;
    } else {
      assert sts + ToSeq(emit) == sts;
    }
  }

  /** K copies of a row are K times as many bytes; with no matching pattern nothing is printed. */
  lemma {:induction false} RepeatLength(row: seq<char>, n: nat)
    ensures |Repeat(row, n)| == n * |row|
    ensures Repeat(row, n) == [] <==> n == 0 || row == []
  {
    if n > 0 {
      RepeatLength(row, n - 1);
      assert |Repeat(row, n)| == (n - 1) * |row| + |row|;
    }
  }

  /** With no pattern in the list, no statement of a file prints anything. */
  lemma {:induction false} NoPatternsNoReports(cfg: Config, file: seq<char>, sts: seq<Statement>)
    requires cfg.patterns == []
    ensures ReportAll(cfg, file, sts) == []
  {
    if sts != [] {
      NoPatternsNoReports(cfg, file, sts[..|sts| - 1]);
      assert ReportOne(cfg, file, sts[|sts| - 1]) == [];
    }
  }
}
