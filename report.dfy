/** The reporter `output` (chunt.c:129-174): one match rendered as a text line or an HTML table row. */
module Report {
  import opened Wrappers
  import opened Strings

  /** `MODE_TEXT` and `MODE_HTML` (chunt.c:11-12). */
  datatype Mode = Text | Html

  function EscapeChar(c: char): seq<char>
  {
    if c == '<' then "&lt;" else if c == '>' then "&gt;" else [c]
  }

  /** The statement cell of an HTML row: every '<' becomes "&lt;", every '>' becomes "&gt;" and
      every other character, ampersands and quotes included, is kept. */
  function Escape(t: seq<char>): seq<char>
  {
    if t == [] then [] else EscapeChar(t[0]) + Escape(t[1..])
  }

  /** The escaped text holds no '<' or '>', grows by three characters per escaped one, and equals
      the statement when there was nothing to escape. */
  lemma {:induction false} EscapeSpec(t: seq<char>)
    ensures '<' !in Escape(t) && '>' !in Escape(t)
    ensures |Escape(t)| == |t| + 3 * (Count('<', t) + Count('>', t))
    ensures '<' !in t && '>' !in t ==> Escape(t) == t
  {
    if t != [] {
      EscapeSpec(t[1..]);
      assert t == [t[0]] + t[1..];
    }
  }

  lemma {:induction false} EscapeAppend(a: seq<char>, b: seq<char>)
    ensures Escape(a + b) == Escape(a) + Escape(b)
  {
    if a == [] {
      assert a + b == b;
    } else {
      assert (a + b)[1..] == a[1..] + b;
      EscapeAppend(a[1..], b);
    }
  }

  /** Reads the two entities back; every other character stands for itself. */
  function Unescape(t: seq<char>): seq<char>
  {
    if |t| >= 4 && t[..4] == "&lt;" then ['<'] + Unescape(t[4..])
    else if |t| >= 4 && t[..4] == "&gt;" then ['>'] + Unescape(t[4..])
    else if t == [] then []
    else [t[0]] + Unescape(t[1..])
  }

  lemma UnescapeEntity(e: seq<char>, c: char, rest: seq<char>)
    requires (e == "&lt;" && c == '<') || (e == "&gt;" && c == '>')
    ensures Unescape(e + rest) == [c] + Unescape(rest)
  {
    var u := e + rest;
    assert u[..4] == e && u[4..] == rest;
  }

  lemma UnescapePlain(c: char, rest: seq<char>)
    requires c != '&'
    ensures Unescape([c] + rest) == [c] + Unescape(rest)
  {
    var u := [c] + rest;
    assert |u| >= 4 ==> u[..4][0] == c;
    assert u[0] == c && u[1..] == rest;
  }

  /** Escaping loses nothing from a statement without ampersands. */
  lemma {:induction false} UnescapeEscape(t: seq<char>)
    requires '&' !in t
    ensures Unescape(Escape(t)) == t
  {
    if t != [] {
      assert '&' !in t[1..];
      UnescapeEscape(t[1..]);
      var rest := Escape(t[1..]);
      assert Escape(t) == EscapeChar(t[0]) + rest;
      if t[0] == '<' {
        UnescapeEntity("&lt;", '<', rest);
      } else if t[0] == '>' {
        UnescapeEntity("&gt;", '>', rest);
      } else {
        UnescapePlain(t[0], rest);
      }
      assert t == [t[0]] + t[1..];
    }
  }

  /** Only '<' and '>' are escaped, so a statement that already holds an entity renders like the
      character it names: the two statements below give the same cell. */
  lemma EscapeKeepsEntities()
    ensures Escape("<") == Escape("&lt;") == "&lt;"
  {
    assert Escape("&lt;") == EscapeChar('&') + Escape("lt;");
  }

  /** `printf("%s:%d:%s\n", filename, lineNum, g_buffer)` (chunt.c:134). */
  function TextLine(file: seq<char>, line: int, text: seq<char>): seq<char>
  {
    file + ":" + Decimal(line) + ":" + text + "\n"
  }

  /** The row header that `snprintf` builds (chunt.c:139). */
  function HtmlHeader(basedir: seq<char>, file: seq<char>, line: int): seq<char>
  {
    "<tr><td>" + basedir + "/" + file + "</td><td><a href=\"chunt://" + basedir + "/" + file + ":"
    + Decimal(line) + "\">" + Decimal(line) + "</a></td><td>"
  }

  const HtmlTrailer: seq<char> := "</td></tr>\n"

  /** Everything `output` writes to standard output for one match. */
  function Row(mode: Mode, basedir: seq<char>, file: seq<char>, line: int, text: seq<char>): seq<char>
  {
    match mode
    case Text => TextLine(file, line, text)
    case Html => HtmlHeader(basedir, file, line) + Escape(text) + HtmlTrailer
  }

  /** Size of the scratch buffer `g_trash` (chunt.c:345, 349). */
  const TrashSize: nat := 65535

  /** The escaping loop of `output` (chunt.c:143-169): `header` is printed first, then the escaped
      statement passes through the scratch buffer, which is flushed whenever it comes within four
      bytes of its size, so that every write and its closing NUL stay inside it. */
  method PrintEscaped(header: seq<char>, text: seq<char>) returns (o: seq<char>)
    ensures o == header + Escape(text) + HtmlTrailer
  {
    o := header;
    var trash: seq<char> := [];
    var idx := 0;
    while idx < |text|
      invariant idx <= |text|
      invariant |trash| < TrashSize - 4
      invariant o + trash == header + Escape(text[..idx])
    {
      var c := text[idx];
      ghost var prev := trash;
      if c != '<' && c != '>' {
        trash := trash + [c];
      } else if c == '<' {
        trash := trash + "&lt;";
      } else {
        trash := trash + "&gt;";
      }
      assert trash == prev + EscapeChar(c);
      assert o + trash == (o + prev) + EscapeChar(c);
      ghost var printed := o + trash;
      PrintedSnoc(header, text, idx, o + prev);
      if |trash| >= TrashSize - 4 {
        o := o + trash;
        trash := [];
        assert o + trash == printed;
      }
      idx := idx + 1;
    }
    assert text[..idx] == text;
    o := o + trash + HtmlTrailer;
  }

  /** The escaped prefix grows by the escape of the next character. */
  lemma PrintedSnoc(header: seq<char>, text: seq<char>, i: nat, done: seq<char>)
    requires i < |text| && done == header + Escape(text[..i])
    ensures done + EscapeChar(text[i]) == header + Escape(text[..i + 1])
  {
    EscapeSnoc(text, i);
  }

  lemma EscapeSnoc(t: seq<char>, i: nat)
    requires i < |t|
    ensures Escape(t[..i + 1]) == Escape(t[..i]) + EscapeChar(t[i])
  {
    assert t[..i + 1] == t[..i] + [t[i]];
    EscapeAppend(t[..i], [t[i]]);
    assert Escape([t[i]]) == EscapeChar(t[i]) + Escape([]);
  }

  /** `output`: a text line, or an HTML row whose statement is escaped when it holds '<' or '>' and
      printed directly otherwise, which gives the same bytes. */
  method Output(mode: Mode, basedir: seq<char>, file: seq<char>, line: int, text: seq<char>)
    returns (o: seq<char>)
    ensures o == Row(mode, basedir, file, line, text)
  {
    match mode
    case Text =>
      o := file + ":" + Decimal(line) + ":" + text + "\n";
    case Html =>
      var header := HtmlHeader(basedir, file, line);
      if '<' in text || '>' in text {
        o := PrintEscaped(header, text);
      } else {
        EscapeSpec(text);
        o := header + text + HtmlTrailer;
      }
  }

  /** Position of the first `c` in `t`, or |t| when there is none. */
  function IndexOf(t: seq<char>, c: char): (i: nat)
    ensures i <= |t| && c !in t[..i] && (i < |t| ==> t[i] == c)
  {
    if t == [] then 0 else if t[0] == c then 0 else 1 + IndexOf(t[1..], c)
  }

  lemma {:induction false} IndexOfAfter(a: seq<char>, c: char, b: seq<char>)
    requires c !in a
    ensures IndexOf(a + [c] + b, c) == |a|
  {
    if a != [] {
      assert (a + [c] + b)[1..] == a[1..] + [c] + b;
      IndexOfAfter(a[1..], c, b);
    }
  }

  predicate IsDecimal(t: seq<char>)
  {
    forall i | 0 <= i < |t| :: IsDigit(t[i]) || (i == 0 && t[i] == '-')
  }

  /** Splits a text-mode report line at its first two colons. */
  function ParseTextLine(l: seq<char>): Option<(seq<char>, int, seq<char>)>
  {
    if l == [] || l[|l| - 1] != '\n' then None
    else
      var body := l[..|l| - 1];
      var i := IndexOf(body, ':');
      if i == |body| then None
      else
        var rest := body[i + 1..];
        var j := IndexOf(rest, ':');
        if j == |rest| || !IsDecimal(rest[..j]) then None
        else Some((body[..i], ParseDecimal(rest[..j]), rest[j + 1..]))
  }

  /** A text-mode line reads back as file, line and statement whenever the file name has no colon
      (the statement itself may hold any number of them). */
  lemma TextLineReadsBack(file: seq<char>, line: int, text: seq<char>)
    requires ':' !in file
    ensures ParseTextLine(TextLine(file, line, text)) == Some((file, line, text))
  {
    var d := Decimal(line);
    DecimalRoundTrip(line);
    assert ':' !in d by {
      assert forall i | 0 <= i < |d| :: d[i] != ':';
    }
    var l := TextLine(file, line, text);
    var body := l[..|l| - 1];
    assert body == file + [':'] + (d + [':'] + text);
    IndexOfAfter(file, ':', d + [':'] + text);
    assert IndexOf(body, ':') == |file|;
    assert body[..|file|] == file;
    var rest := body[|file| + 1..];
    assert rest == d + [':'] + text;
    IndexOfAfter(d, ':', text);
    assert IndexOf(rest, ':') == |d|;
    assert rest[..|d|] == d && rest[|d| + 1..] == text;
    assert IsDecimal(d);
  }

  /** The statement cell of an HTML row is the escaped statement: no '<' or '>' from the statement
      reaches the row unescaped, and one without ampersands can be read back from it. */
  lemma HtmlCellIsEscaped(basedir: seq<char>, file: seq<char>, line: int, text: seq<char>)
    ensures var row := Row(Html, basedir, file, line, text);
            var h := |HtmlHeader(basedir, file, line)|;
            var cell := row[h..|row| - |HtmlTrailer|];
            row[..h] == HtmlHeader(basedir, file, line) && row[|row| - |HtmlTrailer|..] == HtmlTrailer
            && '<' !in cell && '>' !in cell
            && ('&' !in text ==> Unescape(cell) == text)
  {
    var row := Row(Html, basedir, file, line, text);
    var h := |HtmlHeader(basedir, file, line)|;
    assert row[h..|row| - |HtmlTrailer|] == Escape(text);
    EscapeSpec(text);
    if '&' !in text {
      UnescapeEscape(text);
    }
  }
}
