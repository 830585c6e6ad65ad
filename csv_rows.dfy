/**
 * The row parser of `handleFileUpload` in app/admin/bulk/page.tsx: the text
 * is cut into lines, the header line is dropped, every other line is trimmed,
 * blank lines are skipped, and each line is cut into columns by the global
 * regular expression `(".*?"|[^",\s]+)(?=\s*,|\s*$)`, whose tokens lose their
 * surrounding quotes and white space.
 *
 * The expression has no look-behind and no `^`, so the tokens found from a
 * position on depend only on the rest of the line: the tokeniser is a
 * function of suffixes.
 */
module CsvRows {
  import opened Wrappers
  import opened Strings

  datatype Status = Pending | Processing | Success | Error

  /** One recipient of the bulk page. */
  datatype BulkRequest = BulkRequest(
    email: string,
    badge_name: string,
    event_name: string,
    description: string,
    credential_id: string,
    status: Status,
    message: Option<string>)

  /** A character of the unquoted alternative `[^",\s]`. */
  predicate IsPlain(c: char) {
    c != '"' && c != ',' && !IsSpace(c)
  }

  ghost predicate AllPlain(w: string) {
    forall i :: 0 <= i < |w| ==> IsPlain(w[i])
  }

  /** Length of the run of plain characters `s` starts with. */
  function PlainRun(s: string): (k: nat)
    ensures k <= |s|
    ensures forall i :: 0 <= i < k ==> IsPlain(s[i])
    ensures k < |s| ==> !IsPlain(s[k])
  {
    if s == [] || !IsPlain(s[0]) then 0 else 1 + PlainRun(s[1..])
  }

  /** The look-ahead `(?=\s*,|\s*$)`: after optional white space, a comma or the end of the line. */
  predicate AtFieldEnd(s: string) {
    var k := LeadingSpace(s);
    k == |s| || s[k] == ','
  }

  /** No line terminator in `s[from..to]`: the span `.` can step over. */
  ghost predicate NoTerminator(s: string, from: int, to: int)
    requires 0 <= from && to <= |s|
  {
    forall i :: from <= i < to ==> !IsLineTerminator(s[i])
  }

  /**
   * The lazy `.*?"` of a quoted token whose opening quote is `s[0]`, with the
   * look-ahead: the first position `k` from which a quote followed by a field
   * end is found before any line terminator. `.` matches a quote, so a quote
   * not followed by a field end is stepped over.
   */
  function QuoteEnd(s: string, k: nat): (r: Option<nat>)
    ensures r.Some? ==> k < r.value <= |s| && s[r.value - 1] == '"' && AtFieldEnd(s[r.value..])
    ensures r.Some? ==> NoTerminator(s, k, r.value - 1)
    decreases |s| - k
  {
    if k >= |s| then None
    else if s[k] == '"' && AtFieldEnd(s[k + 1..]) then Some(k + 1)
    else if IsLineTerminator(s[k]) then None
    else QuoteEnd(s, k + 1)
  }

  /**
   * `QuoteEnd` finds the first closing quote: no earlier quote is followed by
   * a field end, and when there is none every quote followed by a field end
   * lies beyond a line terminator.
   */
  lemma {:induction false} QuoteEndLeast(s: string, k: nat)
    ensures var r := QuoteEnd(s, k);
      && (r.Some? ==> forall j :: k < j < r.value ==> !(s[j - 1] == '"' && AtFieldEnd(s[j..])))
      && (r.None? ==> forall j :: k < j <= |s| && s[j - 1] == '"' && AtFieldEnd(s[j..]) ==> !NoTerminator(s, k, j - 1))
    decreases |s| - k
  {
    if k < |s| && !(s[k] == '"' && AtFieldEnd(s[k + 1..])) {
      if IsLineTerminator(s[k]) {
        forall j | k < j <= |s| && s[j - 1] == '"' && AtFieldEnd(s[j..]) ensures !NoTerminator(s, k, j - 1) {
          assert j - 1 != k;
        }
      } else {
        QuoteEndLeast(s, k + 1);
        forall j | k < j <= |s| && s[j - 1] == '"' && AtFieldEnd(s[j..]) && j - 1 > k && NoTerminator(s, k, j - 1)
          ensures NoTerminator(s, k + 1, j - 1)
        {
        }
      }
    }
  }

  /**
   * One of the two alternatives of the expression matches `s[..n]`, the
   * look-ahead aside: a quoted span without line terminators inside, or a run
   * of plain characters.
   */
  ghost predicate TokenAt(s: string, n: nat) {
    && 0 < n <= |s|
    && (|| (n >= 2 && s[0] == '"' && s[n - 1] == '"' && NoTerminator(s, 1, n - 1))
        || AllPlain(s[..n]))
  }

  /**
   * The length of the token matched at the start of `s`, if any. An unquoted
   * run can only be taken whole: a shorter run is followed by a plain
   * character, which the look-ahead refuses.
   */
  function MatchLen(s: string): (r: Option<nat>)
    ensures r.Some? ==> 0 < r.value <= |s| && AtFieldEnd(s[r.value..])
    ensures r.Some? ==>
      || (s[0] == '"' && r.value >= 2 && s[r.value - 1] == '"')
      || AllPlain(s[..r.value])
    // the match the expression finds: the shortest token followed by a field end, if there is one
    ensures r.Some? ==> TokenAt(s, r.value)
    ensures r.Some? ==> forall n :: 0 < n < r.value && AtFieldEnd(s[n..]) ==> !TokenAt(s, n)
    ensures r.None? ==> forall n :: 0 < n <= |s| && AtFieldEnd(s[n..]) ==> !TokenAt(s, n)
  {
    if s == [] then None
    else if s[0] == '"' then
      QuoteTokens(s);
      QuoteEnd(s, 1)
    else
      var k := PlainRun(s);
      PlainTokens(s);
      if k > 0 && AtFieldEnd(s[k..]) then Some(k) else None
  }

  /** From an opening quote only the quoted alternative can match, and the lazy quantifier takes the shortest span. */
  lemma QuoteTokens(s: string)
    requires s != [] && s[0] == '"'
    ensures var r := QuoteEnd(s, 1);
      && (r.Some? ==> r.value >= 2 && TokenAt(s, r.value))
      && (r.Some? ==> forall n :: 0 < n < r.value && AtFieldEnd(s[n..]) ==> !TokenAt(s, n))
      && (r.None? ==> forall n :: 0 < n <= |s| && AtFieldEnd(s[n..]) ==> !TokenAt(s, n))
  {
    var r := QuoteEnd(s, 1);
    QuoteEndLeast(s, 1);
    forall n | 0 < n <= |s| ensures !AllPlain(s[..n]) {
      assert s[..n][0] == '"';
    }
    if r.Some? {
      forall n | 0 < n < r.value && AtFieldEnd(s[n..]) ensures !TokenAt(s, n) {
        if n >= 2 {
          assert s[n - 1] != '"';
        }
      }
    } else {
      forall n | 0 < n <= |s| && AtFieldEnd(s[n..]) ensures !TokenAt(s, n) {
        if n >= 2 && s[n - 1] == '"' {
          assert !NoTerminator(s, 1, n - 1);
        }
      }
    }
  }

  /** Without an opening quote only the plain alternative can match, and only the whole run is followed by a field end. */
  lemma PlainTokens(s: string)
    requires s != [] && s[0] != '"'
    ensures forall n :: 0 < n <= |s| ==> (TokenAt(s, n) <==> n <= PlainRun(s))
    ensures forall n :: 0 < n < PlainRun(s) ==> !AtFieldEnd(s[n..])
  {
    var k := PlainRun(s);
    forall n | 0 < n <= |s| ensures TokenAt(s, n) <==> n <= k {
      if n <= k {
        assert forall i :: 0 <= i < n ==> s[..n][i] == s[i];
      } else {
        assert s[..n][k] == s[k];
      }
    }
    forall n | 0 < n < k ensures !AtFieldEnd(s[n..]) {
      assert s[n..][0] == s[n];
    }
  }

  /** A token of either kind: a quoted span or a run of plain characters. */
  ghost predicate IsToken(t: string) {
    || (|t| >= 2 && t[0] == '"' && t[|t| - 1] == '"')
    || (t != [] && AllPlain(t))
  }

  /** `line.match(regex)` (global): all tokens left to right, none when nothing matches. */
  function Scan(s: string): (tokens: seq<string>)
    ensures forall i :: 0 <= i < |tokens| ==> IsToken(tokens[i])
    decreases |s|
  {
    if s == [] then []
    else
      match MatchLen(s)
      case Some(n) => [s[..n]] + Scan(s[n..])
      case None => Scan(s[1..])
  }

  /** `replace(/^"|"$/g, '')`: a leading and a trailing quote removed. */
  function Unquote(t: string): (r: string)
    ensures |t| >= 2 && t[0] == '"' && t[|t| - 1] == '"' ==> r == t[1..|t| - 1]
    ensures '"' !in t ==> r == t
  {
    var a := if |t| > 0 && t[0] == '"' then 1 else 0;
    var b := if |t| > a && t[|t| - 1] == '"' then |t| - 1 else |t|;
    t[a..b]
  }

  /** One column: the token unquoted, then trimmed. */
  function Clean(t: string): string {
    Trim(Unquote(t))
  }

  /** The cleaned tokens, in order. */
  function CleanAll(tokens: seq<string>): (cols: seq<string>)
    ensures |cols| == |tokens|
    ensures forall i :: 0 <= i < |tokens| ==> cols[i] == Clean(tokens[i])
  {
    if tokens == [] then [] else [Clean(tokens[0])] + CleanAll(tokens[1..])
  }

  function Columns(line: string): seq<string> {
    CleanAll(Scan(line))
  }

  /** `columns[i]`, undefined past the end. */
  function Column(cols: seq<string>, i: nat): Option<string> {
    if i < |cols| then Some(cols[i]) else None
  }

  /**
   * The row a trimmed, non-blank line gives: the first three columns must be
   * present and non-empty; description and credential id default to ''.
   */
  function RowOf(line: string): (r: Option<BulkRequest>)
    ensures var cols := Columns(line);
      r.Some? <==> |cols| >= 3 && cols[0] != "" && cols[1] != "" && cols[2] != ""
    ensures var cols := Columns(line);
      r.Some? ==>
        && r.value.email == cols[0] && r.value.badge_name == cols[1] && r.value.event_name == cols[2]
        && r.value.description == (if |cols| > 3 then cols[3] else "")
        && r.value.credential_id == (if |cols| > 4 then cols[4] else "")
        && r.value.status == Pending && r.value.message == None
  {
    var cols := Columns(line);
    if Truthy(Column(cols, 0)) && Truthy(Column(cols, 1)) && Truthy(Column(cols, 2)) then
      Some(BulkRequest(cols[0], cols[1], cols[2], OrElse(Column(cols, 3), ""), OrElse(Column(cols, 4), ""),
                       Pending, None))
    else None
  }

  /** One raw line of the file: trimmed, skipped when blank. */
  function LineRow(raw: string): Option<BulkRequest> {
    var line := Trim(raw);
    if line == "" then None else RowOf(line)
  }

  /** The row one raw line contributes: none or one. */
  function RowsOfLine(raw: string): seq<BulkRequest> {
    match LineRow(raw)
    case Some(r) => [r]
    case None => []
  }

  /** The rows of the lines after the header, in line order. */
  function RowsOf(lines: seq<string>): seq<BulkRequest> {
    if lines == [] then []
    else RowsOf(lines[..|lines| - 1]) + RowsOfLine(lines[|lines| - 1])
  }

  /**
   * What the upload handler collects from a file's text: a row for each line
   * after the first that yields one, each complete and pending.
   */
  function ParseText(text: string): (rows: seq<BulkRequest>)
    ensures |rows| < |Split(text, '\n')|
    ensures forall r :: r in rows ==>
      r.email != "" && r.badge_name != "" && r.event_name != "" && r.status == Pending && r.message == None
    ensures var parts := Split(text, '\n');
      forall r :: r in rows ==> exists i :: 1 <= i < |parts| && LineRow(parts[i]) == Some(r)
  {
    var parts := Split(text, '\n');
    RowsFromLines(parts[1..]);
    RowsComplete(parts[1..]);
    assert forall i :: 0 <= i < |parts| - 1 ==> parts[1..][i] == parts[i + 1];
    RowsOf(parts[1..])
  }

  // ---------------------------------------------------------------------
  // Lines

  /** The rows of two stretches of lines are the rows of each, in order. */
  lemma {:induction false} RowsOfAppend(a: seq<string>, b: seq<string>)
    ensures RowsOf(a + b) == RowsOf(a) + RowsOf(b)
    decreases |b|
  {
    if b == [] {
      assert a + b == a;
      assert RowsOf(a) + RowsOf(b) == RowsOf(a);
    } else {
      var front := b[..|b| - 1];
      var last := RowsOfLine(b[|b| - 1]);
      assert (a + b)[..|a + b| - 1] == a + front && (a + b)[|a + b| - 1] == b[|b| - 1];
      RowsOfAppend(a, front);
      calc {
        RowsOf(a + b);
        RowsOf(a + front) + last;
        (RowsOf(a) + RowsOf(front)) + last;
        RowsOf(a) + (RowsOf(front) + last);
        RowsOf(a) + RowsOf(b);
      }
    }
  }

  /** A line that is blank after trimming contributes nothing. */
  lemma BlankLineSkipped(a: seq<string>, blank: string, b: seq<string>)
    requires Trim(blank) == ""
    ensures RowsOf(a + [blank] + b) == RowsOf(a + b)
  {
    var front := a + [blank];
    RowsOfAppend(front, b);
    RowsOfAppend(a, b);
    assert front[..|front| - 1] == a;
    assert LineRow(blank) == None;
    assert RowsOf(front) == RowsOf(a);
  }

  /** Every row comes from some line of the input, in the order of the lines. */
  lemma {:induction false} RowsFromLines(lines: seq<string>)
    ensures |RowsOf(lines)| <= |lines|
    ensures forall r :: r in RowsOf(lines) ==> exists i :: 0 <= i < |lines| && LineRow(lines[i]) == Some(r)
    decreases |lines|
  {
    if lines != [] {
      var front := lines[..|lines| - 1];
      RowsFromLines(front);
      forall r | r in RowsOf(lines)
        ensures exists i :: 0 <= i < |lines| && LineRow(lines[i]) == Some(r)
      {
        if r in RowsOf(front) {
          var i :| 0 <= i < |front| && LineRow(front[i]) == Some(r);
          assert lines[i] == front[i];
        } else {
          assert LineRow(lines[|lines| - 1]) == Some(r);
        }
      }
    }
  }

  /** The header line is discarded whatever it says. */
  lemma HeaderDiscarded(header: string, rest: string)
    requires '\n' !in header
    ensures ParseText(header + "\n" + rest) == RowsOf(Split(rest, '\n'))
  {
    var parts := [header] + Split(rest, '\n');
    assert parts[1..] == Split(rest, '\n');
    assert Join(parts, '\n') == header + "\n" + rest;
    SplitJoin(parts, '\n');
  }

  /** A file of one line, the header alone, gives no rows. */
  lemma HeaderOnlyNoRows(text: string)
    requires '\n' !in text
    ensures ParseText(text) == []
  {
    SplitNoSeparator(text, '\n');
  }

  /** Every collected row has its three required fields, and is pending with no message. */
  lemma {:induction false} RowsComplete(lines: seq<string>)
    ensures forall r :: r in RowsOf(lines) ==>
      r.email != "" && r.badge_name != "" && r.event_name != "" && r.status == Pending && r.message == None
    decreases |lines|
  {
    if lines != [] {
      RowsComplete(lines[..|lines| - 1]);
    }
  }

  // ---------------------------------------------------------------------
  // The tokeniser on well-formed lines

  /** A field in one of the shapes a CSV writer produces. */
  datatype Field =
    | Words(words: seq<string>)  // unquoted words separated by single spaces; no words is an empty field
    | Quoted(text: string)       // a double-quoted text without quotes or line breaks

  ghost predicate WellFormed(f: Field) {
    match f
    case Words(ws) => forall i :: 0 <= i < |ws| ==> ws[i] != [] && AllPlain(ws[i])
    case Quoted(x) => forall i :: 0 <= i < |x| ==> x[i] != '"' && !IsLineTerminator(x[i])
  }

  function Render(f: Field): string {
    match f
    case Words(ws) => Join(ws, ' ')
    case Quoted(x) => "\"" + x + "\""
  }

  /** The fields written out with commas between them. */
  function RenderLine(fs: seq<Field>): string {
    if |fs| == 0 then ""
    else if |fs| == 1 then Render(fs[0])
    else Render(fs[0]) + "," + RenderLine(fs[1..])
  }

  /** The columns a field yields: nothing when empty, only the LAST of several words, the trimmed text of a quoted field. */
  function FieldColumns(f: Field): seq<string> {
    match f
    case Words(ws) => if ws == [] then [] else [ws[|ws| - 1]]
    case Quoted(x) => [Trim(x)]
  }

  function LineColumns(fs: seq<Field>): seq<string> {
    if fs == [] then [] else FieldColumns(fs[0]) + LineColumns(fs[1..])
  }

  function FieldTokens(f: Field): seq<string> {
    match f
    case Words(ws) => if ws == [] then [] else [ws[|ws| - 1]]
    case Quoted(x) => ["\"" + x + "\""]
  }

  function LineTokens(fs: seq<Field>): seq<string> {
    if fs == [] then [] else FieldTokens(fs[0]) + LineTokens(fs[1..])
  }

  lemma ScanComma(t: string)
    ensures Scan("," + t) == Scan(t)
  {
    assert ("," + t)[1..] == t;
  }

  lemma ScanSpace(t: string)
    ensures Scan(" " + t) == Scan(t)
  {
    assert (" " + t)[1..] == t;
  }

  /** A run of plain characters ends where `w` ends when what follows is not plain. */
  lemma PlainRunOf(w: string, t: string)
    requires AllPlain(w)
    requires t == [] || !IsPlain(t[0])
    ensures PlainRun(w + t) == |w|
  {
    var s := w + t;
    assert forall i :: 0 <= i < |w| ==> s[i] == w[i];
    assert |s| > |w| ==> s[|w|] == t[0];
  }

  /** A word followed by white space and then something other than a comma produces no token of its own. */
  lemma {:induction false} SkipWord(w: string, t: string)
    requires w != [] && AllPlain(w)
    requires t != [] && !IsPlain(t[0]) && !AtFieldEnd(t)
    ensures Scan(w + t) == Scan(t)
    decreases |w|
  {
    var s := w + t;
    PlainRunOf(w, t);
    assert s[|w|..] == t;
    assert MatchLen(s) == None;
    assert s[1..] == w[1..] + t;
    if |w| > 1 {
      SkipWord(w[1..], t);
    } else {
      assert w[1..] + t == t;
    }
  }

  /** A word followed by a comma or the end of the line is a token. */
  lemma TakeWord(w: string, t: string)
    requires w != [] && AllPlain(w)
    requires t == [] || t[0] == ','
    ensures Scan(w + t) == [w] + Scan(t)
  {
    var s := w + t;
    PlainRunOf(w, t);
    assert s[|w|..] == t;
    assert t != [] ==> LeadingSpace(t) == 0;
    assert MatchLen(s) == Some(|w|);
    assert s[..|w|] == w;
  }

  lemma JoinHead(ws: seq<string>, sep: char)
    requires |ws| >= 1 && ws[0] != []
    ensures Join(ws, sep) != [] && Join(ws, sep)[0] == ws[0][0]
  {
  }

  /** A space followed by a plain character is not the end of a field. */
  lemma SpaceBeforeWord(after: string)
    requires after != [] && IsPlain(after[0])
    ensures !IsPlain((" " + after)[0]) && !AtFieldEnd(" " + after)
  {
    var u := " " + after;
    assert u[1] == after[0];
    assert LeadingSpace(u) == 1;
  }

  /** Words separated by single spaces, then a comma or the end: only the last word is a token. */
  lemma {:induction false} WordsThen(ws: seq<string>, t: string)
    requires |ws| >= 1 && WellFormed(Words(ws))
    requires t == [] || t[0] == ','
    ensures Scan(Join(ws, ' ') + t) == [ws[|ws| - 1]] + Scan(t)
    decreases |ws|
  {
    if |ws| == 1 {
      TakeWord(ws[0], t);
    } else {
      var more := ws[1..];
      assert more[|more| - 1] == ws[|ws| - 1];
      assert WellFormed(Words(more));
      var after := Join(more, ' ') + t;
      JoinSplitOff(ws, t);
      FirstPlain(more, t);
      WordBeforeSpace(ws[0], after);
      WordsThen(more, t);
    }
  }

  /** Words joined by spaces start with a plain character. */
  lemma FirstPlain(ws: seq<string>, t: string)
    requires |ws| >= 1 && WellFormed(Words(ws))
    ensures Join(ws, ' ') + t != [] && IsPlain((Join(ws, ' ') + t)[0])
  {
    assert ws[0] != [] && AllPlain(ws[0]);
    JoinHead(ws, ' ');
  }

  /** A word followed by a space and another word produces no token of its own. */
  lemma WordBeforeSpace(w: string, after: string)
    requires w != [] && AllPlain(w)
    requires after != [] && IsPlain(after[0])
    ensures Scan(w + (" " + after)) == Scan(after)
  {
    SpaceBeforeWord(after);
    SkipWord(w, " " + after);
    ScanSpace(after);
  }

  /** Several words followed by `t`: the first word, a space, and the rest. */
  lemma JoinSplitOff(ws: seq<string>, t: string)
    requires |ws| >= 2
    ensures Join(ws, ' ') + t == ws[0] + (" " + (Join(ws[1..], ' ') + t))
  {
    Regroup(ws[0], " ", Join(ws[1..], ' '), t);
  }

  lemma Regroup(a: string, b: string, c: string, d: string)
    ensures a + b + c + d == a + (b + (c + d))
  {
  }

  /** The lazy quote search walks over a quote-free text up to its closing quote. */
  lemma {:induction false} QuoteEndAt(x: string, t: string, k: nat)
    requires WellFormed(Quoted(x))
    requires t == [] || t[0] == ','
    requires 1 <= k <= |x| + 1
    ensures QuoteEnd("\"" + x + "\"" + t, k) == Some(|x| + 2)
    decreases |x| + 1 - k
  {
    var s := "\"" + x + "\"" + t;
    if k == |x| + 1 {
      assert s[k] == '"';
      assert s[k + 1..] == t;
      assert t != [] ==> LeadingSpace(t) == 0;
    } else {
      assert s[k] == x[k - 1];
      QuoteEndAt(x, t, k + 1);
    }
  }

  /** A quoted field followed by a comma or the end of the line is one token, quotes included. */
  lemma QuotedThen(x: string, t: string)
    requires WellFormed(Quoted(x))
    requires t == [] || t[0] == ','
    ensures Scan("\"" + x + "\"" + t) == ["\"" + x + "\""] + Scan(t)
  {
    var s := "\"" + x + "\"" + t;
    QuoteEndAt(x, t, 1);
    assert MatchLen(s) == Some(|x| + 2);
    assert s[..|x| + 2] == "\"" + x + "\"";
    assert s[|x| + 2..] == t;
  }

  lemma FieldThen(f: Field, t: string)
    requires WellFormed(f)
    requires t == [] || t[0] == ','
    ensures Scan(Render(f) + t) == FieldTokens(f) + Scan(t)
  {
    match f
    case Words(ws) =>
      if ws == [] {
        assert Render(f) + t == t;
      } else {
        WordsThen(ws, t);
      }
    case Quoted(x) =>
      QuotedThen(x, t);
  }

  /**
   * The tokens of a line of well-formed fields: an empty field gives none, so
   * later columns shift left; several unquoted words give only the last; a
   * quoted field gives its quoted span.
   */
  lemma {:induction false} ScanLine(fs: seq<Field>)
    requires forall i :: 0 <= i < |fs| ==> WellFormed(fs[i])
    ensures Scan(RenderLine(fs)) == LineTokens(fs)
    decreases |fs|
  {
    if |fs| == 1 {
      FieldThen(fs[0], "");
      assert Render(fs[0]) + "" == Render(fs[0]);
    } else if |fs| > 1 {
      var rest := RenderLine(fs[1..]);
      assert RenderLine(fs) == Render(fs[0]) + ("," + rest);
      FieldThen(fs[0], "," + rest);
      ScanComma(rest);
      ScanLine(fs[1..]);
    }
  }

  lemma {:induction false} CleanAllAppend(a: seq<string>, b: seq<string>)
    ensures CleanAll(a + b) == CleanAll(a) + CleanAll(b)
  {
  }

  /** A word cleans to itself; a quoted field cleans to its trimmed text. */
  lemma CleanField(f: Field)
    requires WellFormed(f)
    ensures CleanAll(FieldTokens(f)) == FieldColumns(f)
  {
    match f
    case Words(ws) =>
      if ws != [] {
        var w := ws[|ws| - 1];
        assert IsPlain(w[0]) && IsPlain(w[|w| - 1]);
        assert '"' !in w by {
          forall i | 0 <= i < |w| ensures w[i] != '"' {
            assert IsPlain(w[i]);
          }
        }
        TrimUnpadded(w);
      }
    case Quoted(x) =>
      var q := "\"" + x + "\"";
      assert q[1..|q| - 1] == x;
  }

  /** The columns of a line of well-formed fields, field by field. */
  lemma {:induction false} ColumnsOfLine(fs: seq<Field>)
    requires forall i :: 0 <= i < |fs| ==> WellFormed(fs[i])
    ensures Columns(RenderLine(fs)) == LineColumns(fs)
    decreases |fs|
  {
    ScanLine(fs);
    ColumnsOfTokens(fs);
  }

  lemma {:induction false} ColumnsOfTokens(fs: seq<Field>)
    requires forall i :: 0 <= i < |fs| ==> WellFormed(fs[i])
    ensures CleanAll(LineTokens(fs)) == LineColumns(fs)
    decreases |fs|
  {
    if fs != [] {
      CleanAllAppend(FieldTokens(fs[0]), LineTokens(fs[1..]));
      CleanField(fs[0]);
      ColumnsOfTokens(fs[1..]);
    }
  }

  /**
   * An empty field yields no column, so the columns after it move one place
   * left: `a,,b,c` gives the row (a, b, c) with an empty description.
   */
  lemma EmptyFieldShiftsLeft(a: string, b: string, c: string)
    requires a != [] && AllPlain(a) && b != [] && AllPlain(b) && c != [] && AllPlain(c)
    ensures RowOf(RenderLine([Words([a]), Words([]), Words([b]), Words([c])]))
         == Some(BulkRequest(a, b, c, "", "", Pending, None))
  {
    var fs := [Words([a]), Words([]), Words([b]), Words([c])];
    assert WellFormed(fs[0]) && WellFormed(fs[1]) && WellFormed(fs[2]) && WellFormed(fs[3]);
    ColumnsOfLine(fs);
    ShiftedColumns(a, b, c);
    RowOfThreeColumns(RenderLine(fs), [a, b, c]);
  }

  lemma ShiftedColumns(a: string, b: string, c: string)
    ensures LineColumns([Words([a]), Words([]), Words([b]), Words([c])]) == [a, b, c]
  {
    var f3: seq<Field> := [Words([c])];
    var f2 := [Words([b])] + f3;
    var f1 := [Words([])] + f2;
    var fs := [Words([a])] + f1;
    assert fs == [Words([a]), Words([]), Words([b]), Words([c])];
    assert [a] + ([] + ([b] + ([c] + []))) == [a, b, c];
    LineColumnsCons(Words([c]), []);
    LineColumnsCons(Words([b]), f3);
    LineColumnsCons(Words([]), f2);
    LineColumnsCons(Words([a]), f1);
  }

  /** A line whose columns are three non-empty values is the row of those values with empty description and credential. */
  lemma RowOfThreeColumns(line: string, cols: seq<string>)
    requires Columns(line) == cols && |cols| == 3
    requires cols[0] != "" && cols[1] != "" && cols[2] != ""
    ensures RowOf(line) == Some(BulkRequest(cols[0], cols[1], cols[2], "", "", Pending, None))
  {
  }

  lemma LineColumnsCons(f: Field, rest: seq<Field>)
    ensures LineColumns([f] + rest) == FieldColumns(f) + LineColumns(rest)
  {
    assert ([f] + rest)[1..] == rest;
  }

  /** A line whose columns are five values, the first three non-empty, is the row of those values. */
  lemma RowOfFiveColumns(line: string, cols: seq<string>)
    requires Columns(line) == cols && |cols| == 5
    requires cols[0] != "" && cols[1] != "" && cols[2] != ""
    ensures RowOf(line) == Some(BulkRequest(cols[0], cols[1], cols[2], cols[3], cols[4], Pending, None))
  {
  }

  lemma FiveFieldColumns(e: string, b: seq<string>, v: seq<string>, d: seq<string>, c: string)
    requires |b| >= 1 && |v| >= 1 && |d| >= 1
    ensures LineColumns([Words([e]), Words(b), Words(v), Words(d), Words([c])])
         == [e, b[|b| - 1], v[|v| - 1], d[|d| - 1], c]
  {
    var f4: seq<Field> := [Words([c])];
    var f3 := [Words(d)] + f4;
    var f2 := [Words(v)] + f3;
    var f1 := [Words(b)] + f2;
    var fs := [Words([e])] + f1;
    assert fs == [Words([e]), Words(b), Words(v), Words(d), Words([c])];
    assert [e] + ([b[|b| - 1]] + ([v[|v| - 1]] + ([d[|d| - 1]] + ([c] + []))))
        == [e, b[|b| - 1], v[|v| - 1], d[|d| - 1], c];
    LineColumnsCons(Words([c]), []);
    LineColumnsCons(Words(d), f4);
    LineColumnsCons(Words(v), f3);
    LineColumnsCons(Words(b), f2);
    LineColumnsCons(Words([e]), f1);
  }

  /** A line of five unquoted fields: each of the middle three gives only its last word. */
  lemma FiveFieldRow(e: string, b: seq<string>, v: seq<string>, d: seq<string>, c: string)
    requires e != [] && AllPlain(e) && c != [] && AllPlain(c)
    requires |b| >= 1 && |v| >= 1 && |d| >= 1
    requires WellFormed(Words(b)) && WellFormed(Words(v)) && WellFormed(Words(d))
    ensures RowOf(RenderLine([Words([e]), Words(b), Words(v), Words(d), Words([c])]))
         == Some(BulkRequest(e, b[|b| - 1], v[|v| - 1], d[|d| - 1], c, Pending, None))
  {
    var fs := [Words([e]), Words(b), Words(v), Words(d), Words([c])];
    var cols := [e, b[|b| - 1], v[|v| - 1], d[|d| - 1], c];
    assert cols[0] != "" && cols[1] != "" && cols[2] != "";
    assert WellFormed(fs[0]) && WellFormed(fs[4]);
    FiveFieldColumns(e, b, v, d, c);
    ColumnsOfLine(fs);
    RowOfFiveColumns(RenderLine(fs), cols);
  }

  lemma SampleWordsPlain()
    ensures AllPlain("user1@example.com") && AllPlain("TN-WEB-2026-001")
  {
  }

  lemma SampleBadgeWellFormed()
    ensures WellFormed(Words(["Technical", "Mentor"]))
  {
    assert AllPlain("Technical") && AllPlain("Mentor");
  }

  lemma SampleEventWellFormed()
    ensures WellFormed(Words(["Web", "Workshop", "2026"]))
  {
    assert AllPlain("Web") && AllPlain("Workshop") && AllPlain("2026");
  }

  lemma SampleDescriptionWellFormed()
    ensures WellFormed(Words(["Awarded", "for", "exceptional", "mentorship"]))
  {
    assert AllPlain("Awarded") && AllPlain("for") && AllPlain("exceptional") && AllPlain("mentorship");
  }

  /**
   * The sample row of the downloadable template, field by field: the badge
   * name `Technical Mentor` is read as `Mentor`, the event `Web Workshop 2026`
   * as `2026`, the description as `mentorship`.
   */
  lemma TemplateSampleRow()
    ensures RowOf(RenderLine([Words(["user1@example.com"]), Words(["Technical", "Mentor"]),
                              Words(["Web", "Workshop", "2026"]),
                              Words(["Awarded", "for", "exceptional", "mentorship"]),
                              Words(["TN-WEB-2026-001"])]))
         == Some(BulkRequest("user1@example.com", "Mentor", "2026", "mentorship", "TN-WEB-2026-001", Pending, None))
  {
    SampleWordsPlain();
    SampleBadgeWellFormed();
    SampleEventWellFormed();
    SampleDescriptionWellFormed();
    FiveFieldRow("user1@example.com", ["Technical", "Mentor"], ["Web", "Workshop", "2026"],
                 ["Awarded", "for", "exceptional", "mentorship"], "TN-WEB-2026-001");
  }
}
