/** The export and import dialogs as a pair: a roster written by the export is read back by
    the importer, the header line is recognised as a header, and every row yields the
    player's name and phone again. */
module CsvRoundTrip {
  import opened Wrappers
  import opened Domain
  import opened JsText
  import opened Roster
  import opened CsvImport
  import opened PlayerManagement
  import opened Sequences

  /** An opening quote outside quotes starts a quoted section. */
  lemma OpenQuote(row: string, sep: char, cur: string)
    requires row != [] && row[0] == '"'
    ensures Fields(row, sep, false, cur) == Fields(row[1..], sep, true, cur)
  {
  }

  /** A quote inside quotes that is not followed by another one closes the section. */
  lemma CloseQuote(row: string, sep: char, cur: string)
    requires row != [] && row[0] == '"' && (|row| == 1 || row[1] != '"')
    ensures Fields(row, sep, true, cur) == Fields(row[1..], sep, false, cur)
  {
  }

  /** Any other character that is not an unquoted separator joins the current field. */
  lemma KeepChar(row: string, sep: char, inQ: bool, cur: string)
    requires row != [] && row[0] != '"' && (inQ || row[0] != sep)
    ensures Fields(row, sep, inQ, cur) == Fields(row[1..], sep, inQ, cur + [row[0]])
  {
  }

  /** Inside a quoted section the doubled form of `s` followed by the closing quote reads
      back as `s`: quote pairs become one quote and separators stay in the field. */
  lemma {:induction false} ScanQuoted(s: string, rest: string, sep: char, cur: string)
    requires rest == [] || rest[0] != '"'
    ensures Fields(DoubleQuotes(s) + ['"'] + rest, sep, true, cur) == Fields(rest, sep, false, cur + s)
    decreases |s|
  {
    var row := DoubleQuotes(s) + ['"'] + rest;
    if s == [] {
      assert row == ['"'] + rest;
      ConsParts('"', rest);
      CloseQuote(row, sep, cur);
      assert cur + s == cur;
    } else {
      var head := if s[0] == '"' then ['"', '"'] else [s[0]];
      var tail := DoubleQuotes(s[1..]) + ['"'] + rest;
      assert DoubleQuotes(s) == head + DoubleQuotes(s[1..]);
      Regroup(head, DoubleQuotes(s[1..]), ['"'], rest);
      if s[0] == '"' {
        QuoteStep(row, sep, cur);
      } else {
        KeepChar(row, sep, true, cur);
      }
      ScanQuoted(s[1..], rest, sep, cur + [s[0]]);
      AppendHeadTail(cur, s);
    }
  }

  /** An escaped value, read outside quotes, adds the value itself to the current field. */
  lemma ScanEscaped(v: Option<string>, rest: string, sep: char, cur: string)
    requires rest == [] || rest[0] != '"'
    ensures Fields(Escape(v) + rest, sep, false, cur) == Fields(rest, sep, false, cur + v.GetOr([]))
  {
    var e := Escape(v);
    var row := e + rest;
    assert row[0] == '"';
    OpenQuote(row, sep, cur);
    assert row[1..] == DoubleQuotes(v.GetOr([])) + ['"'] + rest;
    ScanQuoted(v.GetOr([]), rest, sep, cur);
  }

  /** An export row scans into exactly the name and the phone (or ''). */
  lemma ScanExportRow(p: Player)
    ensures Fields(ExportRow(p), ',', false, []) == [p.name, p.phone.GetOr([])]
  {
    var second := Escape(p.phone);
    assert ExportRow(p) == Escape(Some(p.name)) + ([','] + second);
    ScanEscaped(Some(p.name), [','] + second, ',', []);
    assert [] + p.name == p.name;
    SeparatorStep([','] + second, ',', p.name);
    assert ([','] + second)[1..] == second;
    assert second + [] == second;
    ScanEscaped(p.phone, [], ',', []);
    assert [] + p.phone.GetOr([]) == p.phone.GetOr([]);
  }

  /** A field the importer gives back unchanged: trimmed, not wrapped in quotes, and on one line. */
  predicate SafeField(s: string) {
    Trimmed(s) && !QuotedAtBothEnds(s) && '\n' !in s
  }

  /** A player whose row survives the round trip: a non-empty safe name and a safe phone. */
  predicate SafeEntry(p: Player) {
    p.name != [] && SafeField(p.name) && SafeField(p.phone.GetOr([]))
  }

  lemma CleanSafe(s: string)
    requires SafeField(s)
    ensures CleanField(s) == s
  {
    TrimOfTrimmed(s);
  }

  /** `parseCsvRow(row, ',')` on an export row of a safe entry returns [name, phone]. */
  lemma ParseExportRow(p: Player)
    requires SafeEntry(p)
    ensures ParsedRow(ExportRow(p), ',') == [p.name, p.phone.GetOr([])]
  {
    var a, b := p.name, p.phone.GetOr([]);
    ScanExportRow(p);
    CleanPair(ExportRow(p), ',', a, b);
  }

  /** A row that scans into two safe fields parses into those two fields. */
  lemma CleanPair(row: string, sep: char, a: string, b: string)
    requires Fields(row, sep, false, []) == [a, b]
    requires SafeField(a) && SafeField(b)
    ensures ParsedRow(row, sep) == [a, b]
  {
    RowOfPair(row, sep, a, b);
    CleanSafe(a);
    CleanSafe(b);
    PairOf(ParsedRow(row, sep), a, b);
  }

  lemma RowOfPair(row: string, sep: char, a: string, b: string)
    requires Fields(row, sep, false, []) == [a, b]
    ensures var f := ParsedRow(row, sep); |f| == 2 && f[0] == CleanField(a) && f[1] == CleanField(b)
  {
  }

  /** The rows the importer should give back for a roster. */
  function ImportedRows(players: seq<Player>): (rows: seq<ImportRow>)
    ensures |rows| == |players|
  {
    if players == [] then [] else [ImportRow(players[0].name, Some(players[0].phone.GetOr([])))] + ImportedRows(players[1..])
  }

  /** A line feed in an escaped value comes from the value. */
  lemma {:induction false} DoubleQuotesKeeps(s: string, c: char)
    requires c != '"'
    ensures c in DoubleQuotes(s) <==> c in s
    decreases |s|
  {
    if s != [] {
      DoubleQuotesKeeps(s[1..], c);
      var d := DoubleQuotes(s[1..]);
      assert s == [s[0]] + s[1..];
      if s[0] == '"' {
        assert c in ['"', '"'] + d <==> c in d;
      } else {
        assert c in [s[0]] + d <==> c == s[0] || c in d;
      }
    }
  }

  /** The export row of a safe entry is a plain line: it starts and ends with a quote and
      holds no line feed. */
  lemma ExportRowShape(p: Player)
    requires SafeEntry(p)
    ensures PlainLine(ExportRow(p))
  {
    DoubleQuotesKeeps(p.name, '\n');
    DoubleQuotesKeeps(p.phone.GetOr([]), '\n');
    var a, b := Escape(Some(p.name)), Escape(p.phone);
    var row := a + [','] + b;
    assert row == ExportRow(p);
    assert '\n' !in a && '\n' !in b;
    assert row[0] == '"' && row[|row| - 1] == '"';
  }

  /** The export row of a safe entry is already trimmed and reads as that entry. */
  lemma ExportRowParses(p: Player)
    requires SafeEntry(p)
    ensures ExportRow(p) != [] && Trim(ExportRow(p)) == ExportRow(p)
    ensures RowOf(ExportRow(p), ',') == Some(ImportRow(p.name, Some(p.phone.GetOr([]))))
  {
    ExportRowShape(p);
    TrimOfTrimmed(ExportRow(p));
    ParseExportRow(p);
    TrimOfTrimmed(p.name);
  }

  /** A trimmed data line that reads as a row contributes that row first. */
  lemma ParseRowsCons(line: string, tail: seq<string>, sep: char, r: ImportRow)
    requires line != [] && Trim(line) == line && RowOf(line, sep) == Some(r)
    ensures ParseRows([line] + tail, sep) == [r] + ParseRows(tail, sep)
  {
    ConsParts(line, tail);
  }

  lemma {:induction false} ParseExportRows(players: seq<Player>)
    requires forall p :: p in players ==> SafeEntry(p)
    ensures ParseRows(ExportRows(players), ',') == ImportedRows(players)
    decreases |players|
  {
    if players != [] {
      var p := players[0];
      assert p in players;
      assert forall q :: q in players[1..] ==> q in players;
      ParseExportRows(players[1..]);
      ExportRowParses(p);
      ParseRowsCons(ExportRow(p), ExportRows(players[1..]), ',', ImportRow(p.name, Some(p.phone.GetOr([]))));
    }
  }

  /** Splitting a line with no line feed gives the line itself. */
  lemma {:induction false} SplitOnAbsent(a: string, c: char)
    requires c !in a
    ensures SplitOn(a, c) == [a]
    decreases |a|
  {
    if a != [] {
      assert c !in a[1..];
      SplitOnAbsent(a[1..], c);
      assert [a[0]] + a[1..] == a;
    }
  }

  /** Splitting at the first line feed. */
  lemma {:induction false} SplitOnFirst(a: string, b: string, c: char)
    requires c !in a
    ensures SplitOn(a + [c] + b, c) == [a] + SplitOn(b, c)
    decreases |a|
  {
    var s := a + [c] + b;
    if a == [] {
      assert s == [c] + b && s[1..] == b;
    } else {
      assert s[1..] == a[1..] + [c] + b;
      assert c !in a[1..];
      SplitOnFirst(a[1..], b, c);
      assert [a[0]] + a[1..] == a;
    }
  }

  /** A line the export writes: not empty, no line feed, no space at either end. */
  predicate PlainLine(l: string) {
    l != [] && '\n' !in l && Trimmed(l)
  }

  /** Splitting the join of lines without line feeds gives the lines back. */
  lemma {:induction false} SplitJoin(lines: seq<string>)
    requires lines != [] && forall k :: 0 <= k < |lines| ==> '\n' !in lines[k]
    ensures SplitOn(JoinLines(lines), '\n') == lines
    decreases |lines|
  {
    if |lines| == 1 {
      SplitOnAbsent(lines[0], '\n');
    } else {
      SplitJoin(lines[1..]);
      SplitOnFirst(lines[0], JoinLines(lines[1..]), '\n');
      assert [lines[0]] + lines[1..] == lines;
    }
  }

  /** The join of plain lines starts like the first line and ends like the last, so it is
      trimmed. */
  lemma {:induction false} JoinTrimmed(lines: seq<string>)
    requires lines != [] && forall k :: 0 <= k < |lines| ==> PlainLine(lines[k])
    ensures JoinLines(lines) != [] && Trimmed(JoinLines(lines))
    decreases |lines|
  {
    assert PlainLine(lines[0]);
    if |lines| > 1 {
      TailPlain(lines);
      JoinTrimmed(lines[1..]);
      var j := lines[0] + ['\n'] + JoinLines(lines[1..]);
      assert j[0] == lines[0][0];
      assert j[|j| - 1] == JoinLines(lines[1..])[|JoinLines(lines[1..])| - 1];
    }
  }

  lemma TailPlain(lines: seq<string>)
    requires lines != [] && forall k :: 0 <= k < |lines| ==> PlainLine(lines[k])
    ensures forall k :: 0 <= k < |lines[1..]| ==> PlainLine(lines[1..][k])
  {
    forall k | 0 <= k < |lines[1..]| ensures PlainLine(lines[1..][k]) {
      assert lines[1..][k] == lines[k + 1];
    }
  }

  function Last(s: string): char
    requires s != []
  {
    s[|s| - 1]
  }

  /** Plain lines survive the split (no carriage return to drop) and the blank-line filter. */
  lemma LinesOfJoin(lines: seq<string>)
    requires lines != [] && forall k :: 0 <= k < |lines| ==> PlainLine(lines[k])
    ensures NonBlank(Lines(JoinLines(lines))) == lines
  {
    SplitJoin(lines);
    LinesOfPieces(JoinLines(lines), lines);
    NonBlankKeeps(lines);
  }

  /** No plain line ends with a carriage return, so `Lines` keeps the pieces as they are. */
  lemma LinesOfPieces(text: string, lines: seq<string>)
    requires SplitOn(text, '\n') == lines
    requires forall k :: 0 <= k < |lines| ==> PlainLine(lines[k])
    ensures Lines(text) == lines
  {
    var ls := Lines(text);
    forall i | 0 <= i < |lines| ensures ls[i] == lines[i] {
      assert PlainLine(lines[i]);
    }
  }

  lemma {:induction false} NonBlankKeeps(lines: seq<string>)
    requires forall k :: 0 <= k < |lines| ==> PlainLine(lines[k])
    ensures NonBlank(lines) == lines
    decreases |lines|
  {
    if lines != [] {
      assert PlainLine(lines[0]);
      TailPlain(lines);
      NonBlankKeeps(lines[1..]);
      NonBlankCons(lines);
      HeadTail(lines);
    }
  }

  lemma NonBlankCons(lines: seq<string>)
    requires lines != [] && PlainLine(lines[0])
    ensures NonBlank(lines) == [lines[0]] + NonBlank(lines[1..])
  {
    TrimOfTrimmed(lines[0]);
  }

  lemma HeaderPlain()
    ensures PlainLine(HEADER)
  {
    assert HEADER[0] == 'H' && HEADER[|HEADER| - 1] == 'o';
  }

  /** Every row of an export of safe entries is a plain line. */
  lemma {:induction false} ExportRowsPlain(players: seq<Player>)
    requires forall p :: p in players ==> SafeEntry(p)
    ensures forall k :: 0 <= k < |players| ==> PlainLine(ExportRows(players)[k])
    decreases |players|
  {
    if players != [] {
      assert players[0] in players;
      ExportRowShape(players[0]);
      assert forall q :: q in players[1..] ==> q in players;
      ExportRowsPlain(players[1..]);
      ConsPlain(ExportRow(players[0]), ExportRows(players[1..]));
    }
  }

  lemma ConsPlain(h: string, rows: seq<string>)
    requires PlainLine(h) && forall k :: 0 <= k < |rows| ==> PlainLine(rows[k])
    ensures forall k :: 0 <= k < |[h] + rows| ==> PlainLine(([h] + rows)[k])
  {
    forall k | 0 <= k < |[h] + rows| ensures PlainLine(([h] + rows)[k]) {
      if k > 0 {
        assert ([h] + rows)[k] == rows[k - 1];
      }
    }
  }

  /** The export header is recognised as a header and makes the comma the separator. */
  lemma HeaderRecognised()
    ensures IsHeader(HEADER)
    ensures Separator(HEADER) == ','
  {
    var low := ToLower(HEADER);
    assert low[..|KEYWORD_FULL_NAME|] == KEYWORD_FULL_NAME;
    ContainsChar(HEADER, ';');
    assert ';' !in HEADER;
  }

  /** A header written in capitals, "HỌ VÀ TÊN;SĐT", is still recognised, with the semicolon
      as its separator. */
  lemma CapitalHeaderRecognised()
    ensures IsHeader("H\U{1ECC} V\U{00C0} T\U{00CA}N;S\U{0110}T")
    ensures Separator("H\U{1ECC} V\U{00C0} T\U{00CA}N;S\U{0110}T") == ';'
  {
    var first := "H\U{1ECC} V\U{00C0} T\U{00CA}N;S\U{0110}T";
    var low := ToLower(first);
    assert low[..|KEYWORD_FULL_NAME|] == KEYWORD_FULL_NAME;
    ContainsChar(first, ';');
    assert first[9] == ';';
  }

  /** Exporting a non-empty roster of safe entries and importing the file gives back every
      player's name and phone, in order. */
  lemma ExportImportRoundTrip(players: seq<Player>)
    requires players != [] && forall p :: p in players ==> SafeEntry(p)
    ensures ExtractPlayers(ExportCsv(players).value) == Success(ImportedRows(players))
  {
    var rows := ExportRows(players);
    var lines := [HEADER] + rows;
    var text := JoinLines(lines);
    assert ExportCsv(players).value == text;
    ExportRowsPlain(players);
    HeaderPlain();
    ConsPlain(HEADER, rows);
    JoinTrimmed(lines);
    TrimOfTrimmed(text);
    LinesOfJoin(lines);
    HeaderRecognised();
    ConsParts(HEADER, rows);
    ParseExportRows(players);
  }
}
