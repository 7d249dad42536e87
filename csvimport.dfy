/** The CSV reader of the player import dialog (ImportPlayersModal.tsx:12-41, 62-104):
    the quote-aware row scanner, the per-field clean-up, and the pipeline that turns the
    text of a file into name/phone rows or one of its error notices. */
module CsvImport {
  import opened Wrappers
  import opened JsText
  import opened Roster

  /** The scanner of `parseCsvRow` from one position on, in quote state `inQ` with the
      current field `cur` so far: a quote inside a quoted section followed by a quote is one
      literal quote, any other quote toggles the state, a separator outside quotes ends the
      field, and every other character is kept. */
  function Fields(row: string, sep: char, inQ: bool, cur: string): seq<string>
    decreases |row|
  {
    if row == [] then [cur]
    else if row[0] == '"' then
      if inQ && |row| > 1 && row[1] == '"' then Fields(row[2..], sep, inQ, cur + ['"'])
      else Fields(row[1..], sep, !inQ, cur)
    else if row[0] == sep && !inQ then [cur] + Fields(row[1..], sep, inQ, [])
    else Fields(row[1..], sep, inQ, cur + [row[0]])
  }

  /** The number of separators that stand outside quotes, under the same quote rules. */
  function UnquotedSeparators(row: string, sep: char, inQ: bool): nat
    decreases |row|
  {
    if row == [] then 0
    else if row[0] == '"' then
      if inQ && |row| > 1 && row[1] == '"' then UnquotedSeparators(row[2..], sep, inQ)
      else UnquotedSeparators(row[1..], sep, !inQ)
    else if row[0] == sep && !inQ then 1 + UnquotedSeparators(row[1..], sep, inQ)
    else UnquotedSeparators(row[1..], sep, inQ)
  }

  /** A row splits into one field more than it has separators outside quotes; in
      particular the field list is never empty. */
  lemma {:induction false} FieldCount(row: string, sep: char, inQ: bool, cur: string)
    ensures |Fields(row, sep, inQ, cur)| == UnquotedSeparators(row, sep, inQ) + 1
    decreases |row|
  {
    if row != [] {
      if row[0] == '"' {
        if inQ && |row| > 1 && row[1] == '"' {
          FieldCount(row[2..], sep, inQ, cur + ['"']);
        } else {
          FieldCount(row[1..], sep, !inQ, cur);
        }
      } else if row[0] == sep && !inQ {
        FieldCount(row[1..], sep, inQ, []);
      } else {
        FieldCount(row[1..], sep, inQ, cur + [row[0]]);
      }
    }
  }

  /** `replace(/""/g, '"')`: every pair of quotes, read left to right, becomes one. */
  function Collapse(s: string): (r: string)
    ensures |r| <= |s|
  {
    if s == [] then []
    else if |s| > 1 && s[0] == '"' && s[1] == '"' then ['"'] + Collapse(s[2..])
    else [s[0]] + Collapse(s[1..])
  }

  /** The clean-up of one scanned field: trimmed, and a field still wrapped in quotes is
      unwrapped (`slice(1, -1)`), its quote pairs collapsed and trimmed again. */
  function CleanField(f: string): (r: string)
    ensures Trimmed(r)
    ensures !QuotedAtBothEnds(Trim(f)) ==> r == Trim(f)
    ensures QuotedAtBothEnds(Trim(f)) && |Trim(f)| >= 2 ==> r == Trim(Collapse(Trim(f)[1..|Trim(f)| - 1]))
    ensures QuotedAtBothEnds(Trim(f)) && |Trim(f)| < 2 ==> r == []
  {
    var t := Trim(f);
    if QuotedAtBothEnds(t) then
      var inner := if |t| >= 2 then t[1..|t| - 1] else [];
      Trim(Collapse(inner))
    else t
  }

  /** What `parseCsvRow(row, separator)` returns. */
  function ParsedRow(row: string, sep: char): (fields: seq<string>)
    ensures |fields| == UnquotedSeparators(row, sep, false) + 1
    ensures forall k :: 0 <= k < |fields| ==> Trimmed(fields[k])
  {
    var raw := Fields(row, sep, false, []);
    FieldCount(row, sep, false, []);
    seq(|raw|, k requires 0 <= k < |raw| => CleanField(raw[k]))
  }

  /** `parseCsvRow`: the character loop over the row, then `map` of the clean-up. */
  method ParseCsvRow(row: string, sep: char) returns (fields: seq<string>)
    ensures fields == ParsedRow(row, sep)
  {
    var raw := ScanRow(row, sep);
    fields := seq(|raw|, k requires 0 <= k < |raw| => CleanField(raw[k]));
  }

  /** The character loop of `parseCsvRow`: a field is pushed at every separator outside
      quotes and once at the end. */
  method ScanRow(row: string, sep: char) returns (raw: seq<string>)
    ensures raw == Fields(row, sep, false, [])
  {
    raw := [];
    var cur: string := [];
    var inQ := false;
    var i := 0;
    while i < |row|
      invariant 0 <= i <= |row|
      invariant raw + Fields(row[i..], sep, inQ, cur) == Fields(row, sep, false, [])
      decreases |row| - i
    {
      var c := row[i];
      if c == '"' {
        if inQ && i + 1 < |row| && row[i + 1] == '"' {
          QuoteStep(row[i..], sep, cur);
          assert row[i..][2..] == row[i + 2..];
          cur := cur + ['"'];
          i := i + 2;
        } else {
          assert row[i..][1..] == row[i + 1..];
          inQ := !inQ;
          i := i + 1;
        }
      } else if c == sep && !inQ {
        SeparatorStep(row[i..], sep, cur);
        assert row[i..][1..] == row[i + 1..];
        raw := raw + [cur];
        cur := [];
        i := i + 1;
      } else {
        assert row[i..][1..] == row[i + 1..];
        cur := cur + [c];
        i := i + 1;
      }
    }
    assert row[i..] == [];
    raw := raw + [cur];
  }

  lemma QuoteStep(rest: string, sep: char, cur: string)
    requires |rest| > 1 && rest[0] == '"' && rest[1] == '"'
    ensures Fields(rest, sep, true, cur) == Fields(rest[2..], sep, true, cur + ['"'])
  {
  }

  lemma SeparatorStep(rest: string, sep: char, cur: string)
    requires rest != [] && rest[0] == sep && sep != '"'
    ensures Fields(rest, sep, false, cur) == [cur] + Fields(rest[1..], sep, false, [])
  {
  }

  /** `s.split(c)`: the pieces between the occurrences of `c`. */
  function SplitOn(s: string, c: char): (pieces: seq<string>)
    ensures |pieces| >= 1
  {
    if s == [] then [[]]
    else
      var rest := SplitOn(s[1..], c);
      if s[0] == c then [[]] + rest else [[s[0]] + rest[0]] + rest[1..]
  }

  /** A carriage return that precedes a line feed belongs to the line break. */
  function DropCR(line: string): (r: string)
    ensures line != [] && line[|line| - 1] == '\r' ==> r + ['\r'] == line
    ensures (line == [] || line[|line| - 1] != '\r') ==> r == line
  {
    if line != [] && line[|line| - 1] == '\r' then line[..|line| - 1] else line
  }

  /** `text.split(/\r?\n/)`: split at every line feed, each line feed taking a carriage
      return right before it. */
  function Lines(text: string): (lines: seq<string>)
    ensures |lines| >= 1
  {
    var pieces := SplitOn(text, '\n');
    seq(|pieces|, i requires 0 <= i < |pieces| => if i < |pieces| - 1 then DropCR(pieces[i]) else pieces[i])
  }

  /** `filter(line => line.trim() !== '')`. */
  function NonBlank(lines: seq<string>): (r: seq<string>)
    ensures |r| <= |lines|
    ensures forall k :: 0 <= k < |r| ==> Trim(r[k]) != []
    ensures forall l :: l in r <==> l in lines && Trim(l) != []
  {
    if lines == [] then []
    else
      assert forall l :: l in lines <==> l == lines[0] || l in lines[1..];
      if Trim(lines[0]) == [] then NonBlank(lines[1..])
      else [lines[0]] + NonBlank(lines[1..])
  }

  /** The blank filter keeps line order: it distributes over concatenation. */
  lemma {:induction false} NonBlankAppend(a: seq<string>, b: seq<string>)
    ensures NonBlank(a + b) == NonBlank(a) + NonBlank(b)
    decreases |a|
  {
    if a == [] {
      assert a + b == b;
    } else {
      assert (a + b)[0] == a[0];
      assert (a + b)[1..] == a[1..] + b;
      NonBlankAppend(a[1..], b);
    }
  }

  /** One line is kept exactly when it is not blank. */
  lemma NonBlankOne(l: string)
    ensures NonBlank([l]) == (if Trim(l) == [] then [] else [l])
  {
    assert [l][1..] == [];
  }

  /** `;` when the first line has one, otherwise `,`. */
  function Separator(first: string): char {
    if Contains(first, ";") then ';' else ','
  }

  /** The separator is `;` exactly when the first line holds a `;`, and `,` otherwise. */
  lemma SeparatorRule(first: string)
    ensures Separator(first) == ';' <==> ';' in first
    ensures Separator(first) != ';' ==> Separator(first) == ','
  {
    ContainsChar(first, ';');
  }

  /** The header keywords, matched against the lower-cased first line. */
  const KEYWORD_FULL_NAME: string := "h\U{1ECD} v\U{00E0} t\U{00EA}n"
  const KEYWORD_SDT: string := "sdt"
  const KEYWORD_ZALO: string := "zalo"
  const KEYWORD_NAME: string := "name"
  const KEYWORD_PHONE: string := "phone"

  predicate IsHeader(first: string) {
    var low := ToLower(first);
    Contains(low, KEYWORD_FULL_NAME) || Contains(low, KEYWORD_SDT) || Contains(low, KEYWORD_ZALO) ||
    Contains(low, KEYWORD_NAME) || Contains(low, KEYWORD_PHONE)
  }

  /** A row the dialog accepts: a non-blank name, and both name and phone trimmed. */
  predicate ValidRow(r: ImportRow) {
    Trim(r.name) != [] && Trimmed(r.name) && r.phone.Some? && Trimmed(r.phone.value)
  }

  /** One trimmed line as a player: column 0 the name, column 1 the phone (`|| ''`);
      None when the name is blank. */
  function RowOf(line: string, sep: char): (r: Option<ImportRow>)
    ensures r.Some? ==> ValidRow(r.value)
    ensures r.Some? <==> ParsedRow(line, sep)[0] != []
    ensures r.Some? ==> r.value.name == ParsedRow(line, sep)[0]
    ensures r.Some? && |ParsedRow(line, sep)| > 1 ==> r.value.phone == Some(ParsedRow(line, sep)[1])
    ensures r.Some? && |ParsedRow(line, sep)| == 1 ==> r.value.phone == Some([])
  {
    var cols := ParsedRow(line, sep);
    var name := cols[0];
    var phone := if |cols| > 1 then cols[1] else [];
    if Trim(name) != [] then Some(ImportRow(name, Some(phone))) else None
  }

  /** The data lines to players: trimmed, blank ones skipped, rows with a blank name dropped. */
  function ParseRows(lines: seq<string>, sep: char): (rows: seq<ImportRow>)
    ensures |rows| <= |lines|
    ensures forall row :: row in rows ==> ValidRow(row)
  {
    if lines == [] then []
    else
      var t := Trim(lines[0]);
      var rest := ParseRows(lines[1..], sep);
      var r := if t == [] then None else RowOf(t, sep);
      if r.Some? then [r.value] + rest else rest
  }

  /** The data lines are read one by one, in order: parsing a concatenation parses each part. */
  lemma {:induction false} ParseRowsAppend(a: seq<string>, b: seq<string>, sep: char)
    ensures ParseRows(a + b, sep) == ParseRows(a, sep) + ParseRows(b, sep)
    decreases |a|
  {
    if a == [] {
      assert a + b == b;
    } else {
      assert (a + b)[0] == a[0];
      assert (a + b)[1..] == a[1..] + b;
      ParseRowsAppend(a[1..], b, sep);
    }
  }

  /** One more line at the end adds the row it reads, if any: a blank line or a line with a
      blank name adds nothing. */
  lemma ParseRowsSnoc(lines: seq<string>, line: string, sep: char)
    ensures Trim(line) == [] ==> ParseRows(lines + [line], sep) == ParseRows(lines, sep)
    ensures Trim(line) != [] && RowOf(Trim(line), sep).None? ==> ParseRows(lines + [line], sep) == ParseRows(lines, sep)
    ensures Trim(line) != [] && RowOf(Trim(line), sep).Some? ==>
      ParseRows(lines + [line], sep) == ParseRows(lines, sep) + [RowOf(Trim(line), sep).value]
  {
    ParseRowsAppend(lines, [line], sep);
    ParseRowsOne(line, sep);
  }

  lemma ParseRowsOne(line: string, sep: char)
    ensures ParseRows([line], sep) ==
      if Trim(line) == [] || RowOf(Trim(line), sep).None? then [] else [RowOf(Trim(line), sep).value]
  {
    assert [line][0] == line;
    assert [line][1..] == [];
    assert ParseRows([line][1..], sep) == [];
  }

  /** The notices of the dialog. */
  datatype ImportError =
    | Unreadable         // the file could not be read or is empty
    | NoPlayerData       // no non-blank line
    | NoDataAfterHeader  // only a header line
    | NoValidPlayers     // no line with a name

  /** The reading step of `processFile` on the text of the file. */
  function ExtractPlayers(text: string): (r: Result<seq<ImportRow>, ImportError>)
    ensures r == Failure(Unreadable) <==> text == []
    ensures r.Success? ==> r.value != [] && forall row :: row in r.value ==> ValidRow(row)
  {
    if text == [] then Failure(Unreadable)
    else
      var lines := NonBlank(Lines(Trim(text)));
      if lines == [] then Failure(NoPlayerData)
      else
        var sep := Separator(lines[0]);
        var data := if IsHeader(lines[0]) then lines[1..] else lines;
        if data == [] then Failure(NoDataAfterHeader)
        else
          var rows := ParseRows(data, sep);
          if rows == [] then Failure(NoValidPlayers) else Success(rows)
  }

  /** The outcome of reading a non-empty file, case by case, over its non-blank lines: no
      line gives NoPlayerData; a lone header line gives NoDataAfterHeader; otherwise the
      separator comes from the first line, the first line is skipped exactly when it is a
      header, and the remaining lines parse to the players, NoValidPlayers when none has a
      name. */
  lemma ExtractPlayersCases(text: string)
    requires text != []
    ensures var lines := NonBlank(Lines(Trim(text)));
      lines == [] <==> ExtractPlayers(text) == Failure(NoPlayerData)
    ensures var lines := NonBlank(Lines(Trim(text)));
      lines != [] && |lines| == 1 && IsHeader(lines[0]) <==> ExtractPlayers(text) == Failure(NoDataAfterHeader)
    ensures var lines := NonBlank(Lines(Trim(text)));
      lines != [] && IsHeader(lines[0]) && |lines| > 1 ==>
        ExtractPlayers(text) == (if ParseRows(lines[1..], Separator(lines[0])) == [] then Failure(NoValidPlayers)
                                 else Success(ParseRows(lines[1..], Separator(lines[0]))))
    ensures var lines := NonBlank(Lines(Trim(text)));
      lines != [] && !IsHeader(lines[0]) ==>
        ExtractPlayers(text) == (if ParseRows(lines, Separator(lines[0])) == [] then Failure(NoValidPlayers)
                                 else Success(ParseRows(lines, Separator(lines[0]))))
  {
  }

  /** A file of nothing but white space has no player data. */
  lemma BlankFileHasNoData(text: string)
    requires text != [] && AllSpace(text)
    ensures ExtractPlayers(text) == Failure(NoPlayerData)
  {
    BlankIffAllSpace(text);
    NoLinesOfEmpty();
  }

  lemma NoLinesOfEmpty()
    ensures NonBlank(Lines([])) == []
  {
    assert SplitOn([], '\n') == [[]];
    assert Lines([]) == [[]];
    assert Trim([]) == [];
  }
}
