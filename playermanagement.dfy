/** The player-management dialog (PlayerManagementModal.tsx): the CSV export of the
    roster it is shown, and the input guards of its add box and its editable rows. */
module PlayerManagement {
  import opened Wrappers
  import opened Domain
  import opened JsText
  import Roster
  import CsvImport
  import Sequences

  /** `replace(/"/g, '""')`: every quote written twice. */
  function DoubleQuotes(s: string): (r: string)
    ensures |r| >= |s|
    ensures '"' !in s ==> r == s
  {
    if s == [] then []
    else if s[0] == '"' then ['"', '"'] + DoubleQuotes(s[1..])
    else [s[0]] + DoubleQuotes(s[1..])
  }

  /** Collapsing the quote pairs, as the importer does, undoes the doubling. */
  lemma {:induction false} CollapseUndoesDoubling(s: string)
    ensures CsvImport.Collapse(DoubleQuotes(s)) == s
  {
    if s != [] {
      CollapseUndoesDoubling(s[1..]);
      var d := DoubleQuotes(s[1..]);
      if s[0] == '"' {
        assert (['"', '"'] + d)[2..] == d;
      } else {
        assert ([s[0]] + d)[1..] == d;
      }
      assert s == [s[0]] + s[1..];
    }
  }

  /** `escapeCsvValue`: null/undefined is `""`; any other value is wrapped in quotes, and
      a value holding a comma, a quote or a line feed has its quotes doubled (`includes` of a
      one-character string is membership, by `ContainsChar`). */
  function Escape(v: Option<string>): (r: string)
    ensures QuotedAtBothEnds(r) && |r| >= 2
    ensures r == ['"'] + DoubleQuotes(v.GetOr([])) + ['"']
  {
    match v
    case None => "\"\""
    case Some(s) =>
      if ',' in s || '"' in s || '\n' in s then ['"'] + DoubleQuotes(s) + ['"']
      else ['"'] + s + ['"']
  }

  /** The membership test of `Escape` is the source's three `includes` calls. */
  lemma EscapeTest(s: string)
    ensures (',' in s || '"' in s || '\n' in s) <==> (Contains(s, ",") || Contains(s, "\"") || Contains(s, "\n"))
  {
    ContainsChar(s, ',');
    ContainsChar(s, '"');
    ContainsChar(s, '\n');
  }

  /** The first line of the export file. */
  const HEADER: string := "H\U{1ECD} v\U{00E0} t\U{00EA}n,SDT/zalo"

  /** `[escapeCsvValue(p.name), escapeCsvValue(p.phone)].join(',')`. */
  function ExportRow(p: Player): string {
    Escape(Some(p.name)) + [','] + Escape(p.phone)
  }

  /** One export row per player, in list order. */
  function ExportRows(players: seq<Player>): (rows: seq<string>)
    ensures |rows| == |players|
  {
    if players == [] then [] else [ExportRow(players[0])] + ExportRows(players[1..])
  }

  /** `join("\n")`. */
  function JoinLines(lines: seq<string>): string {
    if lines == [] then []
    else if |lines| == 1 then lines[0]
    else lines[0] + ['\n'] + JoinLines(lines[1..])
  }

  /** `handleExport`: None (a notice) for an empty list; otherwise the header line and one
      row per player, in list order. The byte-order mark of the download is not part of it. */
  function ExportCsv(players: seq<Player>): (r: Option<string>)
    ensures r.None? <==> players == []
    ensures r.Some? ==> r.value == JoinLines([HEADER] + ExportRows(players))
  {
    if players == [] then None
    else
      Sequences.ConsParts(HEADER, ExportRows(players));
      Some(HEADER + ['\n'] + JoinLines(ExportRows(players)))
  }

  /** `handleAddClick`: a blank input is ignored, otherwise its trimmed form is added. */
  function AddClick(input: string): (r: Option<string>)
    ensures r.None? <==> AllSpace(input)
    ensures r.Some? ==> r.value == Trim(input)
    ensures r.Some? ==> r.value != [] && Trimmed(r.value)
  {
    BlankIffAllSpace(input);
    var t := Trim(input);
    if t != [] then Some(t) else None
  }

  /** A name the add box lets through is never refused by the roster: the player is added
      under exactly that name. */
  lemma AddClickAdds(players: seq<Player>, id: PlayerId, input: string)
    requires AddClick(input).Some?
    ensures Roster.AddPlayer(players, id, AddClick(input).value) ==
            players + [Roster.Regular(id, AddClick(input).value, Some(""))]
  {
    TrimIdempotent(input);
  }

  /** `EditablePlayerRow.handleSave`: the trimmed inputs are sent only when the name is not
      blank and the name or the phone differs from the stored one; the row leaves edit mode
      either way. */
  function SaveEdit(p: Player, name: string, phone: string): (r: Option<(string, string)>)
    ensures AllSpace(name) ==> r.None?
    ensures r.Some? ==> r.value.0 != [] && Trimmed(r.value.0) && Trimmed(r.value.1)
    ensures r.Some? ==> r.value.0 != p.name || r.value.1 != p.phone.GetOr([])
    ensures r.Some? ==> r.value == (Trim(name), Trim(phone))
    ensures !AllSpace(name) && (Trim(name) != p.name || Trim(phone) != p.phone.GetOr([])) ==> r.Some?
  {
    BlankIffAllSpace(name);
    if Trim(name) != [] && (Trim(name) != p.name || Trim(phone) != p.phone.GetOr([])) then Some((Trim(name), Trim(phone)))
    else None
  }

  /** `handleCancel`: the inputs go back to the stored name and phone (or ''). */
  function CancelEdit(p: Player): (inputs: (string, string))
    ensures inputs.0 == p.name
    ensures p.phone.Some? ==> inputs.1 == p.phone.value
    ensures p.phone.None? ==> inputs.1 == []
  {
    (p.name, p.phone.GetOr([]))
  }

  /** Saving the inputs a cancel restored sends nothing, as long as the stored name and phone
      are trimmed; an untrimmed stored name (a replace import keeps names as given) would be
      sent trimmed. */
  lemma SaveAfterCancel(p: Player)
    requires Trimmed(p.name) && Trimmed(p.phone.GetOr([]))
    ensures SaveEdit(p, CancelEdit(p).0, CancelEdit(p).1).None?
  {
    TrimOfTrimmed(p.name);
    TrimOfTrimmed(p.phone.GetOr([]));
  }

  /** After a save reaches the roster, saving the same inputs again sends nothing. */
  lemma SaveSettles(players: seq<Player>, k: int, name: string, phone: string)
    requires 0 <= k < |players| && SaveEdit(players[k], name, phone).Some?
    ensures var sent := SaveEdit(players[k], name, phone).value;
      var updated := Roster.UpdateInfo(players, players[k].id, sent.0, sent.1);
      SaveEdit(updated[k], name, phone).None?
  {
  }
}
