/**
 * The README side of scripts/check_certificates.py: reading the certificate
 * table out of the README text, rewriting its rows from the check results,
 * and rewriting the line after each "Recommend Certificate" marker.
 */
module Readme {
  import opened Wrappers
  import opened Text

  // ---------- Reading the table ----------

  /** The header line that opens the table. */
  const TableHeader := "| Company | Type | Status |"

  /** One table row as `parse_readme_table` records it, with the line it came from. */
  datatype Row = Row(company: string, certType: string, status: string, validFrom: string,
                     validTo: string, download: string, lineIndex: nat)

  /** The first line at or after `i` that starts with the header. */
  function HeaderFrom(lines: seq<string>, i: nat): (r: Option<nat>)
    requires i <= |lines|
    ensures r.Some? ==> i <= r.value < |lines| && StartsWith(lines[r.value], TableHeader)
    ensures forall k :: i <= k < |lines| && (r.None? || k < r.value) ==> !StartsWith(lines[k], TableHeader)
    decreases |lines| - i
  {
    if i == |lines| then None
    else if StartsWith(lines[i], TableHeader) then Some(i)
    else HeaderFrom(lines, i + 1)
  }

  /** The row loop stops at a line that does not start with `|` or that is the `|---` rule. */
  predicate EndsTable(line: string) {
    !StartsWith(line, "|") || StartsWith(line, "|---")
  }

  /** `line.split('|')[1:-1]`. */
  function Inner(parts: seq<string>): seq<string> {
    if |parts| < 2 then [] else parts[1..|parts| - 1]
  }

  /** `[cell.strip() for cell in ps]`. */
  function StripAll(ps: seq<string>): (r: seq<string>)
    ensures |r| == |ps|
  {
    if ps == [] then [] else [Strip(ps[0])] + StripAll(ps[1..])
  }

  /** The stripped cells between the outer bars of a table line. */
  function Cells(line: string): seq<string> {
    StripAll(Inner(Split(line, '|')))
  }

  /** The row a line of at least five cells gives; `download` is empty without a sixth cell. */
  function RowOf(cells: seq<string>, i: nat): (r: Row)
    requires |cells| >= 5
    ensures r.lineIndex == i
    ensures r.company == cells[0] && r.certType == cells[1] && r.status == cells[2]
    ensures r.validFrom == cells[3] && r.validTo == cells[4]
    ensures r.download == if |cells| > 5 then cells[5] else ""
  {
    Row(cells[0], cells[1], cells[2], cells[3], cells[4], if |cells| > 5 then cells[5] else "", i)
  }

  /** The row loop from line `i` on, as a function. Lines are split on `\n`, so `rstrip('\n')` leaves them unchanged. */
  function TableRows(lines: seq<string>, i: nat): seq<Row>
    decreases |lines| - i
  {
    if i >= |lines| || EndsTable(lines[i]) then []
    else LineRows(lines, i) + TableRows(lines, i + 1)
  }

  /** What line `i` adds: its row when it has at least five cells. */
  function LineRows(lines: seq<string>, i: nat): seq<Row>
    requires i < |lines|
  {
    var cells := Cells(lines[i]);
    if |cells| >= 5 then [RowOf(cells, i)] else []
  }

  /** The first line at or after `i` where the row loop stops (or the end). */
  function TableEnd(lines: seq<string>, i: nat): (e: nat)
    ensures i <= |lines| ==> i <= e <= |lines|
    ensures i > |lines| ==> e == i
    ensures forall k :: i <= k < e ==> k < |lines| && !EndsTable(lines[k])
    ensures e < |lines| ==> EndsTable(lines[e])
    decreases |lines| - i
  {
    if i >= |lines| || EndsTable(lines[i]) then i else TableEnd(lines, i + 1)
  }

  /** `parse_readme_table`: the rows after the header (skipping the rule line) and the split lines; no rows without a header. */
  function ParseReadmeTable(content: string): (seq<Row>, seq<string>) {
    var lines := Split(content, '\n');
    var start := HeaderFrom(lines, 0);
    if start.None? then ([], lines) else (TableRows(lines, start.value + 2), lines)
  }

  // ---------- Rewriting a row ----------

  /** The fixed status cell for a status (case-insensitive); none for any other status. */
  function TableLabel(status: string): (r: Option<string>)
    ensures r.Some? <==> Lower(status) in ["valid", "revoked", "unknown"]
  {
    var s := Lower(status);
    if s == "valid" then Some("\U{2705} Signed")
    else if s == "revoked" then Some("\U{274C} Revoked")
    else if s == "unknown" then Some("\U{26A0}\U{FE0F} Status: Unknown")
    else None
  }

  /** A cell as the row is written back: one space on either side. */
  function Padded(s: string): string {
    " " + s + " "
  }

  /**
   * The cells a row update reads from the old line raise `IndexError` when
   * missing: the old status when the status has no label, the old dates
   * when the new ones are empty.
   */
  predicate ReadsMissing(row: Row, parts: seq<string>) {
    (TableLabel(row.status).None? && |parts| <= 3)
    || (row.validFrom == "" && |parts| <= 4)
    || (row.validTo == "" && |parts| <= 5)
  }

  /** `if len(ps) > k: ps[k] = v`: only index `k` changes, and only when the line has it. */
  function Assign(ps: seq<string>, k: nat, v: string): (r: seq<string>)
    ensures |r| == |ps|
    ensures forall j :: 0 <= j < |ps| ==> r[j] == if j == k then v else ps[j]
  {
    if |ps| > k then ps[k := v] else ps
  }

  /**
   * Column `k` of the rewritten line: the status label (the old cell, stripped,
   * for any other status), the new dates (the old cells when empty), the
   * download link, each padded; any other column as it was.
   */
  function NewCell(row: Row, parts: seq<string>, k: nat): string
    requires !ReadsMissing(row, parts) && k < |parts|
  {
    if k == 3 then Padded(if TableLabel(row.status).Some? then TableLabel(row.status).value else Strip(parts[3]))
    else if k == 4 then Padded(if row.validFrom != "" then row.validFrom else Strip(parts[4]))
    else if k == 5 then Padded(if row.validTo != "" then row.validTo else Strip(parts[5]))
    else if k == 6 then Padded(row.download)
    else parts[k]
  }

  /** The parts of the rewritten line: columns 3 to 6 replaced where the line has them, everything else kept. */
  function NewParts(row: Row, parts: seq<string>): (r: seq<string>)
    requires !ReadsMissing(row, parts)
    ensures |r| == |parts|
    ensures forall k :: 0 <= k < |parts| ==> r[k] == NewCell(row, parts, k)
  {
    var status := if TableLabel(row.status).Some? then TableLabel(row.status).value else Strip(parts[3]);
    var from := if row.validFrom != "" then row.validFrom else Strip(parts[4]);
    var to := if row.validTo != "" then row.validTo else Strip(parts[5]);
    Assign(Assign(Assign(Assign(parts, 3, Padded(status)), 4, Padded(from)), 5, Padded(to)), 6, Padded(row.download))
  }

  /** One row of `update_readme_table`: the line at its index rewritten, or `IndexError` as `None`. */
  function UpdateRow(row: Row, lines: seq<string>): Option<seq<string>> {
    if row.lineIndex >= |lines| then None
    else
      var parts := Split(lines[row.lineIndex], '|');
      if ReadsMissing(row, parts) then None
      else Some(lines[row.lineIndex := Join(NewParts(row, parts), '|')])
  }

  /** `update_readme_table`: the rows applied in order to a copy of the lines; `None` once one raises. */
  function UpdateTable(rows: seq<Row>, lines: seq<string>): Option<seq<string>>
    decreases |rows|
  {
    if rows == [] then Some(lines)
    else
      var next := UpdateRow(rows[0], lines);
      if next.None? then None else UpdateTable(rows[1..], next.value)
  }

  // ---------- The recommended certificate ----------

  /** The marker line whose successor names the recommended certificate. */
  const RecommendMarker := "Recommend Certificate"

  /** The first row whose company contains `name`. */
  function FirstMatch(rows: seq<Row>, name: string): (r: Option<Row>)
    ensures r.Some? ==> r.value in rows && Contains(r.value.company, name)
    ensures r.Some? ==> exists k :: 0 <= k < |rows| && rows[k] == r.value
                         && forall j :: 0 <= j < k ==> !Contains(rows[j].company, name)
    ensures r.None? ==> forall row <- rows :: !Contains(row.company, name)
  {
    if rows == [] then None
    else if Contains(rows[0].company, name) then Some(rows[0])
    else
      var rest := FirstMatch(rows[1..], name);
      assert rest.Some? ==> exists k :: 0 <= k < |rows| && rows[k] == rest.value
                             && forall j :: 0 <= j < k ==> !Contains(rows[j].company, name) by {
        if rest.Some? {
          var k :| 0 <= k < |rows[1..]| && rows[1..][k] == rest.value
                   && forall j :: 0 <= j < k ==> !Contains(rows[1..][j].company, name);
          assert rows[k + 1] == rest.value;
          assert forall j :: 0 <= j < k + 1 ==> !Contains(rows[j].company, name) by {
            forall j | 0 <= j < k + 1 ensures !Contains(rows[j].company, name) {
              if j > 0 { assert rows[j] == rows[1..][j - 1]; }
            }
          }
        }
      }
      rest
  }

  /** The label after the name: signed, revoked, or unknown for any other status and for no match. */
  function BadgeLabel(m: Option<Row>): string {
    if m.Some? && Lower(m.value.status) == "valid" then "\U{2705} Signed"
    else if m.Some? && Lower(m.value.status) == "revoked" then "\U{274C} Revoked"
    else "\U{26A0}\U{FE0F} Unknown"
  }

  /** The line written for recommended certificate `name`. */
  function Badge(name: string, rows: seq<Row>): string {
    "**" + name + " - " + BadgeLabel(FirstMatch(rows, name)) + "**"
  }

  /**
   * The loop of `update_recommended_cert` from line `i` on, over the list as it
   * stands: a line rewritten at step `i` is the one read at step `i + 1`.
   */
  function Recommend(ls: seq<string>, rows: seq<Row>, i: nat): seq<string>
    requires i <= |ls|
    decreases |ls| - i
  {
    if i == |ls| then ls
    else if Contains(ls[i], RecommendMarker) && i + 1 < |ls| then
      Recommend(ls[i + 1 := Badge(Strip(ls[i + 1]), rows)], rows, i + 1)
    else Recommend(ls, rows, i + 1)
  }

  // ---------- The loops ----------

  /** The header search of `parse_readme_table`: the index of the first header line, or -1. */
  method FindTableHeader(lines: seq<string>) returns (tableStart: int)
    ensures tableStart == -1 <==> HeaderFrom(lines, 0).None?
    ensures tableStart != -1 ==> HeaderFrom(lines, 0) == Some(tableStart)
  {
    tableStart := -1;
    var i := 0;
    while i < |lines|
      invariant i <= |lines|
      invariant HeaderFrom(lines, i) == HeaderFrom(lines, 0)
      decreases |lines| - i
    {
      if StartsWith(lines[i], TableHeader) {
        return i;
      }
      i := i + 1;
    }
  }

  /** The row loop of `parse_readme_table` from line `start` on. */
  method TableRowsLoop(lines: seq<string>, start: nat) returns (rows: seq<Row>)
    ensures rows == TableRows(lines, start)
  {
    rows := [];
    var i := start;
    while i < |lines|
      invariant TableRows(lines, start) == rows + TableRows(lines, i)
      decreases |lines| - i
    {
      if EndsTable(lines[i]) {
        break;
      }
      assert TableRows(lines, i) == LineRows(lines, i) + TableRows(lines, i + 1);
      AppendAssoc(rows, LineRows(lines, i), TableRows(lines, i + 1));
      ghost var before := rows;
      var cells := Cells(lines[i]);
      if |cells| >= 5 {
        rows := rows + [RowOf(cells, i)];
      } else {
        assert rows + [] == rows;
      }
      assert rows == before + LineRows(lines, i);
      i := i + 1;
    }
    assert rows + [] == rows;
  }

  /** `parse_readme_table` as written: the header search, then the row loop. */
  method ParseReadmeTableLoop(content: string) returns (rows: seq<Row>, lines: seq<string>)
    ensures (rows, lines) == ParseReadmeTable(content)
  {
    lines := Split(content, '\n');
    var tableStart := FindTableHeader(lines);
    if tableStart == -1 {
      return [], lines;
    }
    rows := TableRowsLoop(lines, tableStart + 2);
  }

  /** The column assignments of `update_readme_table` for one row, on the `|` parts of its line. */
  method RewriteParts(row: Row, parts: seq<string>) returns (parts': seq<string>)
    requires !ReadsMissing(row, parts)
    ensures parts' == NewParts(row, parts)
  {
    var tag := TableLabel(row.status);
    var status := if tag.Some? then tag.value else Strip(parts[3]);
    var from := if row.validFrom != "" then row.validFrom else Strip(parts[4]);
    var to := if row.validTo != "" then row.validTo else Strip(parts[5]);
    ghost var p3 := Assign(parts, 3, Padded(status));
    ghost var p4 := Assign(p3, 4, Padded(from));
    ghost var p5 := Assign(p4, 5, Padded(to));
    assert Assign(p5, 6, Padded(row.download)) == NewParts(row, parts);
    parts' := parts;
    if |parts'| > 3 {
      parts' := parts'[3 := Padded(status)];
    }
    assert parts' == p3;
    if |parts'| > 4 {
      parts' := parts'[4 := Padded(from)];
    }
    assert parts' == p4;
    if |parts'| > 5 {
      parts' := parts'[5 := Padded(to)];
    }
    assert parts' == p5;
    if |parts'| > 6 {
      parts' := parts'[6 := Padded(row.download)];
    }
  }

  /** `update_readme_table` as written: each row splits its line, sets columns 3 to 6 and joins it back. */
  method UpdateReadmeTable(rows: seq<Row>, lines: seq<string>) returns (r: Option<seq<string>>)
    ensures r == UpdateTable(rows, lines)
  {
    var updated := lines;
    var n := 0;
    while n < |rows|
      invariant n <= |rows|
      invariant UpdateTable(rows[n..], updated) == UpdateTable(rows, lines)
      decreases |rows| - n
    {
      var row := rows[n];
      assert rows[n..][1..] == rows[n + 1..];
      if row.lineIndex >= |updated| {
        return None;
      }
      var parts := Split(updated[row.lineIndex], '|');
      if ReadsMissing(row, parts) {
        return None;
      }
      var newParts := RewriteParts(row, parts);
      ghost var before := updated;
      updated := updated[row.lineIndex := Join(newParts, '|')];
      assert UpdateRow(row, before) == Some(updated);
      n := n + 1;
    }
    assert rows[n..] == [];
    r := Some(updated);
  }

  /** `update_recommended_cert` as written: the list is rewritten in place while it is walked. */
  method UpdateRecommendedCert(a: array<string>, rows: seq<Row>)
    modifies a
    ensures a[..] == Recommend(old(a[..]), rows, 0)
  {
    var i := 0;
    while i < a.Length
      invariant i <= a.Length
      invariant Recommend(a[..], rows, i) == Recommend(old(a[..]), rows, 0)
      decreases a.Length - i
    {
      if Contains(a[i], RecommendMarker) && i + 1 < a.Length {
        var name := Strip(a[i + 1]);
        a[i + 1] := Badge(name, rows);
      }
      i := i + 1;
    }
  }
}
