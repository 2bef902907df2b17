/**
 * What the README functions promise: the parsed rows point at table lines in
 * order and miss none, a table update touches only those lines and keeps
 * their columns, and the recommended-certificate pass rewrites exactly the
 * lines that follow a marker.
 */
module ReadmeProps {
  import opened Wrappers
  import opened Text
  import opened Readme

  // ---------- The parsed rows ----------

  lemma {:induction false} StripAllAt(ps: seq<string>)
    ensures forall k :: 0 <= k < |ps| ==> StripAll(ps)[k] == Strip(ps[k])
  {
    if ps != [] {
      StripAllAt(ps[1..]);
    }
  }

  /** A line with at least five cells has at least seven `|` parts, and no cell holds a `|`. */
  lemma CellsOfLine(line: string)
    ensures |Cells(line)| >= 5 ==> |Split(line, '|')| >= 7
    ensures forall c <- Cells(line) :: '|' !in c
  {
    var parts := Split(line, '|');
    var inner := Inner(parts);
    var cells := Cells(line);
    InnerNoBar(parts);
    StripAllAt(inner);
    forall k | 0 <= k < |cells|
      ensures '|' !in cells[k]
    {
      StripNoBar(inner[k]);
    }
  }

  /** The inner parts of a split at `|` hold no `|`. */
  lemma InnerNoBar(parts: seq<string>)
    requires forall p <- parts :: '|' !in p
    ensures forall p <- Inner(parts) :: '|' !in p
  {
  }

  /** Row `r` is what `RowOf` reads from line `r.lineIndex`, a line of at least five cells. */
  predicate FromLine(lines: seq<string>, r: Row) {
    r.lineIndex < |lines| && |Cells(lines[r.lineIndex])| >= 5
    && r == RowOf(Cells(lines[r.lineIndex]), r.lineIndex)
  }

  /** Each row comes from a table line at or after `i`, read by `RowOf`. */
  lemma {:induction false} TableRowsFromLines(lines: seq<string>, i: nat)
    ensures forall r <- TableRows(lines, i) :: FromLine(lines, r)
    decreases |lines| - i
  {
    if i < |lines| && !EndsTable(lines[i]) {
      TableRowsFromLines(lines, i + 1);
      assert TableRows(lines, i) == LineRows(lines, i) + TableRows(lines, i + 1);
    }
  }

  /** Every row points at a line from `i` up to the end of the table. */
  lemma {:induction false} TableRowsBounds(lines: seq<string>, i: nat)
    ensures forall r <- TableRows(lines, i) :: i <= r.lineIndex < TableEnd(lines, i)
    decreases |lines| - i
  {
    if i < |lines| && !EndsTable(lines[i]) {
      TableRowsBounds(lines, i + 1);
      assert TableRows(lines, i) == LineRows(lines, i) + TableRows(lines, i + 1);
      assert TableEnd(lines, i) == TableEnd(lines, i + 1);
    }
  }

  /** Line indices strictly increase along `rows`. */
  predicate RowsIncreasing(rows: seq<Row>) {
    forall a, b :: 0 <= a < b < |rows| ==> rows[a].lineIndex < rows[b].lineIndex
  }

  lemma ConsIncreasing(x: Row, rest: seq<Row>)
    requires RowsIncreasing(rest) && forall r <- rest :: x.lineIndex < r.lineIndex
    ensures RowsIncreasing([x] + rest)
  {
  }

  /** Row line indices strictly increase. */
  lemma {:induction false} TableRowsIncreasing(lines: seq<string>, i: nat)
    ensures RowsIncreasing(TableRows(lines, i))
    decreases |lines| - i
  {
    if i < |lines| && !EndsTable(lines[i]) {
      TableRowsIncreasing(lines, i + 1);
      TableRowsBounds(lines, i + 1);
      var head := LineRows(lines, i);
      var rest := TableRows(lines, i + 1);
      assert TableRows(lines, i) == head + rest;
      if head == [] {
        assert head + rest == rest;
      } else {
        assert head == [RowOf(Cells(lines[i]), i)];
        ConsIncreasing(head[0], rest);
      }
    }
  }

  /** Some row points at line `k`. */
  predicate Touches(rows: seq<Row>, k: nat) {
    exists r <- rows :: r.lineIndex == k
  }

  /** A line up to the end of the table gives a row exactly when it has at least five cells. */
  lemma {:induction false} TableRowsComplete(lines: seq<string>, i: nat)
    ensures forall k :: i <= k < TableEnd(lines, i) ==>
      (Touches(TableRows(lines, i), k) <==> |Cells(lines[k])| >= 5)
    decreases |lines| - i
  {
    if i < |lines| && !EndsTable(lines[i]) {
      TableRowsComplete(lines, i + 1);
      TableRowsBounds(lines, i + 1);
      var head := LineRows(lines, i);
      var rest := TableRows(lines, i + 1);
      assert TableRows(lines, i) == head + rest;
      assert TableEnd(lines, i) == TableEnd(lines, i + 1);
      forall k | i <= k < TableEnd(lines, i)
        ensures Touches(head + rest, k) <==> |Cells(lines[k])| >= 5
      {
        if k == i {
          assert !Touches(rest, k);
          if |Cells(lines[i])| >= 5 {
            assert head[0] in head + rest;
          }
        } else {
          assert !Touches(head, k);
          if Touches(rest, k) {
            var r :| r in rest && r.lineIndex == k;
            assert r in head + rest;
          }
        }
      }
    }
  }

  /**
   * `parse_readme_table`: the lines are the split text (joining them gives the
   * text back); without a header there are no rows; otherwise the rows start
   * two lines after the header, go in increasing line order, each read from a
   * line of at least five cells, and cover every such line before the table
   * ends.
   */
  lemma ParseReadmeTableShape(content: string)
    ensures var (rows, lines) := ParseReadmeTable(content);
      lines == Split(content, '\n') && Join(lines, '\n') == content
      && (HeaderFrom(lines, 0).None? ==> rows == [])
      && (HeaderFrom(lines, 0).Some? ==>
            var h := HeaderFrom(lines, 0).value;
            (forall r <- rows :: h + 2 <= r.lineIndex && FromLine(lines, r))
            && RowsIncreasing(rows)
            && (forall k :: h + 2 <= k < TableEnd(lines, h + 2) ==>
                  (Touches(rows, k) <==> |Cells(lines[k])| >= 5)))
  {
    var lines := Split(content, '\n');
    JoinSplit(content, '\n');
    var start := HeaderFrom(lines, 0);
    if start.Some? {
      var rows := TableRows(lines, start.value + 2);
      assert ParseReadmeTable(content) == (rows, lines);
      TableRowsFromLines(lines, start.value + 2);
      TableRowsBounds(lines, start.value + 2);
      TableRowsIncreasing(lines, start.value + 2);
      TableRowsComplete(lines, start.value + 2);
    }
  }

  // ---------- Rewriting the rows ----------

  /** The values a row writes into the line hold no `|`, so the line keeps its columns. */
  predicate WritesNoBar(row: Row) {
    '|' !in row.validFrom && '|' !in row.validTo && '|' !in row.download
  }

  lemma PaddedNoBar(s: string)
    requires '|' !in s
    ensures '|' !in Padded(s)
  {
  }

  /** None of the three status labels holds a `|`. */
  lemma LabelNoBar(status: string)
    ensures TableLabel(status).Some? ==> '|' !in TableLabel(status).value
  {
    PaddedNoBar("\U{2705} Signed");
    PaddedNoBar("\U{274C} Revoked");
    PaddedNoBar("\U{26A0}\U{FE0F} Status: Unknown");
  }

  lemma StripNoBar(p: string)
    requires '|' !in p
    ensures '|' !in Strip(p)
  {
    StripSubset(p);
  }

  lemma NewCellNoBar(row: Row, parts: seq<string>, k: nat)
    requires !ReadsMissing(row, parts) && WritesNoBar(row) && k < |parts|
    requires forall p <- parts :: '|' !in p
    ensures '|' !in NewCell(row, parts, k)
  {
    assert parts[k] in parts;
    if 3 <= k <= 5 {
      StripNoBar(parts[k]);
    }
    if k == 3 {
      LabelNoBar(row.status);
      PaddedNoBar(if TableLabel(row.status).Some? then TableLabel(row.status).value else Strip(parts[3]));
    } else if k == 4 {
      PaddedNoBar(if row.validFrom != "" then row.validFrom else Strip(parts[4]));
    } else if k == 5 {
      PaddedNoBar(if row.validTo != "" then row.validTo else Strip(parts[5]));
    } else if k == 6 {
      PaddedNoBar(row.download);
    }
  }

  lemma NewPartsNoBar(row: Row, parts: seq<string>)
    requires !ReadsMissing(row, parts) && WritesNoBar(row)
    requires forall p <- parts :: '|' !in p
    ensures forall p <- NewParts(row, parts) :: '|' !in p
  {
    var r := NewParts(row, parts);
    forall p | p in r ensures '|' !in p {
      var k :| 0 <= k < |r| && r[k] == p;
      NewCellNoBar(row, parts, k);
    }
  }

  /** The columns of the rewritten parts, as `RowColumns` states them for the line. */
  lemma NewPartsColumns(row: Row, ol: seq<string>)
    requires !ReadsMissing(row, ol)
    ensures var nw := NewParts(row, ol);
      |nw| == |ol|
      && (forall k :: 0 <= k < |ol| && (k < 3 || k > 6) ==> nw[k] == ol[k])
      && (|ol| > 3 && Lower(row.status) == "valid" ==> nw[3] == " \U{2705} Signed ")
      && (|ol| > 3 && Lower(row.status) == "revoked" ==> nw[3] == " \U{274C} Revoked ")
      && (|ol| > 3 && Lower(row.status) == "unknown" ==> nw[3] == " \U{26A0}\U{FE0F} Status: Unknown ")
      && (|ol| > 3 && Lower(row.status) !in ["valid", "revoked", "unknown"] ==> nw[3] == Padded(Strip(ol[3])))
      && (|ol| > 4 ==> nw[4] == Padded(if row.validFrom != "" then row.validFrom else Strip(ol[4])))
      && (|ol| > 5 ==> nw[5] == Padded(if row.validTo != "" then row.validTo else Strip(ol[5])))
      && (|ol| > 6 ==> nw[6] == Padded(row.download))
  {
    var nw := NewParts(row, ol);
    forall k | 0 <= k < |ol| && (k < 3 || k > 6) ensures nw[k] == ol[k] {
      assert nw[k] == NewCell(row, ol, k);
    }
    if |ol| > 3 {
      assert nw[3] == NewCell(row, ol, 3);
      StatusCell(row, ol);
    }
    if |ol| > 4 {
      assert nw[4] == NewCell(row, ol, 4);
    }
    if |ol| > 5 {
      assert nw[5] == NewCell(row, ol, 5);
    }
    if |ol| > 6 {
      assert nw[6] == NewCell(row, ol, 6);
    }
  }

  lemma StatusCell(row: Row, ol: seq<string>)
    requires !ReadsMissing(row, ol) && |ol| > 3
    ensures Lower(row.status) == "valid" ==> NewCell(row, ol, 3) == " \U{2705} Signed "
    ensures Lower(row.status) == "revoked" ==> NewCell(row, ol, 3) == " \U{274C} Revoked "
    ensures Lower(row.status) == "unknown" ==> NewCell(row, ol, 3) == " \U{26A0}\U{FE0F} Status: Unknown "
    ensures Lower(row.status) !in ["valid", "revoked", "unknown"] ==> NewCell(row, ol, 3) == Padded(Strip(ol[3]))
  {
  }

  /**
   * One row of `update_readme_table`: re-splitting the rewritten line gives as
   * many parts as before; column 3 holds the status label (or the old cell
   * when the status is none of valid, revoked, unknown), columns 4 and 5 the
   * new dates (or the old cells when they are empty), column 6 the download
   * link, and every other column is unchanged.
   */
  lemma RowColumns(row: Row, lines: seq<string>)
    requires WritesNoBar(row) && UpdateRow(row, lines).Some?
    ensures row.lineIndex < |lines|
    ensures var ol := Split(lines[row.lineIndex], '|');
      var nw := Split(UpdateRow(row, lines).value[row.lineIndex], '|');
      |nw| == |ol|
      && (forall k :: 0 <= k < |ol| && (k < 3 || k > 6) ==> nw[k] == ol[k])
      && (|ol| > 3 && Lower(row.status) == "valid" ==> nw[3] == " \U{2705} Signed ")
      && (|ol| > 3 && Lower(row.status) == "revoked" ==> nw[3] == " \U{274C} Revoked ")
      && (|ol| > 3 && Lower(row.status) == "unknown" ==> nw[3] == " \U{26A0}\U{FE0F} Status: Unknown ")
      && (|ol| > 3 && Lower(row.status) !in ["valid", "revoked", "unknown"] ==> nw[3] == Padded(Strip(ol[3])))
      && (|ol| > 4 ==> nw[4] == Padded(if row.validFrom != "" then row.validFrom else Strip(ol[4])))
      && (|ol| > 5 ==> nw[5] == Padded(if row.validTo != "" then row.validTo else Strip(ol[5])))
      && (|ol| > 6 ==> nw[6] == Padded(row.download))
  {
    var ol := Split(lines[row.lineIndex], '|');
    var ps := NewParts(row, ol);
    assert UpdateRow(row, lines).value[row.lineIndex] == Join(ps, '|');
    NewPartsNoBar(row, ol);
    SplitJoin(ps, '|');
    NewPartsColumns(row, ol);
  }

  /** A table update rewrites only the lines its rows point at, and keeps the line count. */
  lemma {:induction false} UpdateTableFrame(rows: seq<Row>, lines: seq<string>)
    ensures var r := UpdateTable(rows, lines);
      r.Some? ==> (|r.value| == |lines|
        && forall k :: 0 <= k < |lines| && !Touches(rows, k) ==> r.value[k] == lines[k])
    decreases |rows|
  {
    if rows != [] {
      var next := UpdateRow(rows[0], lines);
      if next.Some? {
        UpdateTableFrame(rows[1..], next.value);
        assert rows[0] in rows;
      }
    }
  }

  /** A table update keeps the number of `|` parts of every line. */
  lemma {:induction false} UpdateTableColumns(rows: seq<Row>, lines: seq<string>)
    requires forall r <- rows :: WritesNoBar(r)
    ensures var r := UpdateTable(rows, lines);
      r.Some? ==> (|r.value| == |lines|
        && forall k :: 0 <= k < |lines| ==> |Split(r.value[k], '|')| == |Split(lines[k], '|')|)
    decreases |rows|
  {
    if rows != [] {
      var next := UpdateRow(rows[0], lines);
      if next.Some? {
        RowColumns(rows[0], lines);
        UpdateTableColumns(rows[1..], next.value);
      }
    }
  }

  /** Rows that point at lines of at least seven parts, and write no `|`, never raise. */
  lemma {:induction false} UpdateTableSucceeds(rows: seq<Row>, lines: seq<string>)
    requires forall r <- rows :: WritesNoBar(r) && r.lineIndex < |lines| && |Split(lines[r.lineIndex], '|')| >= 7
    ensures UpdateTable(rows, lines).Some?
    decreases |rows|
  {
    if rows != [] {
      var next := UpdateRow(rows[0], lines);
      assert !ReadsMissing(rows[0], Split(lines[rows[0].lineIndex], '|'));
      RowColumns(rows[0], lines);
      UpdateTableColumns([rows[0]], lines);
      assert UpdateTable([rows[0]], lines) == next;
      UpdateTableSucceeds(rows[1..], next.value);
    }
  }

  /** The rows `parse_readme_table` returns point at lines wide enough for the update, and hold no `|`. */
  lemma ParsedRowsFit(content: string)
    ensures var (rows, lines) := ParseReadmeTable(content);
      forall r <- rows :: WritesNoBar(r) && r.lineIndex < |lines| && |Split(lines[r.lineIndex], '|')| >= 7
  {
    var lines := Split(content, '\n');
    var start := HeaderFrom(lines, 0);
    if start.Some? {
      var rows := TableRows(lines, start.value + 2);
      TableRowsFromLines(lines, start.value + 2);
      forall r | r in rows
        ensures WritesNoBar(r) && r.lineIndex < |lines| && |Split(lines[r.lineIndex], '|')| >= 7
      {
        var n :| 0 <= n < |rows| && rows[n] == r;
        CellsOfLine(lines[r.lineIndex]);
      }
    }
  }

  // ---------- The recommended certificate ----------

  /** Line `k` of the result: the badge of its stripped text when the line before it contains the marker, else kept. */
  predicate RecommendedLine(out: seq<string>, ls: seq<string>, rows: seq<Row>, k: nat)
    requires 0 < k < |out| && |out| == |ls|
  {
    out[k] == if Contains(out[k - 1], RecommendMarker) then Badge(Strip(ls[k]), rows) else ls[k]
  }

  /**
   * The loop from step `i` on: lines up to `i` stay as they are, and each later
   * line is as `RecommendedLine` says, judged on the line before it as it
   * stands at the end.
   */
  lemma {:induction false} RecommendFrom(ls: seq<string>, rows: seq<Row>, i: nat)
    requires i <= |ls|
    ensures var out := Recommend(ls, rows, i);
      |out| == |ls|
      && (forall k :: 0 <= k <= i && k < |ls| ==> out[k] == ls[k])
      && (forall k :: i < k < |ls| ==> RecommendedLine(out, ls, rows, k))
    decreases |ls| - i
  {
    if i < |ls| {
      var hit := Contains(ls[i], RecommendMarker) && i + 1 < |ls|;
      var s := if hit then ls[i + 1 := Badge(Strip(ls[i + 1]), rows)] else ls;
      assert Recommend(ls, rows, i) == Recommend(s, rows, i + 1);
      RecommendFrom(s, rows, i + 1);
      var out := Recommend(s, rows, i + 1);
      forall k | i < k < |ls| ensures RecommendedLine(out, ls, rows, k) {
        if k == i + 1 {
          assert out[i] == ls[i] && out[k] == s[k];
        } else {
          assert s[k] == ls[k] && RecommendedLine(out, s, rows, k);
        }
      }
    }
  }

  /**
   * `update_recommended_cert`: the line count is kept, the first line is
   * kept, each later line is as `RecommendedLine` says, so a line changes
   * only when the line before it contains the marker.
   */
  lemma RecommendLines(ls: seq<string>, rows: seq<Row>)
    ensures var out := Recommend(ls, rows, 0);
      |out| == |ls|
      && (|ls| > 0 ==> out[0] == ls[0])
      && (forall k :: 0 < k < |ls| ==> RecommendedLine(out, ls, rows, k))
      && (forall k :: 0 < k < |ls| && out[k] != ls[k] ==> Contains(out[k - 1], RecommendMarker))
  {
    RecommendFrom(ls, rows, 0);
    var out := Recommend(ls, rows, 0);
    forall k | 0 < k < |ls| && out[k] != ls[k] ensures Contains(out[k - 1], RecommendMarker) {
      assert RecommendedLine(out, ls, rows, k);
    }
  }

  /** The badge: signed for a valid first match, revoked for a revoked one, unknown otherwise or without a match. */
  lemma BadgeStatus(name: string, rows: seq<Row>)
    ensures var m := FirstMatch(rows, name);
      (m.Some? && Lower(m.value.status) == "valid" ==> Badge(name, rows) == "**" + name + " - \U{2705} Signed**")
      && (m.Some? && Lower(m.value.status) == "revoked" ==> Badge(name, rows) == "**" + name + " - \U{274C} Revoked**")
      && (m.None? || Lower(m.value.status) !in ["valid", "revoked"] ==> Badge(name, rows) == "**" + name + " - \U{26A0}\U{FE0F} Unknown**")
  {
  }
}
