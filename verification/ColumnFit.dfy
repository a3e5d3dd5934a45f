/** How wide the columns of a help table are made. */
module ColumnFit {
  import opened Basics
  import opened Utf8Text
  import opened HelpRows
  import opened PartOrder
  import opened PartIterator

  const MAX_COLUMNS := 8

  // ---------- The parts of a table ----------

  /** A row without separators takes no part in the layout of the table. */
  predicate IsInterjection(row: seq<Byte>) {
    TAB !in row && VTAB !in row
  }

  /** A part: its column, its width on screen, and whether its row takes part in the layout. */
  datatype Part = Part(col: nat, width: nat, counts: bool)

  function PartAt(row: seq<Byte>, k: nat): Part
    requires k < |Grid(row)|
  {
    Part(Remainder(k, |Cells(row)|), Width(Grid(row)[k]), !IsInterjection(row))
  }

  /** The parts go through the columns in turn. */
  function Remainder(k: nat, n: nat): nat
    requires n > 0
  {
    if k < n then k else Remainder(k - n, n)
  }

  /** The first n parts of a row. */
  function PartsUpTo(row: seq<Byte>, n: nat): (parts: seq<Part>)
    requires n <= |Grid(row)|
    ensures |parts| == n
  {
    if n == 0 then [] else PartsUpTo(row, n - 1) + [PartAt(row, n - 1)]
  }

  function PartsOf(row: seq<Byte>): seq<Part> {
    PartsUpTo(row, |Grid(row)|)
  }

  function PartsOfAll(rows: seq<seq<Byte>>): seq<Part> {
    if rows == [] then [] else PartsOf(rows[0]) + PartsOfAll(rows[1..])
  }

  // ---------- The widths of the columns ----------

  /** The widest part of a column that takes part in the layout and is below the threshold. */
  function ColumnWidth(parts: seq<Part>, col: nat, threshold: nat): nat {
    if parts == [] then 0
    else
      var p := parts[|parts| - 1];
      var w := ColumnWidth(parts[..|parts| - 1], col, threshold);
      if p.col == col && p.counts && p.width < threshold then Max(w, p.width) else w
  }

  /** The last column, of those that are laid out at all. */
  function LastColumn(parts: seq<Part>): (last: nat)
    ensures last < 8
  {
    if parts == [] then 0
    else
      var p := parts[|parts| - 1];
      var last := LastColumn(parts[..|parts| - 1]);
      if p.col < 8 then Max(last, p.col) else last
  }

  /** The widths of the first n columns together. */
  function Together(parts: seq<Part>, n: nat, threshold: nat): nat {
    if n == 0 then 0 else Together(parts, n - 1, threshold) + ColumnWidth(parts, n - 1, threshold)
  }

  /** The widths of all columns but the last together. */
  function LeftWidth(parts: seq<Part>, threshold: nat): nat {
    Together(parts, LastColumn(parts), threshold)
  }

  lemma {:induction false} ColumnWidthMeans(parts: seq<Part>, col: nat, threshold: nat)
    ensures forall k :: 0 <= k < |parts| && parts[k].col == col && parts[k].counts && parts[k].width < threshold
                        ==> parts[k].width <= ColumnWidth(parts, col, threshold)
    ensures ColumnWidth(parts, col, threshold) == 0
            || exists k :: 0 <= k < |parts| && parts[k].col == col && parts[k].counts
                           && parts[k].width < threshold && parts[k].width == ColumnWidth(parts, col, threshold)
  {
    if parts != [] {
      var n := |parts| - 1;
      ColumnWidthMeans(parts[..n], col, threshold);
      forall k | 0 <= k < |parts| && parts[k].col == col && parts[k].counts && parts[k].width < threshold
        ensures parts[k].width <= ColumnWidth(parts, col, threshold)
      {
        if k < n {
          assert parts[..n][k] == parts[k];
        }
      }
      if ColumnWidth(parts[..n], col, threshold) != 0 {
        var k :| 0 <= k < n && parts[..n][k].col == col && parts[..n][k].counts
                 && parts[..n][k].width < threshold && parts[..n][k].width == ColumnWidth(parts[..n], col, threshold);
        assert parts[k] == parts[..n][k];
      }
      assert parts[n] == parts[|parts| - 1];
    }
  }

  /** Lowering the threshold changes nothing until it meets the width of the column. */
  lemma {:induction false} WidthBelow(parts: seq<Part>, col: nat, high: nat, low: nat)
    requires ColumnWidth(parts, col, high) < low <= high
    ensures ColumnWidth(parts, col, low) == ColumnWidth(parts, col, high)
  {
    if parts != [] {
      WidthBelow(parts[..|parts| - 1], col, high, low);
    }
  }

  lemma {:induction false} TogetherBelow(parts: seq<Part>, n: nat, high: nat, low: nat)
    requires low <= high && forall c :: 0 <= c < n ==> ColumnWidth(parts, c, high) < low
    ensures Together(parts, n, low) == Together(parts, n, high)
  {
    if n > 0 {
      TogetherBelow(parts, n - 1, high, low);
      WidthBelow(parts, n - 1, high, low);
    }
  }

  lemma {:induction false} WidthUnder(parts: seq<Part>, col: nat, threshold: nat)
    requires threshold > 0
    ensures ColumnWidth(parts, col, threshold) < threshold
  {
    if parts != [] {
      WidthUnder(parts[..|parts| - 1], col, threshold);
    }
  }

  // ---------- One pass over the table ----------

  datatype Layout = Layout(widths: seq<nat>, last: nat)

  function Note(l: Layout, p: Part, threshold: nat): (r: Layout)
    requires |l.widths| == 8
    ensures |r.widths| == 8
  {
    if p.col >= 8 then l
    else Layout(if p.counts && p.width < threshold then l.widths[p.col := Max(l.widths[p.col], p.width)] else l.widths,
                Max(l.last, p.col))
  }

  function NoteAll(l: Layout, parts: seq<Part>, threshold: nat): (r: Layout)
    requires |l.widths| == 8
    ensures |r.widths| == 8
  {
    if parts == [] then l
    else Note(NoteAll(l, parts[..|parts| - 1], threshold), parts[|parts| - 1], threshold)
  }

  function NoteRows(l: Layout, rows: seq<seq<Byte>>, threshold: nat): (r: Layout)
    requires |l.widths| == 8
    ensures |r.widths| == 8
    decreases |rows|
  {
    if rows == [] then l else NoteRows(NoteAll(l, PartsOf(rows[0]), threshold), rows[1..], threshold)
  }

  const NOTHING := Layout([0, 0, 0, 0, 0, 0, 0, 0], 0)

  lemma {:induction false} NoteBoth(l: Layout, xs: seq<Part>, ys: seq<Part>, threshold: nat)
    requires |l.widths| == 8
    ensures NoteAll(l, xs + ys, threshold) == NoteAll(NoteAll(l, xs, threshold), ys, threshold)
    decreases |ys|
  {
    if ys == [] {
      assert xs + ys == xs;
    } else {
      var n := |ys| - 1;
      assert (xs + ys)[..|xs| + n] == xs + ys[..n];
      NoteBoth(l, xs, ys[..n], threshold);
    }
  }

  lemma {:induction false} RowByRow(l: Layout, rows: seq<seq<Byte>>, threshold: nat)
    requires |l.widths| == 8
    ensures NoteRows(l, rows, threshold) == NoteAll(l, PartsOfAll(rows), threshold)
    decreases |rows|
  {
    if rows != [] {
      RowByRow(NoteAll(l, PartsOf(rows[0]), threshold), rows[1..], threshold);
      NoteBoth(l, PartsOf(rows[0]), PartsOfAll(rows[1..]), threshold);
    }
  }

  /** The pass finds the widths of the columns and the last one. */
  lemma {:induction false} PassFinds(parts: seq<Part>, threshold: nat)
    ensures var l := NoteAll(NOTHING, parts, threshold);
            && l.last == LastColumn(parts)
            && forall c :: 0 <= c < 8 ==> l.widths[c] == ColumnWidth(parts, c, threshold)
  {
    if parts != [] {
      PassFinds(parts[..|parts| - 1], threshold);
    }
  }

  // ---------- What the iterator tells about a part ----------

  lemma {:induction false} ColumnIs(n: nat, line: nat, col: nat, k: nat)
    requires col < n && n * line + col == k
    ensures Remainder(k, n) == col
    decreases line
  {
    if line > 0 {
      assert n * line == n * (line - 1) + n;
      ColumnIs(n, line - 1, col, k - n);
    }
  }

  lemma {:induction false} WholePart(s: seq<Byte>)
    requires PartLength(s) == |s|
    ensures TAB !in s && VTAB !in s
  {
    if s != [] {
      WholePart(s[1..]);
      assert s == [s[0]] + s[1..];
    }
  }

  lemma {:induction false} Undivided(s: seq<Byte>, sep: Byte)
    requires sep !in s
    ensures SplitOn(s, sep) == [s]
  {
    if s != [] {
      Undivided(s[1..], sep);
      assert s == [s[0]] + s[1..];
    }
  }

  lemma InterjectionIsOnePart(row: seq<Byte>)
    requires IsInterjection(row)
    ensures |Grid(row)| == 1
  {
    Undivided(row, TAB);
    Undivided(row, VTAB);
    var cells := Cells(row);
    assert cells[..0] == [];
    GridSize(cells, 1);
  }

  lemma FirstPartIs(row: seq<Byte>)
    ensures Visit(row, 1).p == 0 && Visit(row, 1).len == PartLength(row)
  {
    assert row[0..] == row && Visit(row, 0) == START;
  }

  /** In the first part of a row the byte that follows tells whether there are separators. */
  lemma FollowedBy(row: seq<Byte>)
    requires NEWLINE !in row
    ensures var n := PartLength(row);
            IsInterjection(row) <==> n == |row| || (row[n] != TAB && row[n] != VTAB)
  {
    PartEnds(row);
    if PartLength(row) == |row| {
      WholePart(row);
    } else {
      assert row[PartLength(row)] in row;
    }
  }

  lemma OnlyTheFirst(n: nat, line: nat, col: nat, k: nat)
    requires col < n && n * line + col == k
    ensures k == 0 <==> line == 0 && col == 0
  {
    if line > 0 {
      assert n * line >= line;
    }
  }

  /** Whether the part takes part in the layout: not if its row is an interjection. */
  method Counts(part: LinePartIterator) returns (counts: bool)
    requires part.Valid() && part.begun && 0 < part.seen <= |Grid(part.Row())|
    requires 0 <= part.col < |Cells(part.Row())|
    requires |Cells(part.Row())| * part.target + part.col == part.seen - 1
    ensures counts == !IsInterjection(part.Row())
  {
    hide Grid, Cells, Visit, Width;
    ghost var row := part.Row();
    OnlyTheFirst(|Cells(row)|, part.target, part.col, part.seen - 1);
    if part.col > 0 || part.target > 0 {
      if IsInterjection(row) {
        InterjectionIsOnePart(row);
        assert false;
      }
      return true;
    }
    FirstPartIs(row);
    RowHasNoNewline(part.table[part.rowDesc][part.rowStart..]);
    FollowedBy(row);
    AtRow(part.table[part.rowDesc][part.rowStart..], part.len);
    var help := part.table[part.rowDesc];
    var end := part.ptr + part.len;
    counts := end < |help| && (help[end] == TAB || help[end] == VTAB);
  }

  /** Takes the part into account that the iterator shows. */
  method NotePart(part: LinePartIterator, widths: array<nat>, last: nat, threshold: nat) returns (newLast: nat)
    requires part.Valid() && part.begun && 0 < part.seen <= |Grid(part.Row())| && widths.Length == 8
    requires 0 <= part.col < |Cells(part.Row())|
    requires |Cells(part.Row())| * part.target + part.col == part.seen - 1
    requires part.screenLen == Width(Grid(part.Row())[part.seen - 1])
    modifies widths
    ensures Layout(widths[..], newLast) ==
            Note(Layout(old(widths[..]), last), PartAt(part.Row(), part.seen - 1), threshold)
  {
    hide Grid, Cells, Visit, Width, RowOf;
    ColumnIs(|Cells(part.Row())|, part.target, part.col, part.seen - 1);
    var counts := Counts(part);
    newLast := last;
    if part.col < MAX_COLUMNS {
      newLast := Max(newLast, part.col);
      if part.screenLen < threshold && counts {
        widths[part.col] := Max(widths[part.col], part.screenLen);
      }
    }
  }

  /** Takes the parts of one row into account. */
  method NoteRow(part: LinePartIterator, widths: array<nat>, last: nat, threshold: nat) returns (newLast: nat)
    requires part.Valid() && part.begun && part.seen == 0 && widths.Length == 8
    modifies part, widths
    ensures part.Valid() && part.begun && part.rowDesc == old(part.rowDesc) && part.rowStart == old(part.rowStart)
    ensures Layout(widths[..], newLast) == NoteAll(Layout(old(widths[..]), last), PartsOf(part.Row()), threshold)
  {
    hide Grid, Cells, Visit, Width, RowOf, Note, PartAt;
    newLast := last;
    ghost var row, first := part.Row(), Layout(widths[..], last);
    var more := part.Next();
    while more
      invariant part.Valid() && part.begun && part.Row() == row
      invariant part.rowDesc == old(part.rowDesc) && part.rowStart == old(part.rowStart)
      invariant more == (part.seen - 1 < |Grid(row)|) && 0 < part.seen <= |Grid(row)| + 1
      invariant more ==>
        && part.screenLen == Width(Grid(row)[part.seen - 1])
        && 0 <= part.col < |Cells(row)| && |Cells(row)| * part.target + part.col == part.seen - 1
      invariant Layout(widths[..], newLast) == NoteAll(first, PartsUpTo(row, part.seen - 1), threshold)
      decreases |Grid(row)| + 1 - part.seen
    {
      assert PartsUpTo(row, part.seen)[..part.seen - 1] == PartsUpTo(row, part.seen - 1);
      newLast := NotePart(part, widths, newLast, threshold);
      more := part.Next();
    }
  }

  method NoteAllRows(part: LinePartIterator, widths: array<nat>, threshold: nat) returns (last: nat)
    requires part.Valid() && !part.begun && widths.Length == 8
    modifies part, widths
    ensures Layout(widths[..], last) == NoteRows(Layout(old(widths[..]), 0), RowsFrom(part.table, 0, 0), threshold)
  {
    hide Grid, Cells, Visit, Width, RowOf, RowsFrom, RowsAfter, NoteAll, PartsOf;
    last := 0;
    ghost var rows, first := RowsFrom(part.table, 0, 0), Layout(widths[..], 0);
    ghost var left := rows;
    var more := part.NextRow();
    while more
      invariant more ==> part.Valid() && part.begun && part.seen == 0 && left == [part.Row()] + part.RowsLeft()
      invariant !more ==> left == []
      invariant NoteRows(first, rows, threshold) == NoteRows(Layout(widths[..], last), left, threshold)
      decreases |left|
    {
      last := NoteRow(part, widths, last, threshold);
      left := left[1..];
      assert left == part.RowsLeft();
      more := part.NextRow();
    }
  }

  method Clear(widths: array<nat>)
    requires widths.Length == 8
    modifies widths
    ensures Layout(widths[..], 0) == NOTHING
  {
    for i := 0 to MAX_COLUMNS
      invariant forall c :: 0 <= c < i ==> widths[c] == 0
    {
      widths[i] := 0;
    }
  }

  lemma AllRows(table: seq<seq<Byte>>)
    requires table != []
    ensures RowsFrom(table, 0, 0) == TableRows(table)
  {
    RowsOfTable(table, 0, 0);
    TableRowsStep(table, 0);
    assert table[0..] == table;
  }

  /** One pass over all rows of the table. */
  method NoteTable(part: LinePartIterator, widths: array<nat>, threshold: nat) returns (last: nat)
    requires part.table != [] && widths.Length == 8
    modifies part, widths
    ensures var parts := PartsOfAll(TableRows(part.table));
            && last == LastColumn(parts)
            && forall c :: 0 <= c < 8 ==> widths[c] == ColumnWidth(parts, c, threshold)
  {
    hide RowsFrom, TableRows, NoteRows, NoteAll, PartsOf, PartsOfAll, ColumnWidth, LastColumn;
    Clear(widths);
    part.RestartTable();
    last := NoteAllRows(part, widths, threshold);
    AllRows(part.table);
    RowByRow(NOTHING, TableRows(part.table), threshold);
    PassFinds(PartsOfAll(TableRows(part.table)), threshold);
    assert forall c :: 0 <= c < 8 ==> widths[c] == widths[..][c];
  }
}
