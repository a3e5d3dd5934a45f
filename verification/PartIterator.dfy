/** The iterator over the rows of a help table and the parts of a row. */
module PartIterator {
  import opened Basics
  import opened Utf8Text
  import opened HelpRows
  import opened PartOrder

  // ---------- Rows ----------

  /** The number of bytes before the end of the row. */
  function RowLength(s: seq<Byte>): (n: nat)
    ensures n <= |s|
  {
    if s == [] || s[0] == NEWLINE then 0 else 1 + RowLength(s[1..])
  }

  function RowOf(s: seq<Byte>): seq<Byte> {
    s[..RowLength(s)]
  }

  /** All rows of the help texts of a table; no row crosses from one text to the next. */
  function TableRows(table: seq<seq<Byte>>): seq<seq<Byte>> {
    if table == [] then [] else SplitOn(table[0], NEWLINE) + TableRows(table[1..])
  }

  /** The row that begins at a position and the rows behind it. */
  function RowsFrom(table: seq<seq<Byte>>, d: nat, start: nat): seq<seq<Byte>>
    requires d < |table| && start <= |table[d]|
    decreases |table| - d, |table[d]| - start, 1
  {
    var row := RowOf(table[d][start..]);
    [row] + RowsAfter(table, d, start + |row|)
  }

  /** The rows behind the one that ends at a position. */
  function RowsAfter(table: seq<seq<Byte>>, d: nat, end: nat): seq<seq<Byte>>
    requires d < |table| && end <= |table[d]|
    decreases |table| - d, |table[d]| - end, 0
  {
    if end < |table[d]| then RowsFrom(table, d, end + 1)
    else if d + 1 < |table| then RowsFrom(table, d + 1, 0)
    else []
  }

  lemma {:induction false} RowHasNoNewline(s: seq<Byte>)
    ensures NEWLINE !in RowOf(s)
    ensures RowLength(s) < |s| ==> s[RowLength(s)] == NEWLINE
  {
    if s != [] && s[0] != NEWLINE {
      RowHasNoNewline(s[1..]);
      assert RowOf(s) == [s[0]] + RowOf(s[1..]);
    }
  }

  lemma {:induction false} RowComesFirst(s: seq<Byte>)
    ensures SplitOn(s, NEWLINE)[0] == RowOf(s)
    ensures SplitOn(s, NEWLINE)[1..] == if RowLength(s) == |s| then [] else SplitOn(s[RowLength(s) + 1..], NEWLINE)
  {
    if s != [] && s[0] != NEWLINE {
      RowComesFirst(s[1..]);
      assert RowOf(s) == [s[0]] + RowOf(s[1..]);
      assert RowLength(s) < |s| ==> s[1..][RowLength(s[1..]) + 1..] == s[RowLength(s) + 1..];
    }
  }

  lemma AtRow(s: seq<Byte>, p: nat)
    requires p <= RowLength(s)
    ensures p < RowLength(s) <==> p < |s| && s[p] != NEWLINE
    ensures p < RowLength(s) ==> RowOf(s)[p] == s[p]
  {
    RowHasNoNewline(s);
    assert p < RowLength(s) ==> RowOf(s)[p] in RowOf(s);
  }

  /** A part never reaches beyond its row. */
  lemma {:induction false} PartInRow(s: seq<Byte>, p: nat)
    requires p <= RowLength(s)
    ensures PartLength(s[p..]) == PartLength(RowOf(s)[p..])
    ensures s[p..][..PartLength(s[p..])] == RowOf(s)[p..][..PartLength(s[p..])]
    decreases RowLength(s) - p
  {
    var t := RowOf(s);
    if p == RowLength(s) {
      RowHasNoNewline(s);
    } else {
      assert s[p..][1..] == s[p + 1..] && t[p..][1..] == t[p + 1..];
      PartInRow(s, p + 1);
    }
  }

  lemma {:induction false} ContinuationsInPart(s: seq<Byte>)
    ensures Continuations(s) <= PartLength(s)
    ensures PartLength(s[Continuations(s)..]) == PartLength(s) - Continuations(s)
  {
    if s != [] && IsContinuation(s[0]) {
      ContinuationsInPart(s[1..]);
      assert s[1..][Continuations(s[1..])..] == s[Continuations(s)..];
    } else {
      assert s[0..] == s;
    }
  }

  lemma {:induction false} PartEnds(s: seq<Byte>)
    ensures PartLength(s) < |s| ==> IsBreak(s[PartLength(s)])
  {
    if s != [] && !IsBreak(s[0]) {
      PartEnds(s[1..]);
    }
  }

  /** No part ends inside a character. */
  lemma CharInPart(s: seq<Byte>)
    requires s != [] && !IsBreak(s[0])
    ensures CharLength(s) <= PartLength(s)
    ensures CharLength(s[..PartLength(s)]) == CharLength(s)
    ensures PartLength(s[CharLength(s)..]) == PartLength(s) - CharLength(s)
  {
    PartEnds(s);
    CharLengthCut(s, PartLength(s));
    ContinuationsInPart(s[1..]);
    assert s[1..][Continuations(s[1..])..] == s[1 + Continuations(s[1..])..];
  }

  /** A character of a part adds its bytes and columns. */
  lemma PartStep(s: seq<Byte>)
    requires s != [] && !IsBreak(s[0])
    ensures var k := CharLength(s);
            && PartLength(s) == k + PartLength(s[k..])
            && PartWidth(s) == CharWidth(s[..k]) + PartWidth(s[k..])
  {
    hide PartLength, CharWidth, CharLength, IsBreak;
    var k, n := CharLength(s), PartLength(s);
    CharInPart(s);
    assert s[..n][..k] == s[..k];
    assert s[..n][k..] == s[k..][..n - k];
  }

  lemma PartStops(s: seq<Byte>)
    requires s == [] || IsBreak(s[0])
    ensures PartLength(s) == 0 && PartWidth(s) == 0
  {
  }

  /** Determines the length of the part that s begins with, in bytes and in columns. */
  method Measure(s: seq<Byte>) returns (len: nat, screenLen: nat)
    ensures len == PartLength(s) && screenLen == PartWidth(s)
  {
    len, screenLen := 0, 0;
    var rest := s;
    while rest != [] && !IsBreak(rest[0])
      invariant len + PartLength(rest) == PartLength(s)
      invariant screenLen + PartWidth(rest) == PartWidth(s)
      decreases |rest|
    {
      PartStep(rest);
      var bytes, columns := ReadChar(rest);
      len, screenLen := len + bytes, screenLen + columns;
      rest := rest[bytes..];
    }
    PartStops(rest);
  }

  /** Read from the start, the rows are those of the table. */
  lemma {:induction false} RowsOfTable(table: seq<seq<Byte>>, d: nat, start: nat)
    requires d < |table| && start <= |table[d]|
    ensures RowsFrom(table, d, start) == SplitOn(table[d][start..], NEWLINE) + TableRows(table[d + 1..])
    decreases |table| - d, |table[d]| - start
  {
    var s := table[d][start..];
    var end := start + RowLength(s);
    RowComesFirst(s);
    var rest := SplitOn(s, NEWLINE)[1..];
    assert SplitOn(s, NEWLINE) == [RowOf(s)] + rest;
    assert RowsAfter(table, d, end) == rest + TableRows(table[d + 1..]) by {
      if end < |table[d]| {
        RowsOfTable(table, d, end + 1);
        assert s[RowLength(s) + 1..] == table[d][end + 1..];
      } else if d + 1 < |table| {
        RowsOfTable(table, d + 1, 0);
        TableRowsStep(table, d + 1);
      }
    }
  }

  lemma TableRowsStep(table: seq<seq<Byte>>, d: nat)
    requires d < |table|
    ensures TableRows(table[d..]) == SplitOn(table[d][0..], NEWLINE) + TableRows(table[d + 1..])
  {
    assert table[d][0..] == table[d] && table[d..][1..] == table[d + 1..];
  }

  lemma SliceOfRest(s: seq<Byte>, start: nat, p: nat, n: nat)
    requires start + p + n <= |s|
    ensures s[start..][p..p + n] == s[start + p..start + p + n]
  {
  }

  /** Each step of the iterator shows the next part of the grid, in a text that begins with the row. */
  lemma DataIsPart(s: seq<Byte>, k: nat)
    ensures var row := RowOf(s); var c := Visit(row, k + 1); var more := Advance(row, Visit(row, k)).1;
            && more == (k < |Grid(row)|)
            && (more ==> s[c.p..c.p + c.len] == Grid(row)[k] && c.width == Width(Grid(row)[k])
                         && 0 <= c.col < |Cells(row)| && |Cells(row)| * c.target + c.col == k)
  {
    hide Visit, Advance, Grid, Cells, Width, RowLength;
    var row := RowOf(s);
    var c := Visit(row, k + 1);
    RowHasNoNewline(s);
    StepsShowGrid(row, k);
    assert c.p + c.len <= |row|;
    assert s[c.p..c.p + c.len] == row[c.p..c.p + c.len];
  }

  /** The iterator; table holds the help texts of the current table. */
  class LinePartIterator {
    const table: seq<seq<Byte>>
    var rowDesc: nat
    var rowStart: nat
    var ptr: nat
    var begun: bool  // whether ptr is set
    var col: int
    var len: nat
    var screenLen: nat
    var maxLine: nat
    var lineIn: nat
    var target: nat
    var hit: bool
    ghost var seen: nat  // the steps taken in the row

    ghost predicate InTable()
      reads this
    {
      rowDesc < |table| && rowStart <= |table[rowDesc]|
    }

    ghost function Row(): seq<Byte>
      reads this
      requires InTable()
    {
      RowOf(table[rowDesc][rowStart..])
    }

    /** The rows behind the current one. */
    ghost function RowsLeft(): seq<seq<Byte>>
      reads this
      requires InTable()
    {
      RowsAfter(table, rowDesc, rowStart + |Row()|)
    }

    ghost function At(): Cursor
      reads this
      requires rowStart <= ptr
    {
      Cursor(ptr - rowStart, len, screenLen, col, lineIn, maxLine, target, hit)
    }

    /** What data() and length() give. */
    function Data(): seq<Byte>
      reads this
      requires rowDesc < |table| && ptr + len <= |table[rowDesc]|
    {
      table[rowDesc][ptr..ptr + len]
    }

    ghost predicate Valid()
      reads this
    {
      && InTable()
      && (if begun then rowStart <= ptr && col >= -1 && At() == Visit(Row(), seen) else rowDesc == 0 && rowStart == 0)
    }

    constructor (table: seq<seq<Byte>>)
      requires table != []
      ensures this.table == table && Valid() && !begun
    {
      this.table := table;
      rowDesc, rowStart, ptr, begun := 0, 0, 0, false;
      col, len, screenLen, maxLine, lineIn, target, hit := -1, 0, 0, 0, 0, 0, true;
      seen := 0;
    }

    /** Resets the iterator to the beginning of the table. */
    method RestartTable()
      requires table != []
      modifies this
      ensures Valid() && !begun
    {
      rowDesc, rowStart, ptr, begun := 0, 0, 0, false;
    }

    /** Resets the iterator to the beginning of the row. */
    method RestartRow()
      requires InTable()
      modifies this
      ensures Valid() && begun && seen == 0
      ensures rowDesc == old(rowDesc) && rowStart == old(rowStart)
    {
      ptr, begun := rowStart, true;
      col, len, screenLen, maxLine, lineIn, target, hit := -1, 0, 0, 0, 0, 0, true;
      seen := 0;
    }

    /** Determines the length of the part at ptr. */
    method UpdateLength()
      requires InTable() && rowStart <= ptr <= rowStart + |Row()|
      modifies this`len, this`screenLen, this`hit
      ensures At() == Shown(Row(), old(At()))
    {
      ghost var help, p, row := table[rowDesc][rowStart..], ptr - rowStart, Row();
      assert table[rowDesc][ptr..] == help[p..];
      len, screenLen := Measure(table[rowDesc][ptr..]);
      hit := true;
      PartInRow(help, p);
      assert help[p..][..len] == row[p..p + len];
    }

    /** Goes on to the next row: the rows come in the order of the table, each once. */
    method NextRow() returns (more: bool)
      requires Valid()
      modifies this
      ensures InTable()
      ensures more ==> Valid() && begun && seen == 0
      ensures var left := if old(begun) then old(RowsLeft()) else RowsFrom(table, 0, 0);
              if more then left == [Row()] + RowsLeft() else left == []
    {
      if !begun {
        RestartRow();
        return true;
      }
      ghost var s := table[rowDesc][rowStart..];
      while ptr < |table[rowDesc]| && table[rowDesc][ptr] != NEWLINE
        invariant rowStart <= ptr <= rowStart + RowLength(s)
        invariant unchanged(`rowDesc) && unchanged(`rowStart)
        decreases |table[rowDesc]| - ptr
      {
        AtRow(s, ptr - rowStart);
        ptr := ptr + 1;
      }
      AtRow(s, ptr - rowStart);
      more := StartRow();
    }

    /** From the end of a row to the start of the next. */
    method StartRow() returns (more: bool)
      requires InTable() && ptr == rowStart + |Row()|
      modifies this
      ensures InTable()
      ensures more ==> Valid() && begun && seen == 0
      ensures if more then old(RowsLeft()) == [Row()] + RowsLeft() else old(RowsLeft()) == []
    {
      if ptr == |table[rowDesc]| {
        if rowDesc + 1 == |table| {
          return false;
        }
        rowDesc, rowStart := rowDesc + 1, 0;
      } else {
        rowStart := ptr + 1;
      }
      assert old(RowsLeft()) == RowsFrom(table, rowDesc, rowStart);
      RestartRow();
      more := true;
    }

    /** Goes on to the next part of the row; false when there is none. */
    method Next() returns (more: bool)
      requires Valid()
      modifies this`ptr, this`len, this`screenLen, this`col, this`lineIn, this`maxLine, this`target, this`hit, this`seen
      ensures Valid()
      ensures !begun ==> !more
      ensures begun ==> seen == old(seen) + 1 && more == (old(seen) < |Grid(Row())|)
      ensures begun && more ==>
                && Data() == Grid(Row())[seen - 1] && screenLen == Width(Data())
                && 0 <= col < |Cells(Row())| && |Cells(Row())| * target + col == seen - 1
    {
      hide Cells, Grid, Width, Visit, RowOf;
      if begun {
        more := NextOfRow();
      } else {
        more := false;
      }
    }

    /** The next part of a row that has been begun: the parts of the grid, one by one. */
    method NextOfRow() returns (more: bool)
      requires Valid() && begun
      modifies this`ptr, this`len, this`screenLen, this`col, this`lineIn, this`maxLine, this`target, this`hit, this`seen
      ensures Valid() && seen == old(seen) + 1 && more == (old(seen) < |Grid(Row())|)
      ensures more ==>
                && Data() == Grid(Row())[seen - 1] && screenLen == Width(Data())
                && 0 <= col < |Cells(Row())| && |Cells(Row())| * target + col == seen - 1
    {
      hide Visit, Advance, Grid, Cells, Width, Shown, Scan;
      ghost var s := table[rowDesc][rowStart..];
      DataIsPart(s, seen);
      VisitNext(Row(), seen);
      more := Step();
      seen := seen + 1;
      SliceOfRest(table[rowDesc], rowStart, ptr - rowStart, len);
    }

    method Step() returns (more: bool)
      requires InTable() && rowStart <= ptr && Fits(Row(), At()) && col >= -1
      modifies this`ptr, this`len, this`screenLen, this`col, this`lineIn, this`maxLine, this`target, this`hit
      ensures rowStart <= ptr && col >= 0 && (At(), more) == Advance(Row(), old(At()))
    {
      hide Shown, Scan, RowOf;
      if col == -1 {
        col := 0;
        UpdateLength();
        return true;
      }
      ptr := ptr + len;
      more := Seek();
    }

    /** The scan for the next part. */
    method Seek() returns (more: bool)
      requires InTable() && rowStart <= ptr <= rowStart + |Row()| && col >= 0
      modifies this`ptr, this`len, this`screenLen, this`col, this`lineIn, this`maxLine, this`target, this`hit
      ensures rowStart <= ptr && col >= 0 && (At(), more) == Scan(Row(), old(At()))
    {
      var found, over := false, false;
      while !found && !over
        invariant rowStart <= ptr <= rowStart + |Row()| && col >= 0
        invariant Scan(Row(), old(At())) ==
                  if found then (Shown(Row(), At()), true) else if over then (At(), false) else Scan(Row(), At())
        decreases !found && !over, hit, rowStart + |Row()| - ptr
      {
        found, over := SeekRound();
      }
      more := found;
      if found {
        UpdateLength();
      }
    }

    /** The byte at the pointer is that of the row, or one behind it. */
    lemma ByteHere()
      requires InTable() && rowStart <= ptr <= rowStart + |Row()|
      ensures var help, p := table[rowDesc], ptr - rowStart;
              && ptr <= |help|
              && (p == |Row()| <==> ptr == |help| || help[ptr] == NEWLINE)
              && (p < |Row()| ==> Row()[p] == help[ptr])
    {
      var rest := table[rowDesc][rowStart..];
      AtRow(rest, ptr - rowStart);
      assert ptr < |table[rowDesc]| ==> rest[ptr - rowStart] == table[rowDesc][ptr];
    }

    method SeekRound() returns (found: bool, over: bool)
      requires InTable() && rowStart <= ptr <= rowStart + |Row()| && col >= 0
      modifies this`ptr, this`len, this`screenLen, this`col, this`lineIn, this`maxLine, this`target, this`hit
      ensures rowStart <= ptr && col >= 0
      ensures match Round(Row(), old(At()))
              case Found(c) => found && At() == c
              case Over(c) => !found && over && At() == c
              case More(c) => !found && !over && At() == c
    {
      found, over := false, false;
      ByteHere();
      hide RowOf, RowLength;
      if ptr == |table[rowDesc]| || table[rowDesc][ptr] == NEWLINE {
        if !hit {
          return true, false;
        }
        target := target + 1;
        if target > maxLine {
          len, screenLen := 0, 0;
          return false, true;
        }
        hit, lineIn, col, ptr := false, 0, 0, rowStart;
        return;
      }
      if table[rowDesc][ptr] == VTAB {
        lineIn := lineIn + 1;
        maxLine, ptr := Max(maxLine, lineIn), ptr + 1;
      } else if table[rowDesc][ptr] == TAB {
        if !hit {
          return true, false;
        }
        hit, lineIn, col, ptr := false, 0, col + 1, ptr + 1;
      } else {
        ptr := ptr + 1;
        return;
      }
      found := lineIn == target;
    }
  }
}
