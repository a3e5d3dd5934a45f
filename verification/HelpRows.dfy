/**
 * The layout that a help text describes: rows end with a newline, the cells of a row are
 * separated by tabs, the lines of a cell by vertical tabs.
 */
module HelpRows {
  import opened Basics
  import opened Utf8Text

  /** The pieces of s between the separators; always at least one. */
  function SplitOn(s: seq<Byte>, sep: Byte): (pieces: seq<seq<Byte>>)
    ensures pieces != []
  {
    if s == [] then [[]]
    else
      var rest := SplitOn(s[1..], sep);
      if s[0] == sep then [[]] + rest else [[s[0]] + rest[0]] + rest[1..]
  }

  function Cells(row: seq<Byte>): seq<seq<Byte>> {
    SplitOn(row, TAB)
  }

  function Lines(cell: seq<Byte>): seq<seq<Byte>> {
    SplitOn(cell, VTAB)
  }

  /** The greatest index of a line in any of the cells. */
  function Deepest(cells: seq<seq<Byte>>): nat {
    if cells == [] then 0
    else Max(Deepest(cells[..|cells| - 1]), |Lines(cells[|cells| - 1])| - 1)
  }

  /** Line t of cell c; a cell with fewer lines is filled up with empty ones. */
  function PartOf(cells: seq<seq<Byte>>, c: nat, t: nat): seq<Byte>
    requires c < |cells|
  {
    if t < |Lines(cells[c])| then Lines(cells[c])[t] else []
  }

  /** The first n cells of line t. */
  function LineOf(cells: seq<seq<Byte>>, t: nat, n: nat): (parts: seq<seq<Byte>>)
    requires n <= |cells|
    ensures |parts| == n
  {
    if n == 0 then [] else LineOf(cells, t, n - 1) + [PartOf(cells, n - 1, t)]
  }

  /** The lines before t, one after the other. */
  function LinesBefore(cells: seq<seq<Byte>>, t: nat): seq<seq<Byte>> {
    if t == 0 then [] else LinesBefore(cells, t - 1) + LineOf(cells, t - 1, |cells|)
  }

  /** All parts of a row, line by line: every line has a part for every cell. */
  function Grid(row: seq<Byte>): seq<seq<Byte>> {
    LinesBefore(Cells(row), Deepest(Cells(row)) + 1)
  }

  function Join(pieces: seq<seq<Byte>>, sep: Byte): seq<Byte>
    requires pieces != []
  {
    if |pieces| == 1 then pieces[0] else pieces[0] + [sep] + Join(pieces[1..], sep)
  }

  /** Splitting loses nothing and leaves no separator in a piece. */
  lemma {:induction false} SplitJoins(s: seq<Byte>, sep: Byte)
    ensures Join(SplitOn(s, sep), sep) == s
    ensures forall k :: 0 <= k < |SplitOn(s, sep)| ==> sep !in SplitOn(s, sep)[k]
  {
    if s != [] {
      SplitJoins(s[1..], sep);
      var rest := SplitOn(s[1..], sep);
      assert s == [s[0]] + s[1..];
      if s[0] == sep {
        assert SplitOn(s, sep)[1..] == rest;
      } else {
        assert SplitOn(s, sep)[1..] == rest[1..];
      }
    }
  }

  lemma OneMore(n: nat, t: nat)
    requires t > 0
    ensures n * t == n * (t - 1) + n
  {
  }

  /** A row has as many parts as cells times the lines of its deepest cell. */
  lemma {:induction false} GridSize(cells: seq<seq<Byte>>, t: nat)
    ensures |LinesBefore(cells, t)| == |cells| * t
  {
    if t > 0 {
      GridSize(cells, t - 1);
      assert |LinesBefore(cells, t)| == |LinesBefore(cells, t - 1)| + |cells|;
      OneMore(|cells|, t);
    } else {
      assert LinesBefore(cells, 0) == [];
    }
  }

  lemma {:induction false} LineAt(cells: seq<seq<Byte>>, t: nat, n: nat, c: nat)
    requires c < n <= |cells|
    ensures LineOf(cells, t, n)[c] == PartOf(cells, c, t)
  {
    if c < n - 1 {
      LineAt(cells, t, n - 1, c);
    }
  }

  /** Part number |cells| * t + c is line t of cell c. */
  lemma {:induction false} GridAt(cells: seq<seq<Byte>>, n: nat, t: nat, c: nat)
    requires t < n && c < |cells|
    ensures 0 <= |cells| * t + c < |LinesBefore(cells, n)|
    ensures LinesBefore(cells, n)[|cells| * t + c] == PartOf(cells, c, t)
  {
    GridSize(cells, n);
    GridSize(cells, n - 1);
    if t == n - 1 {
      LineAt(cells, t, |cells|, c);
    } else {
      GridAt(cells, n - 1, t, c);
    }
  }

  // ---------- Where a pointer stands ----------

  predicate IsBreak(b: Byte) {
    b == TAB || b == VTAB || b == NEWLINE
  }

  /** The number of bytes before the end of the part. */
  function PartLength(s: seq<Byte>): (n: nat)
    ensures n <= |s|
  {
    if s == [] || IsBreak(s[0]) then 0 else 1 + PartLength(s[1..])
  }

  /** The columns of the part that s begins with. */
  function PartWidth(s: seq<Byte>): nat {
    Width(s[..PartLength(s)])
  }

  /** The rest of the row from p on begins in line l of cell c. */
  predicate Within(row: seq<Byte>, p: nat, c: nat, l: nat) {
    && p <= |row| && c < |Cells(row)| && l < |Lines(Cells(row)[c])|
    && Cells(row[p..])[1..] == Cells(row)[c + 1..]
    && Lines(Cells(row[p..])[0])[1..] == Lines(Cells(row)[c])[l + 1..]
  }

  /** It begins with the whole of that line. */
  predicate AtStart(row: seq<Byte>, p: nat, c: nat, l: nat) {
    Within(row, p, c, l) && Lines(Cells(row[p..])[0])[0] == Lines(Cells(row)[c])[l]
  }

  lemma StartOfRow(row: seq<Byte>)
    ensures AtStart(row, 0, 0, 0)
  {
    assert row[0..] == row;
  }

  lemma PastVerticalTab(row: seq<Byte>, p: nat, c: nat, l: nat)
    requires Within(row, p, c, l) && p < |row| && row[p] == VTAB
    ensures AtStart(row, p + 1, c, l + 1)
  {
    var rest := Cells(row[p + 1..]);
    assert row[p..][1..] == row[p + 1..];
    assert Cells(row[p..]) == [[VTAB] + rest[0]] + rest[1..];
    assert ([VTAB] + rest[0])[1..] == rest[0];
    assert Lines([VTAB] + rest[0]) == [[]] + Lines(rest[0]);
    assert Lines(rest[0]) == Lines(Cells(row)[c])[l + 1..];
  }

  lemma PastTab(row: seq<Byte>, p: nat, c: nat, l: nat)
    requires Within(row, p, c, l) && p < |row| && row[p] == TAB
    ensures AtStart(row, p + 1, c + 1, 0)
    ensures l == |Lines(Cells(row)[c])| - 1
  {
    assert row[p..][1..] == row[p + 1..];
    assert Cells(row[p..])[1..] == Cells(row[p + 1..]);
    assert Lines([]) == [[]];
  }

  lemma AtEnd(row: seq<Byte>, p: nat, c: nat, l: nat)
    requires Within(row, p, c, l) && p == |row|
    ensures c == |Cells(row)| - 1 && l == |Lines(Cells(row)[c])| - 1
  {
    assert row[p..] == [];
    assert Lines([]) == [[]];
  }

  lemma PastByte(row: seq<Byte>, p: nat, c: nat, l: nat)
    requires Within(row, p, c, l) && p < |row| && row[p] != TAB && row[p] != VTAB
    ensures Within(row, p + 1, c, l)
  {
    var rest := Cells(row[p + 1..]);
    assert row[p..][1..] == row[p + 1..];
    assert ([row[p]] + rest[0])[1..] == rest[0];
  }

  lemma {:induction false} PastBytes(row: seq<Byte>, p: nat, n: nat, c: nat, l: nat)
    requires Within(row, p, c, l) && n <= PartLength(row[p..])
    ensures p + n <= |row| && Within(row, p + n, c, l)
    decreases n
  {
    if n > 0 {
      assert row[p..][1..] == row[p + 1..];
      PastByte(row, p, c, l);
      PastBytes(row, p + 1, n - 1, c, l);
    }
  }

  /** The first part of a text is what stands before its first break. */
  lemma {:induction false} FirstPart(s: seq<Byte>)
    requires NEWLINE !in s
    ensures Lines(Cells(s)[0])[0] == s[..PartLength(s)]
  {
    if s != [] && !IsBreak(s[0]) {
      FirstPart(s[1..]);
      var rest := Cells(s[1..]);
      assert ([s[0]] + rest[0])[1..] == rest[0];
      assert s[..PartLength(s)] == [s[0]] + s[1..][..PartLength(s[1..])];
    } else if s != [] {
      var rest := Cells(s[1..]);
      assert s[0] != TAB ==> ([s[0]] + rest[0])[1..] == rest[0];
    }
  }
}
