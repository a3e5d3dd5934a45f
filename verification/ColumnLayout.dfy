/** The layout of a help table: the columns are made to fit, then the tab stops follow. */
module ColumnLayout {
  import opened Basics
  import opened Utf8Text
  import opened PartIterator
  import opened ColumnFit

  const NO_THRESHOLD := 10000

  function TableParts(table: seq<seq<Byte>>): seq<Part> {
    PartsOfAll(TableRows(table))
  }

  /** The threshold ignores no more than needed: with any higher one the columns are too wide. */
  predicate Tightest(parts: seq<Part>, width: nat, threshold: nat) {
    && LeftWidth(parts, threshold) <= width
    && forall t :: threshold < t <= NO_THRESHOLD ==> LeftWidth(parts, t) > width
  }

  lemma {:induction false} AllEmpty(parts: seq<Part>, n: nat, threshold: nat)
    requires forall c :: 0 <= c < n ==> ColumnWidth(parts, c, threshold) == 0
    ensures Together(parts, n, threshold) == 0
  {
    if n > 0 {
      AllEmpty(parts, n - 1, threshold);
    }
  }

  /** The widest of the columns but the last is the next threshold: it is lower, and none is skipped. */
  lemma NextThreshold(parts: seq<Part>, width: nat, threshold: nat, widest: nat)
    requires threshold > 0 && LeftWidth(parts, threshold) > width
    requires forall c :: 0 <= c < LastColumn(parts) ==> ColumnWidth(parts, c, threshold) <= widest
    requires widest == 0 || exists c :: 0 <= c < LastColumn(parts) && ColumnWidth(parts, c, threshold) == widest
    ensures 0 < widest < threshold
    ensures forall t :: widest < t <= threshold ==> LeftWidth(parts, t) > width
  {
    if widest == 0 {
      AllEmpty(parts, LastColumn(parts), threshold);
      assert false;
    }
    var c :| 0 <= c < LastColumn(parts) && ColumnWidth(parts, c, threshold) == widest;
    WidthUnder(parts, c, threshold);
    forall t | widest < t <= threshold ensures LeftWidth(parts, t) > width {
      TogetherBelow(parts, LastColumn(parts), threshold, t);
    }
  }

  /** The columns but the last: their widths together, and the widest. */
  method LeftColumns(widths: array<nat>, last: nat, ghost parts: seq<Part>, ghost threshold: nat)
    returns (left: nat, widest: nat)
    requires widths.Length == 8 && last < 8
    requires forall c :: 0 <= c < 8 ==> widths[c] == ColumnWidth(parts, c, threshold)
    ensures left == Together(parts, last, threshold)
    ensures forall c :: 0 <= c < last ==> ColumnWidth(parts, c, threshold) <= widest
    ensures widest == 0 || exists c :: 0 <= c < last && ColumnWidth(parts, c, threshold) == widest
  {
    left, widest := 0, 0;
    for i := 0 to last
      invariant left == Together(parts, i, threshold)
      invariant forall c :: 0 <= c < i ==> ColumnWidth(parts, c, threshold) <= widest
      invariant widest == 0 || exists c :: 0 <= c < i && ColumnWidth(parts, c, threshold) == widest
    {
      left := left + widths[i];
      widest := Max(widest, widths[i]);
      assert ColumnWidth(parts, i, threshold) == widths[i];
    }
  }

  /** Ignores the widest parts until the columns but the last fit into the width. */
  method FitColumns(part: LinePartIterator, width: nat)
    returns (widths: array<nat>, last: nat, ghost threshold: nat)
    requires part.table != [] && width > 0
    modifies part
    ensures fresh(widths) && widths.Length == 8
    ensures var parts := TableParts(part.table);
            && last == LastColumn(parts) && Tightest(parts, width, threshold)
            && forall c :: 0 <= c < 8 ==> widths[c] == ColumnWidth(parts, c, threshold)
  {
    hide ColumnWidth, LastColumn, TableRows, PartsOfAll, Together;
    ghost var parts := TableParts(part.table);
    widths := new nat[8];
    var next, left := NO_THRESHOLD, width + 1;
    last, threshold := 0, 0;
    while left > width
      invariant left > width ==> next > 0
      invariant left > width ==> forall t :: next < t <= NO_THRESHOLD ==> LeftWidth(parts, t) > width
      invariant left <= width ==>
        && last == LastColumn(parts) && Tightest(parts, width, threshold)
        && forall c :: 0 <= c < 8 ==> widths[c] == ColumnWidth(parts, c, threshold)
      decreases left > width, next
    {
      threshold := next;
      last := NoteTable(part, widths, next);
      left, next := LeftColumns(widths, last, parts, threshold);
      assert left == LeftWidth(parts, threshold);
      if left > width {
        NextThreshold(parts, width, threshold, next);
      }
    }
  }

  /** Division that truncates toward zero. */
  function Quotient(n: int, d: int): int
    requires d > 0
  {
    if n >= 0 then n / d else -(-n / d)
  }

  /** A percentage of the width, rounded. */
  function Percent(width: int, percent: int): int {
    Quotient(width * percent + 50, 100)
  }

  function UsableWidth(width: int): (w: nat)
    ensures 1 <= w <= 10000
  {
    if width < 1 then 80 else if width > 10000 then 10000 else width
  }

  lemma AtMostAll(width: nat, percent: int)
    requires 1 <= width
    ensures percent <= 100 ==> Percent(width, percent) <= width
    ensures 0 <= percent ==> 0 <= Percent(width, percent)
  {
    if percent <= 100 {
      assert width * percent <= width * 100;
    }
  }

  function OwnLineWidth(width: nat, percent: int): int {
    if Percent(width, percent) == 0 then 1 else Percent(width, percent)
  }

  /** The last column gets less than the width asked for, and it needs more or its width is unknown. */
  predicate Crowded(parts: seq<Part>, last: nat, threshold: nat, width: nat, minPercent: int) {
    var room := width - Together(parts, last, threshold);
    && room < Percent(width, minPercent)
    && (ColumnWidth(parts, last, threshold) == 0 || room < ColumnWidth(parts, last, threshold))
  }

  method TabStops(widths: array<nat>, ghost parts: seq<Part>, ghost threshold: nat) returns (tabstop: array<nat>)
    requires widths.Length == 8
    requires forall c :: 0 <= c < 8 ==> widths[c] == ColumnWidth(parts, c, threshold)
    ensures fresh(tabstop) && tabstop.Length == 8
    ensures forall k :: 0 <= k < 8 ==> tabstop[k] == Together(parts, k, threshold)
    ensures forall k, l :: 0 <= k <= l < 8 ==> tabstop[k] <= tabstop[l]
  {
    hide ColumnWidth;
    tabstop := new nat[8];
    tabstop[0] := 0;
    for i := 1 to 8
      invariant forall k :: 0 <= k < i ==> tabstop[k] == Together(parts, k, threshold)
      invariant forall k, l :: 0 <= k <= l < i ==> tabstop[k] <= tabstop[l]
    {
      assert Together(parts, i, threshold) == Together(parts, i - 1, threshold) + ColumnWidth(parts, i - 1, threshold);
      tabstop[i] := tabstop[i - 1] + widths[i - 1];
    }
  }

  /** Where the columns of a table begin, and how the last column is printed. */
  method LayOut(part: LinePartIterator, givenWidth: int, minPercent: int, ownLinePercent: int)
    returns (tabstop: array<nat>, last: nat, rightWidth: int, ownLine: bool, ghost threshold: nat)
    requires part.table != []
    modifies part
    ensures var parts := TableParts(part.table); var width := UsableWidth(givenWidth);
            && tabstop.Length == 8 && last == LastColumn(parts) && Tightest(parts, width, threshold)
            && (forall i :: 0 <= i < 8 ==> tabstop[i] == Together(parts, i, threshold))
            && (forall i, j :: 0 <= i <= j < 8 ==> tabstop[i] <= tabstop[j])
            && tabstop[last] <= width
            && (ownLine == (last > 0 && Crowded(parts, last, threshold, width, minPercent)))
            && rightWidth == (if Crowded(parts, last, threshold, width, minPercent)
                              then OwnLineWidth(width, ownLinePercent) else width - tabstop[last])
    ensures var width := UsableWidth(givenWidth);
            && (minPercent <= 100 && !ownLine ==> tabstop[last] + rightWidth == width)
            && (minPercent <= 100 && 0 <= ownLinePercent <= 100 ==> 0 <= rightWidth <= width)
  {
    var width := UsableWidth(givenWidth);
    var minWidth, ownLineWidth := Percent(width, minPercent), Percent(width, ownLinePercent);
    if ownLineWidth == 0 {
      ownLineWidth := 1;
    }
    AtMostAll(width, minPercent);
    AtMostAll(width, ownLinePercent);
    hide ColumnWidth, LastColumn, TableRows, PartsOfAll, Percent, UsableWidth, Together;
    ghost var parts := TableParts(part.table);
    var widths;
    widths, last, threshold := FitColumns(part, width);
    assert LeftWidth(parts, threshold) <= width;
    tabstop := TabStops(widths, parts, threshold);
    rightWidth, ownLine := width - tabstop[last], false;
    if rightWidth < minWidth && (widths[last] == 0 || rightWidth < widths[last]) {
      ownLine, rightWidth := true, ownLineWidth;
    }
    if last == 0 {
      ownLine := false;
    }
  }
}
