/** The order in which the parts of a row are visited: one cursor step after the other yields the grid. */
module PartOrder {
  import opened Basics
  import opened Utf8Text
  import opened HelpRows

  /**
   * Where the iterator stands in a row: the part begins at p and has len bytes and width columns;
   * line counts within the cell, target is the line wanted, max the deepest line met, and hit
   * says whether the cell has shown the line wanted.
   */
  datatype Cursor = Cursor(p: nat, len: nat, width: nat, col: int, line: nat, max: nat, target: nat, hit: bool)

  const START := Cursor(0, 0, 0, -1, 0, 0, 0, true)

  predicate Fits(row: seq<Byte>, c: Cursor) {
    c.p + c.len <= |row|
  }

  /** The part at the position of the cursor. */
  function Shown(row: seq<Byte>, c: Cursor): (r: Cursor)
    requires c.p <= |row|
    ensures Fits(row, r)
  {
    c.(len := PartLength(row[c.p..]), width := PartWidth(row[c.p..]), hit := true)
  }

  /** What a round of the scan leads to: a part, the end of the row, or another round. */
  datatype Outcome = Found(c: Cursor) | Over(c: Cursor) | More(c: Cursor)

  /** After a separator the part is found if it is on the line wanted. */
  function Check(c: Cursor): Outcome {
    if c.line == c.target then Found(c) else More(c)
  }

  function Round(row: seq<Byte>, c: Cursor): (o: Outcome)
    requires c.p <= |row|
    ensures o.c.p <= |row| && (o.Over? ==> o.c.len == 0)
    ensures o.More? ==> (c.hit && !o.c.hit) || (c.hit == o.c.hit && o.c.p > c.p)
  {
    if c.p == |row| then
      if !c.hit then Found(c)
      else if c.target + 1 > c.max then Over(c.(len := 0, width := 0, target := c.target + 1))
      else More(c.(p := 0, col := 0, line := 0, target := c.target + 1, hit := false))
    else if row[c.p] == VTAB then
      Check(c.(p := c.p + 1, line := c.line + 1, max := Max(c.max, c.line + 1)))
    else if row[c.p] == TAB then
      if !c.hit then Found(c) else Check(c.(p := c.p + 1, col := c.col + 1, line := 0, hit := false))
    else More(c.(p := c.p + 1))
  }

  /** The scan for the next part, and whether there is one. */
  function Scan(row: seq<Byte>, c: Cursor): (r: (Cursor, bool))
    requires c.p <= |row|
    ensures Fits(row, r.0)
    decreases c.hit, |row| - c.p
  {
    match Round(row, c)
    case Found(d) => (Shown(row, d), true)
    case Over(d) => (d, false)
    case More(d) => Scan(row, d)
  }

  /** One step of the iterator. */
  function Advance(row: seq<Byte>, c: Cursor): (r: (Cursor, bool))
    requires Fits(row, c)
    ensures Fits(row, r.0)
  {
    if c.col == -1 then (Shown(row, c.(col := 0)), true) else Scan(row, c.(p := c.p + c.len))
  }

  /** The cursor after k steps. */
  function Visit(row: seq<Byte>, k: nat): (c: Cursor)
    ensures Fits(row, c)
  {
    if k == 0 then START else Advance(row, Visit(row, k - 1)).0
  }

  lemma VisitNext(row: seq<Byte>, k: nat)
    ensures Visit(row, k + 1) == Advance(row, Visit(row, k)).0
  {
  }

  // ---------- What the steps visit ----------

  datatype Place = Before | On(col: nat, line: nat) | Past

  /** The order of the parts: line by line, every cell in turn. */
  function Following(cells: seq<seq<Byte>>, at: Place): Place {
    match at
    case Before => On(0, 0)
    case On(c, t) => if c + 1 < |cells| then On(c + 1, t) else if t < Deepest(cells) then On(0, t + 1) else Past
    case Past => Past
  }

  lemma {:induction false} DeepestBounds(cells: seq<seq<Byte>>, c: nat)
    requires c < |cells|
    ensures |Lines(cells[c])| - 1 <= Deepest(cells)
  {
    if c < |cells| - 1 {
      assert cells[..|cells| - 1][c] == cells[c];
      DeepestBounds(cells[..|cells| - 1], c);
    }
  }

  /** The deepest line met so far, in the first pass over the row; later passes know it. */
  predicate Greatest(cells: seq<seq<Byte>>, c: nat, l: nat, target: nat, max: nat) {
    c < |cells| && max == if target == 0 then Max(Deepest(cells[..c]), l) else Deepest(cells)
  }

  lemma NextCell(cells: seq<seq<Byte>>, c: nat, l: nat, target: nat, max: nat)
    requires Greatest(cells, c, l, target, max) && l == |Lines(cells[c])| - 1
    ensures c + 1 < |cells| ==> Greatest(cells, c + 1, 0, target, max)
    ensures c + 1 == |cells| ==> max == Deepest(cells)
  {
    assert cells[..c + 1][..c] == cells[..c];
    assert cells[..|cells|] == cells;
  }

  /** The cursor stands in the cell and line that its fields name. */
  predicate Placed(row: seq<Byte>, p: nat, c: Cursor) {
    && c.col >= 0 && Within(row, p, c.col, c.line)
    && Greatest(Cells(row), c.col, c.line, c.target, c.max) && c.target <= Deepest(Cells(row))
  }

  predicate LastLine(row: seq<Byte>, c: Cursor) {
    0 <= c.col < |Cells(row)| && c.line == |Lines(Cells(row)[c.col])| - 1
  }

  /** A part has been reached: the line wanted, or the end of a cell that does not have it. */
  predicate Reached(row: seq<Byte>, c: Cursor) {
    && Placed(row, c.p, c)
    && (if c.line == c.target then AtStart(row, c.p, c.col, c.line)
        else c.line < c.target && LastLine(row, c) && PartLength(row[c.p..]) == 0)
  }

  /** What the cursor must be at each place. */
  predicate Stands(row: seq<Byte>, c: Cursor, at: Place) {
    match at
    case Before => c == START
    case On(col, t) =>
      && c.col == col && c.target == t && c.hit && Fits(row, c) && Placed(row, c.p + c.len, c)
      && c.line <= t && (c.line < t ==> LastLine(row, c))
      && row[c.p..c.p + c.len] == PartOf(Cells(row), col, t) && c.width == Width(PartOf(Cells(row), col, t))
    case Past => c.p == |row| && c.len == 0 && c.hit && c.target > c.max && c.col >= 0
  }

  /** The part that begins at p is line t of the cell, or empty. */
  lemma PartHere(row: seq<Byte>, p: nat, c: nat, t: nat)
    requires c < |Cells(row)| && p <= |row| && NEWLINE !in row
    requires AtStart(row, p, c, t) || (t >= |Lines(Cells(row)[c])| && PartLength(row[p..]) == 0)
    ensures row[p..p + PartLength(row[p..])] == PartOf(Cells(row), c, t)
    ensures PartWidth(row[p..]) == Width(PartOf(Cells(row), c, t))
  {
    var rest := row[p..];
    hide Within, SplitOn, Width, PartLength;
    assert NEWLINE !in rest;
    FirstPart(rest);
    assert rest[..PartLength(rest)] == row[p..p + PartLength(rest)];
  }

  lemma ReachedIsShown(row: seq<Byte>, c: Cursor)
    requires Reached(row, c) && NEWLINE !in row
    ensures Stands(row, Shown(row, c), On(c.col, c.target))
  {
    hide PartLength, PartWidth, AtStart, PartOf, Deepest, Greatest, SplitOn;
    PartHere(row, c.p, c.col, c.target);
    hide Within;
    PastBytes(row, c.p, PartLength(row[c.p..]), c.col, c.line);
  }

  /** What holds during the scan for the part after a place. */
  predicate Scanning(row: seq<Byte>, was: Place, c: Cursor) {
    match was
    case Before => false
    case On(_, _) =>
      && Placed(row, c.p, c)
      && (if c.hit then was == On(c.col, c.target) && (c.line >= c.target || LastLine(row, c))
          else Following(Cells(row), was) == On(c.col, c.target) && c.line < c.target)
    case Past => c.p == |row| && c.hit && c.target > c.max && c.col >= 0
  }

  lemma AtVerticalTab(row: seq<Byte>, was: Place, c: Cursor)
    requires Scanning(row, was, c) && c.p < |row| && row[c.p] == VTAB
    ensures var d := c.(p := c.p + 1, line := c.line + 1, max := Max(c.max, c.line + 1));
            if d.line == d.target then Reached(row, d) && Following(Cells(row), was) == On(d.col, d.target)
            else Scanning(row, was, d)
  {
    PastVerticalTab(row, c.p, c.col, c.line);
    DeepestBounds(Cells(row), c.col);
  }

  lemma AtTab(row: seq<Byte>, was: Place, c: Cursor)
    requires Scanning(row, was, c) && c.p < |row| && row[c.p] == TAB
    ensures var d := c.(p := c.p + 1, col := c.col + 1, line := 0, hit := false);
            && Following(Cells(row), was) == On(if c.hit then d.col else c.col, c.target)
            && (if !c.hit then Reached(row, c) else if d.target == 0 then Reached(row, d) else Scanning(row, was, d))
  {
    PastTab(row, c.p, c.col, c.line);
    NextCell(Cells(row), c.col, c.line, c.target, c.max);
  }

  lemma AtRowEnd(row: seq<Byte>, was: Place, c: Cursor)
    requires Scanning(row, was, c) && c.p == |row|
    ensures if !c.hit then Reached(row, c) && Following(Cells(row), was) == On(c.col, c.target)
            else if c.target + 1 > c.max then
              Following(Cells(row), was) == Past && Stands(row, c.(len := 0, width := 0, target := c.target + 1), Past)
            else Scanning(row, was, c.(p := 0, col := 0, line := 0, target := c.target + 1, hit := false))
  {
    if was.On? {
      AtEnd(row, c.p, c.col, c.line);
      NextCell(Cells(row), c.col, c.line, c.target, c.max);
      StartOfRow(row);
    }
  }

  lemma AtByte(row: seq<Byte>, was: Place, c: Cursor)
    requires Scanning(row, was, c) && c.p < |row| && row[c.p] != TAB && row[c.p] != VTAB
    ensures Scanning(row, was, c.(p := c.p + 1))
  {
    PastByte(row, c.p, c.col, c.line);
  }

  lemma RoundFinds(row: seq<Byte>, was: Place, c: Cursor)
    requires Scanning(row, was, c) && c.p <= |row|
    ensures var o := Round(row, c);
            match o
            case Found(d) => Reached(row, d) && Following(Cells(row), was) == On(d.col, d.target)
            case Over(d) => Following(Cells(row), was) == Past && Stands(row, d, Past)
            case More(d) => Scanning(row, was, d)
  {
    hide Scanning, Reached, Stands, Following, Cells;
    if c.p == |row| {
      AtRowEnd(row, was, c);
    } else if row[c.p] == VTAB {
      AtVerticalTab(row, was, c);
    } else if row[c.p] == TAB {
      AtTab(row, was, c);
    } else {
      AtByte(row, was, c);
    }
  }

  /** The scan finds the place that follows. */
  lemma {:induction false} ScanFinds(row: seq<Byte>, was: Place, c: Cursor)
    requires Scanning(row, was, c) && c.p <= |row| && NEWLINE !in row
    ensures Stands(row, Scan(row, c).0, Following(Cells(row), was))
    ensures Scan(row, c).1 == Following(Cells(row), was).On?
    decreases c.hit, |row| - c.p
  {
    RoundFinds(row, was, c);
    match Round(row, c)
    case Found(d) => ReachedIsShown(row, d);
    case Over(_) =>
    case More(d) => ScanFinds(row, was, d);
  }

  lemma AdvanceFollows(row: seq<Byte>, c: Cursor, at: Place)
    requires Stands(row, c, at) && Fits(row, c) && NEWLINE !in row
    ensures Stands(row, Advance(row, c).0, Following(Cells(row), at))
    ensures Advance(row, c).1 == Following(Cells(row), at).On?
  {
    hide Cells, Scan, Round, Stands, Scanning, Reached, Following, Shown;
    StandsFor(row, c, at);
    if at == Before {
      FollowsStart(row);
    } else {
      ScanFinds(row, at, c.(p := c.p + c.len));
    }
  }

  /** Where the scan for the next part begins. */
  lemma StandsFor(row: seq<Byte>, c: Cursor, at: Place)
    requires Stands(row, c, at) && Fits(row, c)
    ensures if at == Before then c == START
            else c.col >= 0 && c.p + c.len <= |row| && Scanning(row, at, c.(p := c.p + c.len))
  {
    hide Cells, PartOf, Width;
  }

  lemma FollowsStart(row: seq<Byte>)
    requires NEWLINE !in row && Fits(row, START)
    ensures Stands(row, Advance(row, START).0, Following(Cells(row), Before))
    ensures Advance(row, START).1 == Following(Cells(row), Before).On?
  {
    hide Cells, Scan, Round;
    StartOfRow(row);
    ReachedIsShown(row, START.(col := 0));
  }

  /** The place after k steps. */
  function PlaceAt(cells: seq<seq<Byte>>, k: nat): Place {
    if k == 0 then Before else Following(cells, PlaceAt(cells, k - 1))
  }

  lemma StandsAtStart(row: seq<Byte>)
    ensures Stands(row, START, Before)
  {
  }

  lemma {:induction false} VisitStands(row: seq<Byte>, k: nat)
    requires NEWLINE !in row
    ensures Stands(row, Visit(row, k), PlaceAt(Cells(row), k))
  {
    StandsAtStart(row);
    hide Stands, Advance, Following, Cells;
    if k > 0 {
      VisitStands(row, k - 1);
      AdvanceFollows(row, Visit(row, k - 1), PlaceAt(Cells(row), k - 1));
    }
  }

  /** Step number k + 1 goes to part number k, line by line, as long as there are parts. */
  lemma {:induction false} PlaceOfPart(cells: seq<seq<Byte>>, k: nat)
    requires cells != []
    ensures var n := |cells| * (Deepest(cells) + 1); var at := PlaceAt(cells, k + 1);
            if k < n then at.On? && at.col < |cells| && at.line <= Deepest(cells) && |cells| * at.line + at.col == k
            else at == Past
  {
    if k > 0 {
      PlaceOfPart(cells, k - 1);
      var was := PlaceAt(cells, k);
      if was.On? {
        RowMajor(|cells|, Deepest(cells), was.col, was.line);
      }
    } else {
      assert PlaceAt(cells, 0) == Before;
      RowMajor(|cells|, Deepest(cells), 0, 0);
    }
  }

  lemma RowMajor(n: nat, deepest: nat, col: nat, line: nat)
    requires col < n && line <= deepest
    ensures n * line + col < n * (deepest + 1)
    ensures col + 1 == n ==> n * (line + 1) == n * line + col + 1
    ensures n * line + col + 1 == n * (deepest + 1) <==> col + 1 == n && line == deepest
    ensures n * 0 == 0
  {
    var left := deepest - line;
    Distributes(n, line, 1);
    Distributes(n, line + 1, left);
    if left > 0 {
      Distributes(n, left - 1, 1);
    }
  }

  lemma Distributes(n: nat, a: nat, b: nat)
    ensures n * (a + b) == n * a + n * b && n * a >= 0
  {
  }

  lemma VisitPlace(row: seq<Byte>, k: nat)
    requires NEWLINE !in row
    ensures Stands(row, Visit(row, k + 1), PlaceAt(Cells(row), k + 1))
    ensures Advance(row, Visit(row, k)).1 == PlaceAt(Cells(row), k + 1).On?
  {
    VisitStands(row, k);
    AdvanceFollows(row, Visit(row, k), PlaceAt(Cells(row), k));
  }

  lemma PartAtPlace(row: seq<Byte>, k: nat)
    ensures var cells := Cells(row); var at := PlaceAt(cells, k + 1);
            && at.On? == (k < |Grid(row)|)
            && (at.On? ==> at.col < |cells| && |cells| * at.line + at.col == k
                           && PartOf(cells, at.col, at.line) == Grid(row)[k])
  {
    var cells := Cells(row);
    PlaceOfPart(cells, k);
    GridSize(cells, Deepest(cells) + 1);
    if k < |Grid(row)| {
      var at := PlaceAt(cells, k + 1);
      GridAt(cells, Deepest(cells) + 1, at.line, at.col);
    }
  }

  /** The steps show the parts of the grid one by one, and then no more. */
  lemma StepsShowGrid(row: seq<Byte>, k: nat)
    requires NEWLINE !in row
    ensures var c := Visit(row, k + 1); var more := Advance(row, Visit(row, k)).1;
            && more == (k < |Grid(row)|)
            && (more ==> row[c.p..c.p + c.len] == Grid(row)[k] && c.width == Width(Grid(row)[k])
                         && 0 <= c.col < |Cells(row)| && |Cells(row)| * c.target + c.col == k)
  {
    VisitPlace(row, k);
    PartAtPlace(row, k);
  }
}
