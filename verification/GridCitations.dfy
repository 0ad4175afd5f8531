/** No printed cell is lost, every citation is true, and no two cells cite the same place. */
module GridCitations {
  import opened Basics
  import opened Readers
  import opened GridColumns
  import opened GridIntegrity
  import Text

  // ------------------------------------------------------------------ groups and their columns

  /** Group c is a run of columns. */
  lemma {:induction false} GroupRun(gs: seq<seq<nat>>, lo: nat, n: nat, c: nat) returns (a: nat)
    requires Tiles(gs, lo, n) && c < |gs|
    ensures lo <= a && a + |gs[c]| <= n && gs[c] == Range(a, a + |gs[c]|)
    ensures c > 0 ==> a >= lo + |gs[0]|
    decreases c
  {
    TilesUnder(gs, lo, n);
    if c == 0 {
      a := lo;
    } else {
      a := GroupRun(gs[1..], lo + |gs[0]|, n, c - 1);
      assert gs[c] == gs[1..][c - 1];
    }
  }

  /** The columns of an earlier group are smaller. */
  lemma {:induction false} GroupsOrdered(gs: seq<seq<nat>>, lo: nat, n: nat, c: nat, d: nat, o: nat, p: nat)
    requires Tiles(gs, lo, n) && c < d < |gs| && o in gs[c] && p in gs[d]
    ensures o < p
    decreases c
  {
    if c == 0 {
      var a := GroupRun(gs, lo, n, d);
      var k :| 0 <= k < |gs[0]| && gs[0][k] == o;
      RangeAt(lo, lo + |gs[0]|, k);
      var q :| 0 <= q < |gs[d]| && gs[d][q] == p;
      RangeAt(a, a + |gs[d]|, q);
    } else {
      assert gs[1..][c - 1] == gs[c] && gs[1..][d - 1] == gs[d];
      GroupsOrdered(gs[1..], lo + |gs[0]|, n, c - 1, d - 1, o, p);
    }
  }

  /** Every column is in some group. */
  lemma {:induction false} GroupOf(gs: seq<seq<nat>>, lo: nat, n: nat, o: nat) returns (c: nat)
    requires Tiles(gs, lo, n) && lo <= o < n
    ensures c < |gs| && o in gs[c]
    decreases |gs|
  {
    var hi := lo + |gs[0]|;
    if o < hi {
      RangeAt(lo, hi, o - lo);
      c := 0;
    } else {
      var k := GroupOf(gs[1..], hi, n, o);
      c := k + 1;
    }
  }

  lemma {:induction false} FreePair(row: Row, lo: nat, hi: nat, a: nat, b: nat)
    requires hi <= |row| && FreeRow(row, lo, hi) && lo <= a < b < hi
    ensures row[a] == "" || row[b] == ""
    decreases a - lo
  {
    if lo < a {
      FreePair(row, lo + 1, hi, a, b);
    } else if row[b] != "" {
      AnyTextAt(row, lo + 1, hi, b);
    }
  }

  lemma {:induction false} InRange(lo: nat, hi: nat, o: nat)
    requires o in Range(lo, hi)
    ensures lo <= o < hi
    decreases hi - lo
  {
    if o != lo { InRange(lo + 1, hi, o); }
  }

  lemma OneInRange(row: Row, lo: nat, hi: nat, o: nat, p: nat)
    requires hi <= |row| && FreeRow(row, lo, hi) && o in Range(lo, hi) && p in Range(lo, hi)
    requires o < |row| && p < |row| && row[o] != "" && row[p] != ""
    ensures o == p
  {
    InRange(lo, hi, o);
    InRange(lo, hi, p);
    if o < p { FreePair(row, lo, hi, o, p); }
    if p < o { FreePair(row, lo, hi, p, o); }
  }

  /** A row has at most one text in a group. */
  lemma {:induction false} OneText(row: Row, gs: seq<seq<nat>>, lo: nat, c: nat, o: nat, p: nat)
    requires Tiles(gs, lo, |row|) && Exclusive(row, gs, lo)
    requires c < |gs| && o in gs[c] && p in gs[c] && o < |row| && p < |row| && row[o] != "" && row[p] != ""
    ensures o == p
    decreases c
  {
    if c == 0 {
      OneInRange(row, lo, lo + |gs[0]|, o, p);
    } else {
      OneText(row, gs[1..], lo + |gs[0]|, c - 1, o, p);
    }
  }

  // ------------------------------------------------------------------ a merged text and the column it came from

  /** `clean` is the cleaned and padded form of the printed row. */
  ghost predicate IsCleaned(printed: Row, clean: Row) {
    && |printed| <= |clean|
    && (forall o :: 0 <= o < |printed| ==> clean[o] == Text.Clean(printed[o]))
    && (forall o :: |printed| <= o < |clean| ==> clean[o] == "")
  }

  /** The text of a merged cell is printed in the column that is cited for it. */
  lemma {:induction false} FirstTextIsOwn(printed: Row, clean: Row, grp: seq<nat>)
    requires IsCleaned(printed, clean) && Below(grp, |clean|) && FirstText(clean, grp) != ""
    ensures var o := FirstOwn(printed, grp);
            o.Some? && o.value in grp && o.value < |printed| && Text.Clean(printed[o.value]) == FirstText(clean, grp)
  {
    if clean[grp[0]] == "" { FirstTextIsOwn(printed, clean, grp[1..]); }
  }

  lemma {:induction false} OwnInGroup(row: Row, grp: seq<nat>)
    requires grp != []
    ensures OwnColumn(row, grp) in grp
  {
    if FirstOwn(row, grp).Some? { FirstOwnInGroup(row, grp); }
  }

  lemma {:induction false} FirstOwnInGroup(row: Row, grp: seq<nat>)
    requires FirstOwn(row, grp).Some?
    ensures FirstOwn(row, grp).value in grp
  {
    if !(grp[0] < |row| && Text.Clean(row[grp[0]]) != "") { FirstOwnInGroup(row, grp[1..]); }
  }

  lemma {:induction false} TextIsFirst(clean: Row, grp: seq<nat>, o: nat)
    requires Below(grp, |clean|) && o in grp && clean[o] != ""
    ensures FirstText(clean, grp) != ""
  {
    if clean[grp[0]] == "" { TextIsFirst(clean, grp[1..], o); }
  }

  // ------------------------------------------------------------------ rows of a grid

  /** The text in column o of group c is cited from there. */
  lemma OwnColumnIs(printed: Row, clean: Row, gs: seq<seq<nat>>, c: nat, o: nat)
    requires IsCleaned(printed, clean) && Tiles(gs, 0, |clean|) && Exclusive(clean, gs, 0) && AllUnder(gs, |clean|)
    requires c < |gs| && o in gs[c] && clean[o] != ""
    ensures OwnColumn(printed, gs[c]) == o && MergedRow(clean, gs)[c] == clean[o]
  {
    TextIsFirst(clean, gs[c], o);
    FirstTextIsOwn(printed, clean, gs[c]);
    OneText(clean, gs, 0, c, o, OwnColumn(printed, gs[c]));
    MergedRowAt(clean, gs, c);
  }

  /** The cleaned text a reader printed in column o of a row, if the row is that long. */
  function PrintedText(row: Row, o: nat): string { if o < |row| then Text.Clean(row[o]) else "" }

  lemma {:induction false} NoTextNoOwn(printed: Row, clean: Row, grp: seq<nat>)
    requires IsCleaned(printed, clean) && Below(grp, |clean|) && FirstText(clean, grp) == ""
    ensures FirstOwn(printed, grp).None? && (grp != [] ==> PrintedText(printed, grp[0]) == "")
  {
    if grp != [] { NoTextNoOwn(printed, clean, grp[1..]); }
  }

  lemma MergedIsOwn(printed: Row, clean: Row, gs: seq<seq<nat>>, c: nat)
    requires IsCleaned(printed, clean) && AllUnder(gs, |clean|) && c < |gs| && gs[c] != []
    ensures PrintedText(printed, OwnColumn(printed, gs[c])) == MergedRow(clean, gs)[c]
  {
    MergedRowAt(clean, gs, c);
    if MergedRow(clean, gs)[c] != "" {
      FirstTextIsOwn(printed, clean, gs[c]);
    } else {
      NoTextNoOwn(printed, clean, gs[c]);
    }
  }

  /** The merged row r and the groups it was merged by. */
  lemma CollapsedRow(rows: seq<Row>, n: nat, headerRows: nat, r: nat) returns (gs: seq<seq<nat>>)
    requires n == Width(rows) && Rectangular(rows, n) && r < |rows|
    ensures Collapse(rows, headerRows).1 == gs && |Collapse(rows, headerRows).0| == |rows|
    ensures Tiles(gs, 0, n) && AllUnder(gs, n) && Exclusive(rows[r], gs, 0)
    ensures Collapse(rows, headerRows).0[r] == MergedRow(rows[r], gs)
  {
    gs := Groups(rows, headerRows);
    CollapseIs(rows, headerRows);
    GroupsTile(rows, headerRows);
    GroupsExclusive(rows, n, headerRows, 0, r);
    MergedAt(rows, n, gs, r);
  }

  lemma PaddedIsCleaned(row: Row, w: nat)
    requires |row| <= w
    ensures IsCleaned(row, Pad(CleanRow(row), w))
  {
    var clean := CleanRow(row);
    forall o | 0 <= o < |row| ensures Pad(clean, w)[o] == Text.Clean(row[o]) { assert clean[o] == Text.Clean(row[o]); }
  }

  /** A merged row is made from the printed one, cleaned and padded, with one text at most in a group. */
  ghost predicate RowBuilt(printed: Row, n: nat, gs: seq<seq<nat>>, row: Row) {
    && |printed| <= n && AllUnder(gs, n)
    && Exclusive(Pad(CleanRow(printed), n), gs, 0)
    && row == MergedRow(Pad(CleanRow(printed), n), gs)
  }

  ghost predicate RowsBuilt(printed: seq<Row>, n: nat, gs: seq<seq<nat>>, rows: seq<Row>) {
    |printed| == |rows| && (rows == []
      || (RowBuilt(printed[0], n, gs, rows[0]) && RowsBuilt(printed[1..], n, gs, rows[1..])))
  }

  lemma {:induction false} RowBuiltAt(printed: seq<Row>, n: nat, gs: seq<seq<nat>>, rows: seq<Row>, t: nat)
    requires RowsBuilt(printed, n, gs, rows) && t < |rows|
    ensures RowBuilt(printed[t], n, gs, rows[t])
    decreases t
  {
    if t > 0 { RowBuiltAt(printed[1..], n, gs, rows[1..], t - 1); }
  }

  /** A context built from the rows of g, its layout from the merged columns. */
  ghost predicate Built(x: Context, g: Input) {
    && x.Valid() && x.printed == g.rows && |g.rows| == x.layout.headerRows + |x.layout.rows|
    && Tiles(x.layout.groups, 0, Width(g.rows))
    && RowsBuilt(g.rows[x.layout.headerRows..], Width(g.rows), x.layout.groups, x.layout.rows)
  }

  lemma RowBuiltFrom(printed: Row, n: nat, clean: Row, gs: seq<seq<nat>>, row: Row)
    requires |printed| <= n && clean == Pad(CleanRow(printed), n) && AllUnder(gs, n)
    requires Exclusive(clean, gs, 0) && row == MergedRow(clean, gs)
    ensures RowBuilt(printed, n, gs, row)
  {
  }

  lemma CleanRowsAt(rows: seq<Row>, w: nat, r: nat)
    requires (forall i :: 0 <= i < |rows| ==> |rows[i]| <= w) && r < |rows|
    ensures CleanRows(rows, w)[r] == Pad(CleanRow(rows[r]), w)
  {
  }

  lemma MergedRowBuilt(g: Input, r: nat)
    requires r < |g.rows| && r < |MergedGrid(g).0|
    ensures RowBuilt(g.rows[r], Width(g.rows), MergedGrid(g).1, MergedGrid(g).0[r])
  {
    var n, clean := Width(g.rows), CleanRows(g.rows, Width(g.rows));
    CleanRectangular(g.rows);
    var gs := CollapsedRow(clean, n, g.headerRows, r);
    CleanRowsAt(g.rows, n, r);
    RowBuiltFrom(g.rows[r], n, clean[r], gs, MergedGrid(g).0[r]);
  }

  lemma {:induction false} MergedRowsBuilt(g: Input, rows: seq<Row>, gs: seq<seq<nat>>, h: nat)
    requires MergedGrid(g) == (rows, gs) && h <= |rows| == |g.rows|
    ensures RowsBuilt(g.rows[h..], Width(g.rows), gs, rows[h..])
    decreases |rows| - h
  {
    if h < |rows| {
      MergedRowBuilt(g, h);
      MergedRowsBuilt(g, rows, gs, h + 1);
      assert rows[h..][1..] == rows[h + 1..] && g.rows[h..][1..] == g.rows[h + 1..];
    }
  }

  lemma GridTiles(g: Input)
    ensures Tiles(MergedGrid(g).1, 0, Width(g.rows))
  {
    CleanRectangular(g.rows);
    CollapseIs(CleanRows(g.rows, Width(g.rows)), g.headerRows);
    GroupsTile(CleanRows(g.rows, Width(g.rows)), g.headerRows);
  }

  /** What a context is made of. */
  lemma ContextIs(rules: Rules, g: Input, previous: Option<GridRecord>)
    ensures Built(ContextOf(rules, g, previous), g) && ContextOf(rules, g, previous).rules == rules
  {
    var x := ContextOf(rules, g, previous);
    MergedGridShape(g);
    GridTiles(g);
    MergedRowsBuilt(g, MergedGrid(g).0, MergedGrid(g).1, x.layout.headerRows);
  }

  /** Where a printed text stands in the merged grid. */
  lemma PrintedIn(x: Context, g: Input, r: nat, o: nat) returns (t: nat, c: nat)
    requires Built(x, g) && r < |g.rows| && x.layout.headerRows <= r
    requires o < |g.rows[r]| && Text.Clean(g.rows[r][o]) != ""
    ensures t < |x.layout.rows| && r == x.layout.headerRows + t && c < x.Columns() && o in x.layout.groups[c]
    ensures x.layout.rows[t][c] == Text.Clean(g.rows[r][o]) && OwnColumn(x.printed[r], x.layout.groups[c]) == o
    ensures Tiles(x.layout.groups, 0, Width(g.rows))
  {
    var n := Width(g.rows);
    t := r - x.layout.headerRows;
    RowBuiltAt(g.rows[x.layout.headerRows..], n, x.layout.groups, x.layout.rows, t);
    c := GroupOf(x.layout.groups, 0, n, o);
    PrintedMerged(g.rows[r], n, x.layout.groups, x.layout.rows[t], c, o);
  }

  lemma PrintedMerged(printed: Row, n: nat, gs: seq<seq<nat>>, row: Row, c: nat, o: nat)
    requires RowBuilt(printed, n, gs, row) && Tiles(gs, 0, n) && c < |gs| && o in gs[c]
    requires o < |printed| && Text.Clean(printed[o]) != ""
    ensures row[c] == Text.Clean(printed[o]) && OwnColumn(printed, gs[c]) == o
  {
    PaddedIsCleaned(printed, n);
    OwnColumnIs(printed, Pad(CleanRow(printed), n), gs, c, o);
  }

  /** A merged cell's text, or that it has none, is what is printed at the place cited for it. */
  lemma TextPrinted(x: Context, g: Input, t: nat, c: nat)
    requires Built(x, g) && t < |x.layout.rows| && c < x.Columns()
    ensures var r := x.layout.headerRows + t;
      r < |g.rows| && PrintedText(g.rows[r], OwnColumn(x.printed[r], x.layout.groups[c])) == x.layout.rows[t][c]
  {
    var n, r := Width(g.rows), x.layout.headerRows + t;
    RowBuiltAt(g.rows[x.layout.headerRows..], n, x.layout.groups, x.layout.rows, t);
    MergedPrinted(g.rows[r], n, x.layout.groups, x.layout.rows[t], c);
  }

  lemma MergedPrinted(printed: Row, n: nat, gs: seq<seq<nat>>, row: Row, c: nat)
    requires RowBuilt(printed, n, gs, row) && c < |gs| && gs[c] != []
    ensures PrintedText(printed, OwnColumn(printed, gs[c])) == row[c]
  {
    PaddedIsCleaned(printed, n);
    MergedIsOwn(printed, Pad(CleanRow(printed), n), gs, c);
  }

  // ------------------------------------------------------------------ the cells

  lemma {:induction false} SlotsAt(x: Context, t: nat, c: nat, d: nat)
    requires x.Valid() && t < |x.layout.rows| && c <= d < x.Columns()
    ensures x.Slots(t, c)[d - c] == x.Slot(t, d)
    decreases d - c
  {
    if c < d { SlotsAt(x, t, c + 1, d); }
  }

  lemma {:induction false} CellRowsAt(x: Context, upTo: nat, t: nat)
    requires x.Valid() && t < upTo <= |x.layout.rows|
    ensures x.CellRows(upTo)[t] == x.CellsOf(t)
    decreases upTo
  {
    if t < upTo - 1 { CellRowsAt(x, upTo - 1, t); }
  }

  /** The cell stems from row t, which is no divider, and from value column c. */
  ghost predicate Stems(x: Context, cell: Cell, t: nat, c: nat)
    requires x.Valid()
  {
    t < |x.layout.rows| && c < x.Columns() && !IsDivider(x.rules, x.layout.rows[t]) && x.Slot(t, c) == Some(cell)
  }

  lemma RowCellStems(x: Context, t: nat, i: nat) returns (c: nat)
    requires x.Valid() && t < |x.layout.rows| && i < |x.CellsOf(t)|
    ensures Stems(x, x.CellsOf(t)[i], t, c)
  {
    c := SomesAt(x.Slots(t, 0), i);
    StemsAt(x, t, c, x.CellsOf(t)[i]);
  }

  lemma StemsAt(x: Context, t: nat, c: nat, cell: Cell)
    requires x.Valid() && t < |x.layout.rows| && !IsDivider(x.rules, x.layout.rows[t])
    requires c < x.Columns() && x.Slots(t, 0)[c] == Some(cell)
    ensures Stems(x, cell, t, c)
  {
    SlotsAt(x, t, 0, c);
  }

  /** Every cell stems from a row that is no divider and from a value column with a value. */
  lemma CellStems(x: Context, k: nat) returns (t: nat, c: nat)
    requires x.Valid() && k < |x.CellsUpTo(|x.layout.rows|)|
    ensures Stems(x, x.CellsUpTo(|x.layout.rows|)[k], t, c)
  {
    var i;
    t, i := FlattenAt(x.CellRows(|x.layout.rows|), k);
    CellRowsAt(x, |x.layout.rows|, t);
    c := RowCellStems(x, t, i);
  }

  /** Every slot that is filled gives a cell. */
  lemma SlotIsCell(x: Context, t: nat, c: nat) returns (k: nat)
    requires x.Valid() && t < |x.layout.rows| && c < x.Columns() && !IsDivider(x.rules, x.layout.rows[t])
    requires x.Slot(t, c).Some?
    ensures k < |x.CellsUpTo(|x.layout.rows|)| && x.CellsUpTo(|x.layout.rows|)[k] == x.Slot(t, c).value
  {
    SlotsAt(x, t, 0, c);
    var i := SomesHas(x.Slots(t, 0), c);
    CellRowsAt(x, |x.layout.rows|, t);
    k := FlattenHas(x.CellRows(|x.layout.rows|), t, i);
  }

  // ------------------------------------------------------------------ reading order

  ghost predicate Before(a: Cell, b: Cell) { a.row < b.row || (a.row == b.row && a.col < b.col) }

  /** The cell cites row t and a column of group c. */
  ghost predicate PlacedAt(x: Context, cell: Cell, t: nat, c: nat) {
    c < |x.layout.groups| && cell.row == x.layout.headerRows + t && cell.col in x.layout.groups[c]
  }

  lemma StemsPlaced(x: Context, cell: Cell, t: nat, c: nat)
    requires x.Valid() && Stems(x, cell, t, c)
    ensures PlacedAt(x, cell, t, c)
  {
    OwnInGroup(x.printed[x.layout.headerRows + t], x.layout.groups[c]);
  }

  /** A cell of an earlier place comes before. */
  lemma PlacesOrdered(x: Context, n: nat, a: Cell, t: nat, c: nat, b: Cell, u: nat, d: nat)
    requires Tiles(x.layout.groups, 0, n) && PlacedAt(x, a, t, c) && PlacedAt(x, b, u, d)
    requires t < u || (t == u && c < d)
    ensures Before(a, b)
  {
    if t == u { GroupsOrdered(x.layout.groups, 0, n, c, d, a.col, b.col); }
  }

  lemma RowCellsPlaced(x: Context, t: nat, i: nat, j: nat) returns (c: nat, d: nat)
    requires x.Valid() && t < |x.layout.rows| && i < j < |x.CellsOf(t)|
    ensures c < d && PlacedAt(x, x.CellsOf(t)[i], t, c) && PlacedAt(x, x.CellsOf(t)[j], t, d)
  {
    c, d := SomesOrder(x.Slots(t, 0), i, j);
    SlotPlaced(x, t, c, x.CellsOf(t)[i]);
    SlotPlaced(x, t, d, x.CellsOf(t)[j]);
  }

  lemma SlotPlaced(x: Context, t: nat, c: nat, cell: Cell)
    requires x.Valid() && t < |x.layout.rows| && c < x.Columns() && x.Slots(t, 0)[c] == Some(cell)
    requires !IsDivider(x.rules, x.layout.rows[t])
    ensures PlacedAt(x, cell, t, c)
  {
    StemsAt(x, t, c, cell);
    StemsPlaced(x, cell, t, c);
  }

  lemma RowOrdered(x: Context, n: nat, t: nat, i: nat, j: nat)
    requires x.Valid() && Tiles(x.layout.groups, 0, n) && t < |x.layout.rows| && i < j < |x.CellsOf(t)|
    ensures Before(x.CellsOf(t)[i], x.CellsOf(t)[j])
  {
    var c, d := RowCellsPlaced(x, t, i, j);
    PlacesOrdered(x, n, x.CellsOf(t)[i], t, c, x.CellsOf(t)[j], t, d);
  }

  /** Cells come in reading order, so no two of them cite the same place. */
  lemma CellsOrdered(x: Context, n: nat, a: nat, b: nat)
    requires x.Valid() && Tiles(x.layout.groups, 0, n) && a < b < |x.CellsUpTo(|x.layout.rows|)|
    ensures Before(x.CellsUpTo(|x.layout.rows|)[a], x.CellsUpTo(|x.layout.rows|)[b])
  {
    var t, i, u, j := FlattenOrder(x.CellRows(|x.layout.rows|), a, b);
    CellRowsAt(x, |x.layout.rows|, t);
    CellRowsAt(x, |x.layout.rows|, u);
    if t == u {
      RowOrdered(x, n, t, i, j);
    } else {
      var c := RowCellStems(x, t, i);
      var d := RowCellStems(x, u, j);
      StemsPlaced(x, x.CellsOf(t)[i], t, c);
      StemsPlaced(x, x.CellsOf(u)[j], u, d);
      PlacesOrdered(x, n, x.CellsOf(t)[i], t, c, x.CellsOf(u)[j], u, d);
    }
  }

  // ------------------------------------------------------------------ the theorems

  /** The cells that AnalyseGrid emits. */
  function CellsOfGrid(rules: Rules, g: Input, previous: Option<GridRecord>): seq<Cell> {
    var x := ContextOf(rules, g, previous);
    x.CellsUpTo(|x.layout.rows|)
  }

  /** No two cells of a grid cite the same place, and they come in reading order. */
  lemma PlacesAreUnique(rules: Rules, g: Input, previous: Option<GridRecord>, a: nat, b: nat)
    requires a < b < |CellsOfGrid(rules, g, previous)|
    ensures Before(CellsOfGrid(rules, g, previous)[a], CellsOfGrid(rules, g, previous)[b])
  {
    ContextIs(rules, g, previous);
    CellsOrdered(ContextOf(rules, g, previous), Width(g.rows), a, b);
  }

  /** A cell holds the merged text of its row and group, or that is empty and the cell is flagged as carried down. */
  lemma OwnCell(x: Context, k: nat, cell: Cell) returns (t: nat, c: nat)
    requires x.Valid() && k < |x.CellsUpTo(|x.layout.rows|)| && x.CellsUpTo(|x.layout.rows|)[k] == cell
    ensures t < |x.layout.rows| && c < x.Columns() && cell.raw != ""
    ensures cell.raw == x.layout.rows[t][c] || (x.layout.rows[t][c] == "" && cell.flags.merged)
    ensures cell.row == x.layout.headerRows + t && cell.col == OwnColumn(x.printed[cell.row], x.layout.groups[c])
  {
    t, c := CellStems(x, k);
    ValueStep(x, c, t);
  }

  /** Every cell holds exactly the cleaned text printed at the place it cites, or nothing is printed there
      and the cell is flagged as carried down. */
  lemma CitationIsTrue(rules: Rules, g: Input, previous: Option<GridRecord>, k: nat)
    requires k < |CellsOfGrid(rules, g, previous)|
    ensures var cell := CellsOfGrid(rules, g, previous)[k];
      && cell.row < |g.rows| && cell.raw != ""
      && (PrintedText(g.rows[cell.row], cell.col) == cell.raw
        || (PrintedText(g.rows[cell.row], cell.col) == "" && cell.flags.merged))
  {
    ContextIs(rules, g, previous);
    CitationOf(ContextOf(rules, g, previous), g, k, CellsOfGrid(rules, g, previous)[k]);
  }

  lemma CitationOf(x: Context, g: Input, k: nat, cell: Cell)
    requires Built(x, g) && k < |x.CellsUpTo(|x.layout.rows|)| && x.CellsUpTo(|x.layout.rows|)[k] == cell
    ensures cell.row < |g.rows| && cell.raw != ""
    ensures PrintedText(g.rows[cell.row], cell.col) == cell.raw
      || (PrintedText(g.rows[cell.row], cell.col) == "" && cell.flags.merged)
  {
    var t, c := OwnCell(x, k, cell);
    TextPrinted(x, g, t, c);
  }

  /** The place of a printed text: in a divider row, in a label or unit column, or in a value column. */
  datatype Place = InDivider | InLabel | InUnit | CitedBy(k: nat)

  /** The text of row t and column c of the merged grid, printed at the reader's column o, is at
      this place: it names a level, is a label or a row unit, or is cited by exactly one cell. */
  ghost predicate IsPlace(x: Context, t: nat, c: nat, o: nat, text: string, place: Place)
    requires x.Valid() && t < |x.layout.rows|
  {
    var cells, r := x.CellsUpTo(|x.layout.rows|), x.layout.headerRows + t;
    match place
    case InDivider => IsDivider(x.rules, x.layout.rows[t])
    case InLabel => c in x.layout.labels
    case InUnit => x.layout.unit == Some(c)
    case CitedBy(k) =>
      && k < |cells| && cells[k].row == r && cells[k].col == o && cells[k].raw == text
      && forall i :: 0 <= i < |cells| && cells[i].row == r && cells[i].col == o ==> i == k
  }

  /** What becomes of the merged text in row t and column c. */
  lemma PlaceOf(x: Context, n: nat, t: nat, c: nat, o: nat, text: string) returns (place: Place)
    requires x.Valid() && Tiles(x.layout.groups, 0, n) && t < |x.layout.rows| && c < x.Columns()
    requires x.layout.rows[t][c] == text != "" && OwnColumn(x.printed[x.layout.headerRows + t], x.layout.groups[c]) == o
    ensures IsPlace(x, t, c, o, text, place)
  {
    if IsDivider(x.rules, x.layout.rows[t]) {
      place := InDivider;
    } else if c in x.layout.labels {
      place := InLabel;
    } else if x.layout.unit == Some(c) {
      place := InUnit;
    } else {
      var k := CitingCell(x, t, c);
      place := CitedBy(k);
      CitedOnce(x, n, k);
    }
  }

  /** Every text printed below the header is accounted for, by its reader's row and column. */
  lemma NoCellIsLost(rules: Rules, g: Input, previous: Option<GridRecord>, r: nat, o: nat)
    returns (t: nat, c: nat, place: Place)
    requires r < |g.rows| && ContextOf(rules, g, previous).layout.headerRows <= r
    requires o < |g.rows[r]| && Text.Clean(g.rows[r][o]) != ""
    ensures var x := ContextOf(rules, g, previous);
      && t < |x.layout.rows| && r == x.layout.headerRows + t && c < |x.layout.groups| && o in x.layout.groups[c]
      && IsPlace(x, t, c, o, Text.Clean(g.rows[r][o]), place)
  {
    ContextIs(rules, g, previous);
    t, c, place := Accounted(ContextOf(rules, g, previous), g, r, o);
  }

  lemma Accounted(x: Context, g: Input, r: nat, o: nat) returns (t: nat, c: nat, place: Place)
    requires Built(x, g) && r < |g.rows| && x.layout.headerRows <= r
    requires o < |g.rows[r]| && Text.Clean(g.rows[r][o]) != ""
    ensures t < |x.layout.rows| && r == x.layout.headerRows + t && c < |x.layout.groups| && o in x.layout.groups[c]
    ensures IsPlace(x, t, c, o, Text.Clean(g.rows[r][o]), place)
  {
    t, c := PrintedIn(x, g, r, o);
    place := PlaceOf(x, Width(g.rows), t, c, o, Text.Clean(g.rows[r][o]));
  }

  /** No other cell cites the place of cell k. */
  lemma CitedOnce(x: Context, n: nat, k: nat)
    requires x.Valid() && Tiles(x.layout.groups, 0, n) && k < |x.CellsUpTo(|x.layout.rows|)|
    ensures var cells := x.CellsUpTo(|x.layout.rows|);
      forall i :: 0 <= i < |cells| && cells[i].row == cells[k].row && cells[i].col == cells[k].col ==> i == k
  {
    var cells := x.CellsUpTo(|x.layout.rows|);
    forall i | 0 <= i < |cells| && cells[i].row == cells[k].row && cells[i].col == cells[k].col ensures i == k {
      if i < k { CellsOrdered(x, n, i, k); }
      if k < i { CellsOrdered(x, n, k, i); }
    }
  }

  /** A value column with its own text in a row gives a cell with that text. */
  lemma CitingCell(x: Context, t: nat, c: nat) returns (k: nat)
    requires x.Valid() && t < |x.layout.rows| && !IsDivider(x.rules, x.layout.rows[t])
    requires c < x.Columns() && x.IsValue(c) && x.layout.rows[t][c] != ""
    ensures var cells := x.CellsUpTo(|x.layout.rows|); var r := x.layout.headerRows + t;
      && k < |cells| && cells[k].row == r && cells[k].raw == x.layout.rows[t][c]
      && cells[k].col == OwnColumn(x.printed[r], x.layout.groups[c])
  {
    ValueStep(x, c, t);
    k := SlotIsCell(x, t, c);
  }

  /** In a grid that is no continuation nothing is handed over: a label or value that is not
      empty was printed in this grid. */
  lemma FreshStartsEmpty(rules: Rules, g: Input, previous: Option<GridRecord>, j: nat, c: nat)
    requires ContinuingOf(g, previous) == Fresh
    ensures var x := ContextOf(rules, g, previous);
      (j < |x.layout.labels| ==> x.labels0[j] == "") && c !in x.values0
  {
    StartLabelsEmpty(|ContextOf(rules, g, previous).layout.labels|, j);
  }

  lemma {:induction false} StartLabelsEmpty(k: nat, j: nat)
    ensures j < k ==> StartLabels([], k)[j] == ""
    decreases k
  {
    if 0 < j < k { StartLabelsEmpty(k - 1, j - 1); }
  }
}
