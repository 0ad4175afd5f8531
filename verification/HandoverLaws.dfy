/** To which columns a continuation is handed the values of the last row of the grid before it. */
module HandoverLaws {
  import opened Basics
  import opened Readers
  import opened GridColumns
  import opened GridIntegrity
  import opened GridCitations
  import opened GridLaws
  import Text

  // ------------------------------------------------------------------ where the values go

  /** The record of a grid, as far as the grid after it looks at it. */
  ghost predicate RecordOf(rules: Rules, g: Input, before: Option<GridRecord>, record: GridRecord) {
    && record.page == g.page && record.headerPaths == LayoutOf(rules, g, before).paths
    && record.cells == CellsOfGrid(rules, g, before)
  }

  /** Cell k is in the last row and in merged column c. */
  ghost predicate LastIn(groups: seq<seq<nat>>, cells: seq<Cell>, k: nat, c: nat) {
    InLastRow(cells, k) && c < |groups| && cells[k].col in groups[c]
  }

  ghost predicate HasLast(groups: seq<seq<nat>>, cells: seq<Cell>, c: nat)
  {
    exists k: nat :: LastIn(groups, cells, k, c)
  }

  /** A column is handed a value exactly when it had a cell in the last row, and it is the value of that cell. */
  ghost predicate HandedRight(handed: map<nat, string>, groups: seq<seq<nat>>, cells: seq<Cell>) {
    && (forall c: nat :: c in handed <==> HasLast(groups, cells, c))
    && forall k: nat, c: nat :: LastIn(groups, cells, k, c) ==> c in handed && handed[c] == cells[k].raw
  }

  /** Each cell of the last row cites the reader column whose number its merged column has. */
  ghost predicate CitesOwn(groups: seq<seq<nat>>, cells: seq<Cell>) {
    forall k: nat, c: nat :: LastIn(groups, cells, k, c) ==> cells[k].col == c
  }

  /** No merged column stands right of the reader columns it holds. */
  lemma {:induction false} GroupAtLeast(gs: seq<seq<nat>>, lo: nat, n: nat, c: nat, o: nat)
    requires Tiles(gs, lo, n) && c < |gs| && o in gs[c]
    ensures lo + c <= o < n
    decreases c
  {
    if c == 0 {
      var k :| 0 <= k < |gs[0]| && gs[0][k] == o;
      RangeAt(lo, lo + |gs[0]|, k);
    } else {
      assert gs[1..][c - 1] == gs[c];
      GroupAtLeast(gs[1..], lo + |gs[0]|, n, c - 1, o);
    }
  }

  lemma OneGroup(gs: seq<seq<nat>>, n: nat, c: nat, d: nat, o: nat)
    requires Tiles(gs, 0, n) && c < |gs| && d < |gs| && o in gs[c] && o in gs[d]
    ensures c == d
  {
    if c < d { GroupsOrdered(gs, 0, n, c, d, o, o); } else if d < c { GroupsOrdered(gs, 0, n, d, c, o, o); }
  }

  /** A cell of the last row cites column c and has this text. */
  ghost predicate LastCites(cells: seq<Cell>, c: nat, text: string) {
    exists k: nat :: InLastRow(cells, k) && cells[k].col == c && cells[k].raw == text
  }

  /** The values are handed to the columns that the cells of the last row cite. */
  ghost predicate HandedAsCited(handed: map<nat, string>, cells: seq<Cell>) {
    && (forall k: nat :: InLastRow(cells, k) ==> cells[k].col in handed)
    && forall c: nat :: c in handed ==> LastCites(cells, c, handed[c])
  }

  lemma ValuesAsCited(rules: Rules, g: Input, record: GridRecord)
    requires ContinuingOf(g, Some(record)) != Fresh
    ensures HandedAsCited(ContextOf(rules, g, Some(record)).values0, record.cells)
  {
    var handed, cells := ContextOf(rules, g, Some(record)).values0, record.cells;
    if cells != [] {
      forall k: nat | InLastRow(cells, k) ensures cells[k].col in handed {
        var i := HandedOver(rules, g, Some(record), 0, cells[k].col);
        assert cells[k] in cells && cells[k].row == cells[i].row;
      }
      forall c: nat | c in handed ensures LastCites(cells, c, handed[c]) {
        var i := HandedOver(rules, g, Some(record), 0, c);
        var cell :| cell in cells && cell.row == cells[i].row && cell.col == c && handed[c] == cell.raw;
        var k :| 0 <= k < |cells| && cells[k] == cell;
        assert InLastRow(cells, k);
      }
    } else {
      forall c: nat ensures c !in handed { StartValuesHave([], c); }
    }
  }

  ghost predicate Grouped(groups: seq<seq<nat>>, o: nat) { exists c :: 0 <= c < |groups| && o in groups[c] }

  /** Each cell is in one merged column, and no two cells of a row cite one column. */
  ghost predicate WellPlaced(groups: seq<seq<nat>>, n: nat, cells: seq<Cell>) {
    && Tiles(groups, 0, n)
    && (forall k :: 0 <= k < |cells| ==> Grouped(groups, cells[k].col))
    && forall i, k :: 0 <= i < k < |cells| ==> cells[i].row != cells[k].row || cells[i].col != cells[k].col
  }

  lemma CellsPlaced(rules: Rules, g: Input, before: Option<GridRecord>, record: GridRecord)
    requires RecordOf(rules, g, before, record)
    ensures WellPlaced(MergedGrid(g).1, Width(g.rows), record.cells)
  {
    var groups, cells := MergedGrid(g).1, record.cells;
    GridTiles(g);
    forall k | 0 <= k < |cells| ensures Grouped(groups, cells[k].col) { var t, c := CellStands(rules, g, before, k); }
    forall i, k | 0 <= i < k < |cells| ensures cells[i].row != cells[k].row || cells[i].col != cells[k].col {
      PlacesAreUnique(rules, g, before, i, k);
    }
  }

  /** A cell of the last row in the merged column that has the number of the column that cell k cites. */
  ghost function Next(groups: seq<seq<nat>>, cells: seq<Cell>, k: nat): nat
    requires k < |cells|
  {
    if HasLast(groups, cells, cells[k].col) then var j: nat :| LastIn(groups, cells, j, cells[k].col); j else 0
  }

  ghost predicate Leads(groups: seq<seq<nat>>, cells: seq<Cell>) {
    forall k: nat {:trigger Next(groups, cells, k)} :: InLastRow(cells, k) ==>
      LastIn(groups, cells, Next(groups, cells, k), cells[k].col)
  }

  lemma RightLeads(groups: seq<seq<nat>>, cells: seq<Cell>, handed: map<nat, string>)
    requires HandedAsCited(handed, cells) && HandedRight(handed, groups, cells)
    ensures Leads(groups, cells)
  {
    forall k: nat | InLastRow(cells, k) ensures LastIn(groups, cells, Next(groups, cells, k), cells[k].col) {
      assert cells[k].col in handed;
      assert HasLast(groups, cells, cells[k].col);
    }
  }

  /** A cell that cites a column right of its own leads to another one further right, and so on: there is none. */
  lemma {:induction false} NoneAstray(groups: seq<seq<nat>>, n: nat, cells: seq<Cell>, k: nat, c: nat)
    requires Tiles(groups, 0, n) && Leads(groups, cells) && LastIn(groups, cells, k, c)
    ensures cells[k].col == c
    decreases n - cells[k].col
  {
    var o := cells[k].col;
    GroupAtLeast(groups, 0, n, c, o);
    if o != c {
      var j := Next(groups, cells, k);
      GroupAtLeast(groups, 0, n, o, cells[j].col);
      if cells[j].col > o { NoneAstray(groups, n, cells, j, o); }
      OneGroup(groups, n, c, o, o);
    }
  }

  lemma OwnIsRight(groups: seq<seq<nat>>, n: nat, cells: seq<Cell>, handed: map<nat, string>)
    requires WellPlaced(groups, n, cells) && HandedAsCited(handed, cells) && CitesOwn(groups, cells)
    ensures HandedRight(handed, groups, cells)
  {
    forall c: nat | c in handed ensures HasLast(groups, cells, c) {
      var k: nat :| InLastRow(cells, k) && cells[k].col == c && cells[k].raw == handed[c];
      var d :| 0 <= d < |groups| && cells[k].col in groups[d];
      assert LastIn(groups, cells, k, d);
    }
    forall k: nat, c: nat | LastIn(groups, cells, k, c) ensures c in handed && handed[c] == cells[k].raw {
      var j: nat :| InLastRow(cells, j) && cells[j].col == c && cells[j].raw == handed[c];
    }
  }

  /** A continuation is handed each value of the last row of the grid before it in the value's own column exactly
      when each cell of that row cites the reader column whose number its merged column has. */
  lemma HandedToOwnColumn(rules: Rules, g0: Input, before: Option<GridRecord>, record: GridRecord, g: Input)
    requires RecordOf(rules, g0, before, record) && ContinuingOf(g, Some(record)) != Fresh
    ensures HandedRight(ContextOf(rules, g, Some(record)).values0, MergedGrid(g0).1, record.cells)
      <==> CitesOwn(MergedGrid(g0).1, record.cells)
  {
    var handed, groups, cells := ContextOf(rules, g, Some(record)).values0, MergedGrid(g0).1, record.cells;
    ValuesAsCited(rules, g, record);
    CellsPlaced(rules, g0, before, record);
    if HandedRight(handed, groups, cells) {
      RightLeads(groups, cells, handed);
      forall k: nat, c: nat | LastIn(groups, cells, k, c) ensures cells[k].col == c {
        NoneAstray(groups, Width(g0.rows), cells, k, c);
      }
    }
    if CitesOwn(groups, cells) { OwnIsRight(groups, Width(g0.rows), cells, handed); }
  }

  // ------------------------------------------------------------------ a value in the next column

  function Never(): string -> bool { (s: string) => false }

  function Always(): string -> bool { (s: string) => true }

  function Same(): string -> string { (s: string) => s }

  /** Every text is a figure. */
  const FIGURES := Rules(Never(), Same(), Never(), Always(), Never())

  /** The heading A and the figure under it stand in two sub-columns. */
  const SPLIT := Input(0, 0, [["A", "", "B"], ["", "1", "2"]], 1)

  /** The next page goes on with a row that prints nothing. */
  const GOES_ON := Input(1, 0, [["", ""]], 0)

  const MERGED := [["A", "B"], ["1", "2"]]

  lemma CleanLetters()
    ensures Text.Clean("") == "" && Text.Clean("A") == "A" && Text.Clean("B") == "B"
    ensures Text.Clean("1") == "1" && Text.Clean("2") == "2"
  {
    Text.CleanFixed("");
    Text.CleanFixed("A");
    Text.CleanFixed("B");
    Text.CleanFixed("1");
    Text.CleanFixed("2");
  }

  lemma AlreadyClean(rows: seq<Row>, w: nat)
    requires rows != [] && Rectangular(rows, w)
    requires forall i, k :: 0 <= i < |rows| && 0 <= k < w ==> Text.Clean(rows[i][k]) == rows[i][k]
    ensures Width(rows) == w && CleanRows(rows, w) == rows
  {
    WidthRectangular(rows, w);
    forall i | 0 <= i < |rows| ensures Pad(CleanRow(rows[i]), w) == rows[i] {
      forall k | 0 <= k < w ensures CleanRow(rows[i])[k] == rows[i][k] {}
    }
  }

  lemma SplitCleaned()
    ensures Width(SPLIT.rows) == 3 && CleanRows(SPLIT.rows, 3) == SPLIT.rows
  {
    CleanLetters();
    AlreadyClean(SPLIT.rows, 3);
  }

  lemma SplitGroups()
    ensures GroupsFrom(SPLIT.rows, 3, 1, 0) == [[0, 1], [2]]
  {
    var rows := SPLIT.rows;
    assert !Clash(rows, 3, 0, 1) && Clash(rows, 3, 0, 2);
    assert GroupEnd(rows, 3, 0, 1) == 2 && GroupEnd(rows, 3, 2, 3) == 3;
    assert Qualifies(rows, 3, 1, 0, 2) && !Qualifies(rows, 3, 1, 2, 3);
    assert GroupsFrom(rows, 3, 1, 3) == [] && GroupsFrom(rows, 3, 1, 2) == [[2]];
    assert Range(0, 2) == [0, 1];
  }

  lemma PairAndOne(row: Row)
    requires |row| == 3
    ensures AllUnder([[0, 1], [2]], 3)
    ensures MergedRow(row, [[0, 1], [2]]) == [if row[0] != "" then row[0] else row[1], row[2]]
  {
    PairText(row);
    assert [[0, 1], [2]][1..] == [[2]] && [[2]][1..] == [] && MergedRow(row, []) == [];
    assert MergedRow(row, [[2]]) == [row[2]];
  }

  lemma PairText(row: Row)
    requires |row| == 3
    ensures Below([0, 1], 3) && FirstText(row, [0, 1]) == if row[0] != "" then row[0] else row[1]
    ensures Below([2], 3) && FirstText(row, [2]) == row[2]
  {
    assert Below([], 3) && FirstText(row, []) == "";
    assert [1][1..] == [] && [2][1..] == [] && [0, 1][1..] == [1];
    assert Below([1], 3) && FirstText(row, [1]) == row[1];
  }

  lemma SplitMerged()
    ensures MergedGrid(SPLIT) == (MERGED, [[0, 1], [2]])
  {
    SplitCleaned();
    SplitGroups();
    PairAndOne(SPLIT.rows[0]);
    PairAndOne(SPLIT.rows[1]);
    var rows, gs := SPLIT.rows, [[0, 1], [2]];
    assert rows[1..] == [rows[1]] && rows[1..][1..] == [];
    assert Merged(rows[1..], 3, gs) == [["1", "2"]];
    assert Merged(rows, 3, gs) == MERGED;
    CleanRectangular(rows);
  }

  lemma GoesOnMerged()
    ensures MergedGrid(GOES_ON) == (GOES_ON.rows, [[0], [1]])
  {
    CleanLetters();
    AlreadyClean(GOES_ON.rows, 2);
    var rows := GOES_ON.rows;
    assert !Clash(rows, 2, 0, 1) && GroupEnd(rows, 2, 0, 1) == 2;
    assert GroupsFrom(rows, 2, 0, 2) == [] && !Qualifies(rows, 2, 0, 0, 2) && Singles(0, 2) == [[0], [1]];
    assert GroupsFrom(rows, 2, 0, 0) == [[0], [1]] + [] == [[0], [1]];
    CleanRectangular(rows);
  }

  // the first grid

  lemma MergedPaths()
    ensures AllPaths(MERGED, 2, 1) == [["A"], ["B"]]
  {
    assert PathOf(MERGED, 2, 0, 0) == [] && PathOf(MERGED, 2, 0, 1) == [];
    assert PathOf(MERGED, 2, 1, 0) == ["A"] && PathOf(MERGED, 2, 1, 1) == ["B"];
  }

  lemma NoUnit(paths: seq<seq<string>>)
    requires paths == [["A"], ["B"]]
    ensures UnitColumn(FIGURES, paths, 0) == None
  {
    assert !NamesUnit(FIGURES, []) && ["A"][1..] == [] && ["B"][1..] == [];
    assert UnitColumn(FIGURES, paths, 2) == None && UnitColumn(FIGURES, paths, 1) == None;
  }

  lemma CountsInRow(row: Row, c: nat)
    requires |row| == 2 && c < 2
    ensures Filled([row], 2, c) == Figures(FIGURES, [row], 2, c) == if row[c] != "" then 1 else 0
  {
    var rest := [row][1..];
    assert rest == [];
    assert Filled(rest, 2, c) == 0 && Figures(FIGURES, rest, 2, c) == 0;
    assert FIGURES.isFigure(row[c]);
  }

  lemma NoLabels(rows: seq<Row>)
    requires rows == [["1", "2"]]
    ensures LabelColumns(FIGURES, rows, 2, None, 0) == []
  {
    CountsInRow(["1", "2"], 0);
    CountsInRow(["1", "2"], 1);
    assert LabelColumns(FIGURES, rows, 2, None, 2) == [] && LabelColumns(FIGURES, rows, 2, None, 1) == [];
  }

  /** What is known of the analysis of the first grid. */
  ghost predicate IsSplit(x: Context) {
    && x.Valid() && x.rules == FIGURES && x.printed == SPLIT.rows
    && x.layout.rows == [["1", "2"]] && x.layout.groups == [[0, 1], [2]] && x.layout.paths == [["A"], ["B"]]
    && x.layout.headerRows == 1 && x.layout.labels == [] && x.layout.unit == None
  }

  lemma SplitIs()
    ensures IsSplit(ContextOf(FIGURES, SPLIT, None))
  {
    SplitMerged();
    LayoutIs(FIGURES, SPLIT, None);
    MergedPaths();
    assert MERGED[1..] == [["1", "2"]];
    NoUnit([["A"], ["B"]]);
    NoLabels([["1", "2"]]);
  }

  /** The value of column c in the only row. */
  lemma SplitValue(x: Context, c: nat)
    requires IsSplit(x) && c < 2
    ensures x.Value(c, 1) == ["1", "2"][c] && !IsDivider(x.rules, x.layout.rows[0])
  {
    assert LastText(FIGURES, x.layout.rows, 2, c, 1) == 0;
  }

  lemma SplitOwn()
    ensures OwnColumn(SPLIT.rows[1], [0, 1]) == 1 && OwnColumn(SPLIT.rows[1], [2]) == 2
  {
    CleanLetters();
    assert [0, 1][1..] == [1];
  }

  lemma SplitCell(x: Context, c: nat) returns (k: nat)
    requires IsSplit(x) && c < 2
    ensures var cells := x.CellsUpTo(1);
      && k < |cells| && cells[k].row == 1 && cells[k].col == c + 1
      && cells[k].raw == ["1", "2"][c] && cells[k].headerPath == [["A"], ["B"]][c]
  {
    SplitValue(x, c);
    SplitOwn();
    k := SlotIsCell(x, 0, c);
  }

  lemma SplitRow(x: Context, k: nat)
    requires IsSplit(x) && k < |x.CellsUpTo(1)|
    ensures x.CellsUpTo(1)[k].row == 1
  {
    var t, c := CellStems(x, k);
    StemsPlaced(x, x.CellsUpTo(1)[k], t, c);
  }

  // the second grid

  lemma OneLabel(rows: seq<Row>)
    requires rows == [["", ""]]
    ensures LabelColumns(FIGURES, rows, 2, None, 0) == [0]
  {
    CountsInRow(["", ""], 0);
    CountsInRow(["", ""], 1);
    assert LabelColumns(FIGURES, rows, 2, None, 2) == [] && LabelColumns(FIGURES, rows, 2, None, 1) == [];
  }

  /** What is known of the analysis of the second grid. */
  ghost predicate IsGoesOn(x: Context) {
    && x.Valid() && x.rules == FIGURES && x.layout.rows == [["", ""]] && x.Columns() == 2
    && x.layout.paths == [["A"], ["B"]] && x.layout.labels == [0] && x.layout.unit == None
  }

  lemma GoesOn(record: GridRecord)
    requires record.page == 0 && |record.headerPaths| == 2
    ensures ContinuingOf(GOES_ON, Some(record)) == TakesHeader
  {
    GoesOnMerged();
  }

  lemma GoesOnIs(record: GridRecord)
    requires record.page == 0 && record.headerPaths == [["A"], ["B"]]
    ensures IsGoesOn(ContextOf(FIGURES, GOES_ON, Some(record)))
  {
    GoesOn(record);
    GoesOnMerged();
    LayoutIs(FIGURES, GOES_ON, Some(record));
    NoUnit([["A"], ["B"]]);
    OneLabel([["", ""]]);
  }

  lemma HandedToB(handed: map<nat, string>, cells: seq<Cell>, groups: seq<seq<nat>>, n: nat, i: nat)
    requires HandedAsCited(handed, cells) && WellPlaced(groups, n, cells)
    requires i < |cells| && cells[i].col == 1 && forall k :: 0 <= k < |cells| ==> cells[k].row == 1
    ensures 1 in handed && handed[1] == cells[i].raw
  {
    assert InLastRow(cells, i);
    var j: nat :| InLastRow(cells, j) && cells[j].col == 1 && cells[j].raw == handed[1];
  }

  lemma SpansIntoB(x: Context) returns (j: nat)
    requires IsGoesOn(x) && 1 in x.values0 && x.values0[1] != ""
    ensures j < |x.CellsUpTo(1)| && x.CellsUpTo(1)[j].raw == x.values0[1] && x.CellsUpTo(1)[j].headerPath == ["B"]
  {
    assert TextsFrom(["", ""], 2) == [] && TextsFrom(["", ""], 1) == [] && TextsFrom(["", ""], 0) == [];
    assert LastText(FIGURES, x.layout.rows, 2, 1, 1) == -1 && LastLabelled(FIGURES, x.layout.rows, 2, [0], 1) == -1;
    j := SlotIsCell(x, 0, 1);
  }

  lemma Astray(x: Context, y: Context, groups: seq<seq<nat>>, n: nat) returns (i: nat, j: nat)
    requires IsSplit(x) && IsGoesOn(y) && HandedAsCited(y.values0, x.CellsUpTo(1))
    requires WellPlaced(groups, n, x.CellsUpTo(1))
    ensures i < |x.CellsUpTo(1)| && x.CellsUpTo(1)[i].raw == "1" && x.CellsUpTo(1)[i].headerPath == ["A"]
    ensures j < |y.CellsUpTo(1)| && y.CellsUpTo(1)[j].raw == "1" && y.CellsUpTo(1)[j].headerPath == ["B"]
  {
    var cells := x.CellsUpTo(1);
    i := SplitCell(x, 0);
    forall k | 0 <= k < |cells| ensures cells[k].row == 1 { SplitRow(x, k); }
    HandedToB(y.values0, cells, groups, n, i);
    j := SpansIntoB(y);
  }

  /** Finding: on the next page the value that stood under A, cited in the second of A's two sub-columns, spans
      into column B. */
  lemma ValueGoesAstray(record: GridRecord) returns (i: nat, j: nat)
    requires RecordOf(FIGURES, SPLIT, None, record)
    ensures ContinuingOf(GOES_ON, Some(record)) == TakesHeader
    ensures i < |record.cells| && record.cells[i].raw == "1" && record.cells[i].headerPath == ["A"]
    ensures var cells := CellsOfGrid(FIGURES, GOES_ON, Some(record));
      j < |cells| && cells[j].raw == "1" && cells[j].headerPath == ["B"]
  {
    SplitIs();
    CellsPlaced(FIGURES, SPLIT, None, record);
    GoesOn(record);
    GoesOnIs(record);
    ValuesAsCited(FIGURES, GOES_ON, record);
    i, j := Astray(ContextOf(FIGURES, SPLIT, None), ContextOf(FIGURES, GOES_ON, Some(record)), MergedGrid(SPLIT).1,
      Width(SPLIT.rows));
  }
}
