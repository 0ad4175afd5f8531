/** From a reader's grid to cited cells: labels and spanning values carried down, every cell
    with its header path, its row path and the reader's own row and column. */
module GridIntegrity {
  import opened Basics
  import opened Readers
  import opened GridColumns
  import Text

  // ------------------------------------------------------------------ entities

  /** What the text rules say of a piece of text. */
  datatype Rules = Rules(
    isDivider: string -> bool,
    dividerText: string -> string,
    namesUnit: string -> bool,
    isFigure: string -> bool,
    unreadable: string -> bool)

  datatype Input = Input(page: int, ordinal: int, rows: seq<Row>, headerRows: nat)

  /** Which of its flags a cell carries. */
  datatype Flags = Flags(
    merged: bool,
    unresolvedRow: bool,
    headerInherited: bool,
    headerSpan: bool,
    unresolvedHeader: bool,
    unparsed: bool)

  datatype Cell = Cell(row: nat, col: nat, raw: string, headerPath: seq<string>, rowPath: seq<string>, flags: Flags)

  datatype GridFlag = SplitColumnsMerged | InheritedHeader | RepeatedHeader | NoHeaderRow

  datatype GridRecord = GridRecord(
    page: int,
    ordinal: int,
    headerPaths: seq<seq<string>>,
    labelColumns: seq<nat>,
    unitColumn: Option<nat>,
    continuationOf: Option<(int, int)>,
    headerInherited: bool,
    cells: seq<Cell>,
    flags: set<GridFlag>)

  // ------------------------------------------------------------------ the layout of a grid

  /** The data rows with merged columns, and what each column is. */
  datatype Layout = Layout(
    rows: seq<Row>,
    headerRows: nat,
    groups: seq<seq<nat>>,
    paths: seq<seq<string>>,
    spans: seq<bool>,
    inherited: bool,
    labels: seq<nat>,
    unit: Option<nat>)

  function LastOr(path: seq<string>): string { if path == [] then "" else path[|path| - 1] }

  function LastHeadings(paths: seq<seq<string>>): (r: seq<string>)
    ensures |r| == |paths|
  {
    if paths == [] then [] else [LastOr(paths[0])] + LastHeadings(paths[1..])
  }

  predicate NoHeading(paths: seq<seq<string>>) { paths == [] || (LastOr(paths[0]) == "" && NoHeading(paths[1..])) }

  datatype Continuing = Fresh | TakesHeader | RepeatsHeader

  /** How a grid continues the one before it. */
  function Continues(g: Input, paths: seq<seq<string>>, previous: Option<GridRecord>): Continuing {
    match previous
    case None => Fresh
    case Some(p) =>
      if p.page != g.page - 1 || |p.headerPaths| != |paths| then Fresh
      else if g.headerRows == 0 || NoHeading(paths) then TakesHeader
      else if LastHeadings(paths) == LastHeadings(p.headerPaths) then RepeatsHeader
      else Fresh
  }

  predicate NamesUnit(rules: Rules, path: seq<string>) {
    path != [] && (rules.namesUnit(path[0]) || NamesUnit(rules, path[1..]))
  }

  /** The first column from c on whose header names a billing unit. */
  function UnitColumn(rules: Rules, paths: seq<seq<string>>, c: nat): (u: Option<nat>)
    ensures u.Some? ==> c <= u.value < |paths|
    decreases |paths| - c
  {
    if c >= |paths| then None
    else if NamesUnit(rules, paths[c]) then Some(c) else UnitColumn(rules, paths, c + 1)
  }

  /** How many cells of a column hold text, and how many of these a figure. */
  function Filled(rows: seq<Row>, n: nat, c: nat): nat
    requires Rectangular(rows, n) && c < n
  {
    if rows == [] then 0 else (if rows[0][c] != "" then 1 else 0) + Filled(rows[1..], n, c)
  }

  function Figures(rules: Rules, rows: seq<Row>, n: nat, c: nat): nat
    requires Rectangular(rows, n) && c < n
  {
    if rows == [] then 0
    else (if rows[0][c] != "" && rules.isFigure(rows[0][c]) then 1 else 0) + Figures(rules, rows[1..], n, c)
  }

  /** Mostly text, or an empty first column. */
  predicate IsLabel(rules: Rules, rows: seq<Row>, n: nat, unit: Option<nat>, c: nat)
    requires Rectangular(rows, n) && c < n
  {
    var filled := Filled(rows, n, c);
    unit != Some(c) && if filled > 0 then Figures(rules, rows, n, c) <= filled / 3 else c == 0
  }

  function LabelColumns(rules: Rules, rows: seq<Row>, n: nat, unit: Option<nat>, c: nat): (ls: seq<nat>)
    requires Rectangular(rows, n) && c <= n
    ensures Below(ls, n)
    decreases n - c
  {
    if c == n then []
    else (if IsLabel(rules, rows, n, unit, c) then [c] else []) + LabelColumns(rules, rows, n, unit, c + 1)
  }

  // ------------------------------------------------------------------ what a row inherits

  /** A row whose only text names a level; it scopes the rows below it. */
  predicate IsDivider(rules: Rules, row: Row) {
    var texts := TextsFrom(row, 0);
    |texts| == 1 && rules.isDivider(texts[0])
  }

  /** The latest of the first t rows that has text in column c, or -1; dividers do not count. */
  function LastText(rules: Rules, rows: seq<Row>, n: nat, c: nat, t: nat): (p: int)
    requires Rectangular(rows, n) && c < n && t <= |rows|
    ensures -1 <= p < t
  {
    if t == 0 then -1
    else if !IsDivider(rules, rows[t - 1]) && rows[t - 1][c] != "" then t - 1
    else LastText(rules, rows, n, c, t - 1)
  }

  /** The row has its own text in the first label column, or there is none. */
  predicate Labelled(row: Row, labels: seq<nat>)
    requires Below(labels, |row|)
  {
    labels == [] || row[labels[0]] != ""
  }

  function LastLabelled(rules: Rules, rows: seq<Row>, n: nat, labels: seq<nat>, t: nat): (p: int)
    requires Rectangular(rows, n) && Below(labels, n) && t <= |rows|
    ensures -1 <= p < t
  {
    if t == 0 then -1
    else if !IsDivider(rules, rows[t - 1]) && Labelled(rows[t - 1], labels) then t - 1
    else LastLabelled(rules, rows, n, labels, t - 1)
  }

  /** One of the first j label columns has later text than p. */
  predicate Outranked(rules: Rules, rows: seq<Row>, n: nat, labels: seq<nat>, j: nat, t: nat, p: int)
    requires Rectangular(rows, n) && Below(labels, n) && j <= |labels| && t <= |rows|
  {
    j > 0 && (LastText(rules, rows, n, labels[j - 1], t) > p || Outranked(rules, rows, n, labels, j - 1, t, p))
  }

  /** Label j after the first t rows: the latest text of its column, unless a label column to
      its left has later text.  `start` is what the grid was handed. */
  function LabelAt(rules: Rules, rows: seq<Row>, n: nat, labels: seq<nat>, start: seq<string>, j: nat, t: nat): string
    requires Rectangular(rows, n) && Below(labels, n) && |start| == |labels| && j < |labels| && t <= |rows|
  {
    var p := LastText(rules, rows, n, labels[j], t);
    if Outranked(rules, rows, n, labels, j, t, p) then "" else if p < 0 then start[j] else rows[p][labels[j]]
  }

  /** The value of column c after the first t rows: its latest text at or after the last labelled row. */
  function ValueAt(rules: Rules, rows: seq<Row>, n: nat, labels: seq<nat>, start: map<nat, string>, c: nat,
        t: nat): string
    requires Rectangular(rows, n) && Below(labels, n) && c < n && t <= |rows|
  {
    var p, l := LastText(rules, rows, n, c, t), LastLabelled(rules, rows, n, labels, t);
    if p >= 0 && p >= l then rows[p][c]
    else if p < 0 && l < 0 && c in start then start[c]
    else ""
  }

  /** The level named by the latest divider among the first t rows. */
  function LevelAt(rules: Rules, rows: seq<Row>, t: nat): string
    requires t <= |rows|
  {
    if t == 0 then ""
    else if IsDivider(rules, rows[t - 1]) then rules.dividerText(TextsFrom(rows[t - 1], 0)[0])
    else LevelAt(rules, rows, t - 1)
  }

  // ------------------------------------------------------------------ the cells of a row

  /** Some label from j on stands in a row whose own label cell is empty. */
  predicate CarriedDown(row: Row, labels: seq<nat>, last: seq<string>, j: nat)
    requires Below(labels, |row|) && |last| == |labels| && j <= |labels|
    decreases |labels| - j
  {
    j < |labels| && ((row[labels[j]] == "" && last[j] != "") || CarriedDown(row, labels, last, j + 1))
  }

  /** A grid's layout with what it was handed by the page before. */
  datatype Context = Context(rules: Rules, layout: Layout, labels0: seq<string>, values0: map<nat, string>,
        printed: seq<Row>) {
    predicate Valid() {
      && Rectangular(layout.rows, Columns()) && |layout.paths| == |layout.spans| == Columns()
      && Below(layout.labels, Columns()) && |labels0| == |layout.labels|
      && |printed| == layout.headerRows + |layout.rows|
      && (forall c :: 0 <= c < Columns() ==> layout.groups[c] != [])
    }

    function Columns(): nat { |layout.groups| }

    function Label(j: nat, t: nat): string
      requires Valid() && j < |layout.labels| && t <= |layout.rows|
    {
      LabelAt(rules, layout.rows, Columns(), layout.labels, labels0, j, t)
    }

    function Value(c: nat, t: nat): string
      requires Valid() && c < Columns() && t <= |layout.rows|
    {
      ValueAt(rules, layout.rows, Columns(), layout.labels, values0, c, t)
    }

    /** All labels from j on after the first t rows. */
    function LabelList(j: nat, t: nat): (ls: seq<string>)
      requires Valid() && j <= |layout.labels| && t <= |layout.rows|
      ensures |ls| == |layout.labels| - j
      decreases |layout.labels| - j
    {
      if j == |layout.labels| then [] else [Label(j, t)] + LabelList(j + 1, t)
    }

    /** Some label is carried down to row t. */
    predicate CarriesLabel(t: nat)
      requires Valid() && t < |layout.rows|
    {
      CarriedDown(layout.rows[t], layout.labels, LabelList(0, t + 1), 0)
    }

    function RowPath(t: nat): seq<string>
      requires Valid() && t < |layout.rows|
    {
      var level := LevelAt(rules, layout.rows, t);
      TextsFrom(LabelList(0, t + 1), 0) + (if level != "" then [level] else [])
    }

    predicate IsValue(c: nat) { c !in layout.labels && layout.unit != Some(c) }

    /** The cell with a text in row t and column c; `merged` says that it or a label was carried down. */
    function MakeCell(t: nat, c: nat, raw: string, path: seq<string>, merged: bool): Cell
      requires Valid() && t < |layout.rows| && c < Columns()
    {
      var r := layout.headerRows + t;
      var flags := Flags(merged, path == [], layout.inherited, layout.spans[c], layout.paths[c] == [],
        rules.unreadable(raw));
      Cell(r, OwnColumn(printed[r], layout.groups[c]), raw, layout.paths[c], path, flags)
    }

    /** The cell that row t and column c give. */
    function CellAt(t: nat, c: nat): Cell
      requires Valid() && t < |layout.rows| && c < Columns()
    {
      MakeCell(t, c, Value(c, t + 1), RowPath(t), CarriesLabel(t) || layout.rows[t][c] == "")
    }

    /** The cell of row t and column c, if the column is a value column and has a value there. */
    function Slot(t: nat, c: nat): Option<Cell>
      requires Valid() && t < |layout.rows| && c < Columns()
    {
      if IsValue(c) && Value(c, t + 1) != "" then Some(CellAt(t, c)) else None
    }

    /** The slots of row t from column c on. */
    function Slots(t: nat, c: nat): (s: seq<Option<Cell>>)
      requires Valid() && t < |layout.rows| && c <= Columns()
      ensures |s| == Columns() - c
      decreases Columns() - c
    {
      if c == Columns() then [] else [Slot(t, c)] + Slots(t, c + 1)
    }

    function CellsOf(t: nat): seq<Cell>
      requires Valid() && t < |layout.rows|
    {
      if IsDivider(rules, layout.rows[t]) then [] else Somes(Slots(t, 0))
    }

    /** The cells of the first t rows, row by row. */
    function CellRows(t: nat): (rs: seq<seq<Cell>>)
      requires Valid() && t <= |layout.rows|
      ensures |rs| == t
    {
      if t == 0 then [] else CellRows(t - 1) + [CellsOf(t - 1)]
    }

    function CellsUpTo(t: nat): seq<Cell>
      requires Valid() && t <= |layout.rows|
    {
      Flatten(CellRows(t))
    }
  }

  /** The reader's own column of a merged cell: the sub-column that holds the text. */
  function OwnColumn(row: Row, grp: seq<nat>): nat
    requires grp != []
  {
    var o := FirstOwn(row, grp);
    if o.Some? then o.value else grp[0]
  }

  function FirstOwn(row: Row, grp: seq<nat>): Option<nat> {
    if grp == [] then None
    else if grp[0] < |row| && Text.Clean(row[grp[0]]) != "" then Some(grp[0])
    else FirstOwn(row, grp[1..])
  }

  // ------------------------------------------------------------------ one row further

  /** One of the first j label columns has text in the row. */
  predicate AnyLabel(row: Row, labels: seq<nat>, j: nat)
    requires Below(labels, |row|) && j <= |labels|
  {
    j > 0 && (row[labels[j - 1]] != "" || AnyLabel(row, labels, j - 1))
  }

  lemma {:induction false} OutrankedStep(rules: Rules, rows: seq<Row>, n: nat, labels: seq<nat>, j: nat, t: nat, p: int)
    requires Rectangular(rows, n) && Below(labels, n) && j <= |labels| && t < |rows| && p < t
    requires !IsDivider(rules, rows[t])
    ensures Outranked(rules, rows, n, labels, j, t + 1, p)
         == (AnyLabel(rows[t], labels, j) || Outranked(rules, rows, n, labels, j, t, p))
  {
    if j > 0 { OutrankedStep(rules, rows, n, labels, j - 1, t, p); }
  }

  lemma {:induction false} OutrankedSame(rules: Rules, rows: seq<Row>, n: nat, labels: seq<nat>, j: nat, t: nat, p: int)
    requires Rectangular(rows, n) && Below(labels, n) && j <= |labels| && t < |rows|
    requires IsDivider(rules, rows[t])
    ensures Outranked(rules, rows, n, labels, j, t + 1, p) == Outranked(rules, rows, n, labels, j, t, p)
  {
    if j > 0 { OutrankedSame(rules, rows, n, labels, j - 1, t, p); }
  }

  lemma {:induction false} NeverOutranked(rules: Rules, rows: seq<Row>, n: nat, labels: seq<nat>, j: nat, t: nat,
        p: int)
    requires Rectangular(rows, n) && Below(labels, n) && j <= |labels| && t <= |rows| && p >= t - 1
    ensures !Outranked(rules, rows, n, labels, j, t, p)
  {
    if j > 0 { NeverOutranked(rules, rows, n, labels, j - 1, t, p); }
  }

  lemma LabelAtStep(rules: Rules, rows: seq<Row>, n: nat, labels: seq<nat>, start: seq<string>, j: nat, t: nat)
    requires Rectangular(rows, n) && Below(labels, n) && |start| == |labels| && j < |labels| && t < |rows|
    requires !IsDivider(rules, rows[t])
    ensures LabelAt(rules, rows, n, labels, start, j, t + 1) ==
      if rows[t][labels[j]] != "" then rows[t][labels[j]]
      else if AnyLabel(rows[t], labels, j) then "" else LabelAt(rules, rows, n, labels, start, j, t)
  {
    if rows[t][labels[j]] != "" {
      NeverOutranked(rules, rows, n, labels, j, t + 1, t);
    } else {
      OutrankedStep(rules, rows, n, labels, j, t, LastText(rules, rows, n, labels[j], t));
    }
  }

  lemma LabelStep(x: Context, j: nat, t: nat)
    requires x.Valid() && j < |x.layout.labels| && t < |x.layout.rows|
    ensures var row := x.layout.rows[t]; var own := row[x.layout.labels[j]];
            x.Label(j, t + 1) ==
              if IsDivider(x.rules, row) then x.Label(j, t)
              else if own != "" then own
              else if AnyLabel(row, x.layout.labels, j) then "" else x.Label(j, t)
  {
    var rules, rows, n, labels := x.rules, x.layout.rows, x.Columns(), x.layout.labels;
    if IsDivider(rules, rows[t]) {
      OutrankedSame(rules, rows, n, labels, j, t, LastText(rules, rows, n, labels[j], t));
    } else {
      LabelAtStep(rules, rows, n, labels, x.labels0, j, t);
    }
  }

  lemma ValueStep(x: Context, c: nat, t: nat)
    requires x.Valid() && c < x.Columns() && t < |x.layout.rows|
    ensures var row := x.layout.rows[t];
            x.Value(c, t + 1) ==
              if IsDivider(x.rules, row) then x.Value(c, t)
              else if row[c] != "" then row[c]
              else if Labelled(row, x.layout.labels) then "" else x.Value(c, t)
  {
  }

  // ------------------------------------------------------------------ the loop over the rows

  function Carry(carried: map<nat, string>, c: nat): string { if c in carried then carried[c] else "" }

  /** The running labels are the declared ones. */
  ghost predicate LabelsAre(x: Context, last: seq<string>, t: nat)
    requires x.Valid() && t <= |x.layout.rows|
  {
    |last| == |x.layout.labels| && forall j :: 0 <= j < |last| ==> last[j] == x.Label(j, t)
  }

  /** The running values of the value columns from lo to hi are the declared ones. */
  ghost predicate ValuesAre(x: Context, carried: map<nat, string>, t: nat, lo: nat, hi: nat)
    requires x.Valid() && t <= |x.layout.rows| && hi <= x.Columns()
  {
    forall c :: lo <= c < hi && x.IsValue(c) ==> Carry(carried, c) == x.Value(c, t)
  }

  /** Midway through a row: the first i labels are new, and those after them were reset by a text
      to their left. */
  ghost predicate Midway(x: Context, t: nat, before: seq<string>, last: seq<string>, i: nat)
    requires x.Valid() && t < |x.layout.rows| && i <= |x.layout.labels|
  {
    && |last| == |before| == |x.layout.labels|
    && (forall j :: 0 <= j < i ==> last[j] == x.Label(j, t + 1))
    && (forall j :: i <= j < |last| ==> last[j] == PartWay(x.layout.rows[t], x.layout.labels, before[j], i, j))
  }

  function PartWay(row: Row, labels: seq<nat>, was: string, i: nat, j: nat): string
    requires Below(labels, |row|) && i <= |labels| && j < |labels|
  {
    if AnyLabel(row, labels, i) && row[labels[j]] == "" then "" else was
  }

  /** Label j once the text at label i, if there is one, has reset the empty labels to its right. */
  function ResetAt(row: Row, labels: seq<nat>, last: seq<string>, i: nat, j: nat): string
    requires Below(labels, |row|) && |last| == |labels| && i < |labels| && j < |labels|
  {
    if row[labels[i]] == "" then last[j]
    else if j > i && row[labels[j]] == "" then "" else if j == i then row[labels[i]] else last[j]
  }

  /** A text at label i resets the empty labels to its right. */
  method ResetRight(row: Row, labels: seq<nat>, last: seq<string>, i: nat) returns (out: seq<string>)
    requires Below(labels, |row|) && |last| == |labels| && i < |labels| && row[labels[i]] != ""
    ensures |out| == |last| && forall j :: 0 <= j < |last| ==> out[j] == ResetAt(row, labels, last, i, j)
  {
    out := last[i := row[labels[i]]];
    for j := i + 1 to |labels|
      invariant |out| == |last|
      invariant forall k :: 0 <= k < |last| ==>
        out[k] == if i < k < j && row[labels[k]] == "" then "" else if k == i then row[labels[i]] else last[k]
    {
      if row[labels[j]] == "" { out := out[j := ""]; }
    }
  }

  lemma PartWayStep(row: Row, labels: seq<nat>, before: seq<string>, last: seq<string>, i: nat, j: nat)
    requires Below(labels, |row|) && |last| == |before| == |labels| && i < j < |labels|
    requires last[j] == PartWay(row, labels, before[j], i, j)
    ensures ResetAt(row, labels, last, i, j) == PartWay(row, labels, before[j], i + 1, j)
  {
  }

  lemma OwnLabelStep(x: Context, t: nat, before: seq<string>, last: seq<string>, i: nat)
    requires x.Valid() && t < |x.layout.rows| && !IsDivider(x.rules, x.layout.rows[t]) && i < |x.layout.labels|
    requires |last| == |before| == |x.layout.labels| && before[i] == x.Label(i, t)
    requires last[i] == PartWay(x.layout.rows[t], x.layout.labels, before[i], i, i)
    ensures ResetAt(x.layout.rows[t], x.layout.labels, last, i, i) == x.Label(i, t + 1)
  {
    LabelStep(x, i, t);
  }

  lemma MidwayStep(x: Context, t: nat, before: seq<string>, last: seq<string>, i: nat, out: seq<string>)
    requires x.Valid() && t < |x.layout.rows| && !IsDivider(x.rules, x.layout.rows[t]) && i < |x.layout.labels|
    requires LabelsAre(x, before, t) && Midway(x, t, before, last, i) && |out| == |last|
    requires forall j :: 0 <= j < |last| ==> out[j] == ResetAt(x.layout.rows[t], x.layout.labels, last, i, j)
    ensures Midway(x, t, before, out, i + 1)
  {
    var row, labels := x.layout.rows[t], x.layout.labels;
    forall j | i < j < |out| ensures out[j] == PartWay(row, labels, before[j], i + 1, j) {
      PartWayStep(row, labels, before, last, i, j);
    }
    OwnLabelStep(x, t, before, last, i);
  }

  method CarryLabels(x: Context, t: nat, before: seq<string>) returns (last: seq<string>)
    requires x.Valid() && t < |x.layout.rows| && !IsDivider(x.rules, x.layout.rows[t]) && LabelsAre(x, before, t)
    ensures LabelsAre(x, last, t + 1)
  {
    last := before;
    for i := 0 to |x.layout.labels|
      invariant Midway(x, t, before, last, i)
    {
      last := CarryLabel(x, t, before, last, i);
    }
  }

  method CarryLabel(x: Context, t: nat, ghost before: seq<string>, was: seq<string>, i: nat) returns (last: seq<string>)
    requires x.Valid() && t < |x.layout.rows| && !IsDivider(x.rules, x.layout.rows[t]) && i < |x.layout.labels|
    requires LabelsAre(x, before, t) && Midway(x, t, before, was, i)
    ensures Midway(x, t, before, last, i + 1)
  {
    var r, labels := x.layout.rows[t], x.layout.labels;
    last := was;
    if r[labels[i]] != "" { last := ResetRight(r, labels, was, i); }
    MidwayStep(x, t, before, was, i, last);
  }

  /** The row's labels that are not empty, and whether one of them was carried down. */
  method RowLabels(row: Row, labels: seq<nat>, last: seq<string>) returns (path: seq<string>, merged: bool)
    requires Below(labels, |row|) && |last| == |labels|
    ensures path == TextsFrom(last, 0) && merged == CarriedDown(row, labels, last, 0)
  {
    path, merged := [], false;
    for i := 0 to |labels|
      invariant path + TextsFrom(last, i) == TextsFrom(last, 0)
      invariant (merged || CarriedDown(row, labels, last, i)) == CarriedDown(row, labels, last, 0)
    {
      if row[labels[i]] == "" && last[i] != "" { merged := true; }
      var own := if last[i] != "" then [last[i]] else [];
      Assoc(path, own, TextsFrom(last, i + 1));
      path := path + own;
    }
  }

  lemma {:induction false} LabelsAreAll(x: Context, last: seq<string>, t: nat, j: nat)
    requires x.Valid() && t <= |x.layout.rows| && LabelsAre(x, last, t) && j <= |last|
    ensures last[j..] == x.LabelList(j, t)
    decreases |last| - j
  {
    if j < |last| { LabelsAreAll(x, last, t, j + 1); }
  }

  /** One column of a row: the cell it gives, if any, and the value it hands on. */
  method CellOfColumn(x: Context, t: nat, c: nat, before: map<nat, string>, path: seq<string>, merged: bool)
    returns (cells: seq<Cell>, carried: map<nat, string>)
    requires x.Valid() && t < |x.layout.rows| && c < x.Columns() && !IsDivider(x.rules, x.layout.rows[t])
    requires x.IsValue(c) ==> Carry(before, c) == x.Value(c, t)
    requires path == x.RowPath(t) && merged == x.CarriesLabel(t)
    ensures cells == if x.Slot(t, c).Some? then [x.Slot(t, c).value] else []
    ensures x.IsValue(c) && !Labelled(x.layout.rows[t], x.layout.labels) ==> Carry(carried, c) == x.Value(c, t + 1)
    ensures forall d :: d != c ==> Carry(carried, d) == Carry(before, d)
  {
    var r, labels := x.layout.rows[t], x.layout.labels;
    var ownLabelEmpty := labels != [] && r[labels[0]] == "";
    cells, carried := [], before;
    ValueStep(x, c, t);
    if x.IsValue(c) {
      var raw, propagated := r[c], false;
      if raw == "" && ownLabelEmpty && c in carried && carried[c] != "" {
        raw, propagated := carried[c], true;
      }
      if raw != "" {
        cells := [x.MakeCell(t, c, raw, path, merged || propagated)];
        carried := carried[c := raw];
      }
    }
  }

  lemma SlotStep(x: Context, t: nat, c: nat)
    requires x.Valid() && t < |x.layout.rows| && c < x.Columns()
    ensures Somes(x.Slots(t, c)) == (if x.Slot(t, c).Some? then [x.Slot(t, c).value] else []) + Somes(x.Slots(t, c + 1))
  {
    assert x.Slots(t, c)[1..] == x.Slots(t, c + 1);
  }

  /** The cells so far and those to come, one column further. */
  lemma CellsStep(x: Context, t: nat, c: nat, cells: seq<Cell>, more: seq<Cell>)
    requires x.Valid() && t < |x.layout.rows| && c < x.Columns()
    requires more == if x.Slot(t, c).Some? then [x.Slot(t, c).value] else []
    ensures (cells + more) + Somes(x.Slots(t, c + 1)) == cells + Somes(x.Slots(t, c))
  {
    SlotStep(x, t, c);
    Assoc(cells, more, Somes(x.Slots(t, c + 1)));
  }

  lemma ValuesAreStep(x: Context, before: map<nat, string>, after: map<nat, string>, t: nat, c: nat)
    requires x.Valid() && t < |x.layout.rows| && c < x.Columns() && ValuesAre(x, before, t, c, x.Columns())
    requires !Labelled(x.layout.rows[t], x.layout.labels) ==> ValuesAre(x, before, t + 1, 0, c)
    requires x.IsValue(c) && !Labelled(x.layout.rows[t], x.layout.labels) ==> Carry(after, c) == x.Value(c, t + 1)
    requires forall d :: d != c ==> Carry(after, d) == Carry(before, d)
    ensures ValuesAre(x, after, t, c + 1, x.Columns())
    ensures !Labelled(x.layout.rows[t], x.layout.labels) ==> ValuesAre(x, after, t + 1, 0, c + 1)
  {
  }

  lemma FirstOfValues(x: Context, carried: map<nat, string>, t: nat, c: nat)
    requires x.Valid() && t <= |x.layout.rows| && c < x.Columns() && ValuesAre(x, carried, t, c, x.Columns())
    ensures x.IsValue(c) ==> Carry(carried, c) == x.Value(c, t)
  {
  }

  /** The value cells of a row; `carried` holds the values that span into it. */
  method CellsOfRow(x: Context, t: nat, before: map<nat, string>, path: seq<string>, merged: bool)
    returns (cells: seq<Cell>, carried: map<nat, string>)
    requires x.Valid() && t < |x.layout.rows| && !IsDivider(x.rules, x.layout.rows[t])
    requires ValuesAre(x, before, t, 0, x.Columns()) && path == x.RowPath(t) && merged == x.CarriesLabel(t)
    ensures cells == Somes(x.Slots(t, 0)) && ValuesAre(x, carried, t + 1, 0, x.Columns())
  {
    var r, labels, n := x.layout.rows[t], x.layout.labels, x.Columns();
    cells, carried := [], before;
    for c := 0 to n
      invariant !Labelled(r, labels) ==> ValuesAre(x, carried, t + 1, 0, c)
      invariant ValuesAre(x, carried, t, c, n)
      invariant cells + Somes(x.Slots(t, c)) == Somes(x.Slots(t, 0))
    {
      FirstOfValues(x, carried, t, c);
      var more, next := CellOfColumn(x, t, c, carried, path, merged);
      ValuesAreStep(x, carried, next, t, c);
      carried := next;
      CellsStep(x, t, c, cells, more);
      cells := cells + more;
    }
    if Labelled(r, labels) { carried := RestartValues(x, t); }
  }

  /** A labelled row drops what was carried: only its own texts span into the rows below. */
  method RestartValues(x: Context, t: nat) returns (carried: map<nat, string>)
    requires x.Valid() && t < |x.layout.rows| && !IsDivider(x.rules, x.layout.rows[t])
    requires Labelled(x.layout.rows[t], x.layout.labels)
    ensures ValuesAre(x, carried, t + 1, 0, x.Columns())
  {
    var r := x.layout.rows[t];
    forall c | 0 <= c < x.Columns() ensures x.Value(c, t + 1) == r[c] { ValueStep(x, c, t); }
    carried := map c | 0 <= c < |r| && c !in x.layout.labels && r[c] != "" :: r[c];
  }

  lemma DividerStep(x: Context, last: seq<string>, carried: map<nat, string>, t: nat)
    requires x.Valid() && t < |x.layout.rows| && IsDivider(x.rules, x.layout.rows[t])
    requires LabelsAre(x, last, t) && ValuesAre(x, carried, t, 0, x.Columns())
    ensures LabelsAre(x, last, t + 1) && ValuesAre(x, carried, t + 1, 0, x.Columns())
  {
    forall j | 0 <= j < |last| ensures last[j] == x.Label(j, t + 1) { LabelStep(x, j, t); }
    forall c | 0 <= c < x.Columns() ensures x.Value(c, t + 1) == x.Value(c, t) { ValueStep(x, c, t); }
  }

  /** A divider only sets the level; any other row gives cells and hands on labels and values. */
  method AnalyseRow(x: Context, t: nat, labels: seq<string>, values: map<nat, string>, above: string)
    returns (cells: seq<Cell>, last: seq<string>, carried: map<nat, string>, level: string)
    requires x.Valid() && t < |x.layout.rows|
    requires LabelsAre(x, labels, t) && ValuesAre(x, values, t, 0, x.Columns())
    requires above == LevelAt(x.rules, x.layout.rows, t)
    ensures cells == x.CellsOf(t) && level == LevelAt(x.rules, x.layout.rows, t + 1)
    ensures LabelsAre(x, last, t + 1) && ValuesAre(x, carried, t + 1, 0, x.Columns())
  {
    var row := x.layout.rows[t];
    if IsDivider(x.rules, row) {
      DividerStep(x, labels, values, t);
      return [], labels, values, x.rules.dividerText(TextsFrom(row, 0)[0]);
    }
    level := above;
    last := CarryLabels(x, t, labels);
    var path, merged := RowLabels(row, x.layout.labels, last);
    LabelsAreAll(x, last, t + 1, 0);
    assert last[0..] == last;
    if level != "" { path := path + [level]; }
    cells, carried := CellsOfRow(x, t, values, path, merged);
  }

  lemma Start(x: Context)
    requires x.Valid()
    ensures LabelsAre(x, x.labels0, 0) && ValuesAre(x, x.values0, 0, 0, x.Columns())
  {
    forall j | 0 <= j < |x.labels0| ensures x.labels0[j] == x.Label(j, 0) {
      NeverOutranked(x.rules, x.layout.rows, x.Columns(), x.layout.labels, j, 0, -1);
    }
  }

  method AnalyseRows(x: Context) returns (cells: seq<Cell>)
    requires x.Valid()
    ensures cells == x.CellsUpTo(|x.layout.rows|)
  {
    var last, carried, level := x.labels0, x.values0, "";
    cells := [];
    Start(x);
    for t := 0 to |x.layout.rows|
      invariant LabelsAre(x, last, t) && ValuesAre(x, carried, t, 0, x.Columns())
      invariant level == LevelAt(x.rules, x.layout.rows, t) && cells == x.CellsUpTo(t)
    {
      var more;
      more, last, carried, level := AnalyseRow(x, t, last, carried, level);
      assert x.CellRows(t + 1)[..t] == x.CellRows(t);
      cells := cells + more;
    }
  }

  // ------------------------------------------------------------------ a whole grid

  lemma CleanRectangular(rows: seq<Row>)
    ensures Rectangular(CleanRows(rows, Width(rows)), Width(CleanRows(rows, Width(rows))))
    ensures Width(CleanRows(rows, Width(rows))) == Width(rows)
  {
    if rows != [] { WidthRectangular(CleanRows(rows, Width(rows)), Width(rows)); }
  }

  /** The grid's texts cleaned and its sub-columns merged. */
  function MergedGrid(g: Input): (seq<Row>, seq<seq<nat>>) {
    CleanRectangular(g.rows);
    Collapse(CleanRows(g.rows, Width(g.rows)), g.headerRows)
  }

  lemma MergedGridShape(g: Input)
    ensures var (rows, groups) := MergedGrid(g);
      |rows| == |g.rows| && Rectangular(rows, |groups|) && forall c :: 0 <= c < |groups| ==> groups[c] != []
  {
    CleanRectangular(g.rows);
    CollapseIs(CleanRows(g.rows, Width(g.rows)), g.headerRows);
    GroupsTile(CleanRows(g.rows, Width(g.rows)), g.headerRows);
    TilesNonEmpty(MergedGrid(g).1, 0, Width(g.rows));
  }

  lemma {:induction false} TilesNonEmpty(gs: seq<seq<nat>>, lo: nat, n: nat)
    requires Tiles(gs, lo, n)
    ensures forall c :: 0 <= c < |gs| ==> gs[c] != []
    decreases |gs|
  {
    if gs != [] {
      TilesNonEmpty(gs[1..], lo + |gs[0]|, n);
      forall c | 0 <= c < |gs| ensures gs[c] != [] { if c > 0 { assert gs[c] == gs[1..][c - 1]; } }
    }
  }

  function AllPaths(rows: seq<Row>, n: nat, h: nat): (ps: seq<seq<string>>)
    requires Rectangular(rows, n) && h <= |rows|
    ensures |ps| == n
  {
    seq(n, c requires 0 <= c < n => PathOf(rows, n, h, c))
  }

  function AllSpans(rows: seq<Row>, n: nat, h: nat): (bs: seq<bool>)
    requires Rectangular(rows, n) && h <= |rows|
    ensures |bs| == n
  {
    seq(n, c requires 0 <= c < n => GridColumns.Inherits(rows, n, h, c))
  }

  function AtMost(a: nat, b: nat): nat { if a < b then a else b }

  /** How the grid continues the one before it, judged by its own header. */
  function ContinuingOf(g: Input, previous: Option<GridRecord>): Continuing {
    var (rows, groups) := MergedGrid(g);
    MergedGridShape(g);
    Continues(g, AllPaths(rows, |groups|, AtMost(g.headerRows, |rows|)), previous)
  }

  function LayoutOf(rules: Rules, g: Input, previous: Option<GridRecord>): Layout {
    var (rows, groups) := MergedGrid(g);
    MergedGridShape(g);
    var n, h, taken := |groups|, AtMost(g.headerRows, |rows|), ContinuingOf(g, previous) == TakesHeader;
    var paths := if taken then previous.value.headerPaths else AllPaths(rows, n, h);
    var spans := if taken then seq(n, _ => false) else AllSpans(rows, n, h);
    var data := if taken then rows else rows[h..];
    var unit := UnitColumn(rules, paths, 0);
    Layout(data, if taken then 0 else h, groups, paths, spans, taken, LabelColumns(rules, data, n, unit, 0), unit)
  }

  // what a continuation takes over from the last row of the grid before it

  function MaxRow(cells: seq<Cell>): nat {
    if cells == [] then 0
    else
      var m := MaxRow(cells[1..]);
      if cells[0].row > m then cells[0].row else m
  }

  function InRow(cells: seq<Cell>, r: nat): seq<Cell> {
    if cells == [] then [] else (if cells[0].row == r then [cells[0]] else []) + InRow(cells[1..], r)
  }

  function Handed(g: Input, previous: Option<GridRecord>): seq<Cell> {
    if ContinuingOf(g, previous) == Fresh || previous.None? then []
    else InRow(previous.value.cells, MaxRow(previous.value.cells))
  }

  /** The first k labels of the row path, padded with empty ones. */
  function StartLabels(path: seq<string>, k: nat): (ls: seq<string>)
    ensures |ls| == k
  {
    if k == 0 then [] else if path == [] then [""] + StartLabels([], k - 1)
      else [path[0]] + StartLabels(path[1..], k - 1)
  }

  function StartValues(cells: seq<Cell>): map<nat, string> {
    if cells == [] then map[] else StartValues(cells[..|cells| - 1])[cells[|cells| - 1].col := cells[|cells| - 1].raw]
  }

  function ContextOf(rules: Rules, g: Input, previous: Option<GridRecord>): (x: Context)
    ensures x.Valid()
  {
    MergedGridShape(g);
    var layout, handed := LayoutOf(rules, g, previous), Handed(g, previous);
    var path := if handed == [] then [] else handed[0].rowPath;
    Context(rules, layout, StartLabels(path, |layout.labels|), StartValues(handed), g.rows)
  }

  method FindLabels(rules: Rules, rows: seq<Row>, n: nat, unit: Option<nat>) returns (labels: seq<nat>)
    requires Rectangular(rows, n)
    ensures labels == LabelColumns(rules, rows, n, unit, 0)
  {
    labels := [];
    for c := 0 to n
      invariant labels + LabelColumns(rules, rows, n, unit, c) == LabelColumns(rules, rows, n, unit, 0)
    {
      var own := if IsLabel(rules, rows, n, unit, c) then [c] else [];
      Assoc(labels, own, LabelColumns(rules, rows, n, unit, c + 1));
      labels := labels + own;
    }
  }

  lemma PathsAreAll(rows: seq<Row>, n: nat, h: nat, paths: seq<seq<string>>, inherited: seq<bool>)
    requires Rectangular(rows, n) && h <= |rows| && PathsUpTo(rows, n, h, paths, inherited, 0, n)
    ensures paths == AllPaths(rows, n, h) && inherited == AllSpans(rows, n, h)
  {
  }

  method FindLayout(rules: Rules, g: Input, previous: Option<GridRecord>)
    returns (layout: Layout, continuing: Continuing, flags: set<GridFlag>)
    ensures layout == LayoutOf(rules, g, previous) && continuing == ContinuingOf(g, previous)
    ensures flags == GridFlags(g, continuing)
  {
    var cleaned := CleanRows(g.rows, Width(g.rows));
    CleanRectangular(g.rows);
    MergedGridShape(g);
    var rows, groups := CollapseSplitColumns(cleaned, g.headerRows);
    var n, h := |groups|, AtMost(g.headerRows, |rows|);
    var paths, spans := HeaderPaths(rows, n, g.headerRows);
    PathsAreAll(rows, n, h, paths, spans);
    continuing := Continues(g, paths, previous);
    if continuing == TakesHeader {
      paths, spans, h := previous.value.headerPaths, seq(n, _ => false), 0;
    }
    var unit := UnitColumn(rules, paths, 0);
    var labels := FindLabels(rules, rows[h..], n, unit);
    layout := Layout(rows[h..], h, groups, paths, spans, continuing == TakesHeader, labels, unit);
    flags := GridFlags(g, continuing);
  }

  function GridFlags(g: Input, continuing: Continuing): set<GridFlag> {
    (if |MergedGrid(g).1| != Width(g.rows) then {SplitColumnsMerged} else {})
    + (match continuing
       case TakesHeader => {InheritedHeader}
       case RepeatsHeader => {RepeatedHeader}
       case Fresh => {})
    + (if g.headerRows == 0 && continuing != TakesHeader then {NoHeaderRow} else {})
  }

  /** The analysis of one grid: its cells are the declared ones. */
  method AnalyseGrid(rules: Rules, g: Input, previous: Option<GridRecord>) returns (record: GridRecord)
    ensures var x := ContextOf(rules, g, previous);
      && record.cells == x.CellsUpTo(|x.layout.rows|)
      && record.headerPaths == x.layout.paths && record.labelColumns == x.layout.labels
        && record.unitColumn == x.layout.unit
      && record.headerInherited == x.layout.inherited
    ensures record.page == g.page && record.ordinal == g.ordinal
      && record.flags == GridFlags(g, ContinuingOf(g, previous))
    ensures record.continuationOf ==
      if ContinuingOf(g, previous) == Fresh || previous.None? then None
        else Some((previous.value.page, previous.value.ordinal))
  {
    var layout, continuing, flags := FindLayout(rules, g, previous);
    var continuationOf, handed := None, [];
    if continuing != Fresh && previous.Some? {
      continuationOf := Some((previous.value.page, previous.value.ordinal));
      handed := InRow(previous.value.cells, MaxRow(previous.value.cells));
    }
    var path := if handed == [] then [] else handed[0].rowPath;
    var x := Context(rules, layout, StartLabels(path, |layout.labels|), StartValues(handed), g.rows);
    assert x == ContextOf(rules, g, previous);
    var cells := AnalyseRows(x);
    record := GridRecord(g.page, g.ordinal, layout.paths, layout.labels, layout.unit, continuationOf,
                         layout.inherited, cells, flags);
  }
}
