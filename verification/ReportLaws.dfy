/** What the report on two readers says of the tables it names: each comparison is of the two grids
    themselves, cell by cell, and each missing or empty table is called so. */
module ReportLaws {
  import opened Basics
  import opened Readers
  import opened ReaderAgreement

  // ------------------------------------------------------------------ the cells where two tables differ

  ghost predicate SameSize(p: seq<seq<string>>, s: seq<seq<string>>) { |p| == |s| && Width(p) == Width(s) }

  /** The places of two tables of one size where the texts differ. */
  ghost function Places(p: seq<seq<string>>, s: seq<seq<string>>): set<(nat, nat)>
    requires SameShape(p, s)
  {
    set r: nat, c: nat | r < |p| && c < Width(p) && p[r][c] != s[r][c] :: (r, c)
  }

  predicate Before(a: CellDiff, b: CellDiff) { a.row < b.row || (a.row == b.row && a.col < b.col) }

  ghost predicate InReadingOrder(ds: seq<CellDiff>) { forall i, j :: 0 <= i < j < |ds| ==> Before(ds[i], ds[j]) }

  /** d tells of a place where the tables differ, with both texts. */
  ghost predicate TellsOf(d: CellDiff, p: seq<seq<string>>, s: seq<seq<string>>)
    requires SameShape(p, s)
  {
    (d.row, d.col) in Places(p, s) && d.primary == p[d.row][d.col] && d.secondary == s[d.row][d.col]
  }

  /** The list tells of the first fifty differing places, row by row, and of no other. */
  ghost predicate FirstFifty(ds: seq<CellDiff>, p: seq<seq<string>>, s: seq<seq<string>>)
    requires SameShape(p, s)
  {
    && |ds| <= 50 && InReadingOrder(ds) && (forall k :: 0 <= k < |ds| ==> TellsOf(ds[k], p, s))
    && forall d :: TellsOf(d, p, s) ==> d in ds || (|ds| == 50 && Before(ds[49], d))
  }

  lemma {:induction false} RowInOrder(p: seq<seq<string>>, s: seq<seq<string>>, r: nat, n: nat)
    requires SameShape(p, s) && r < |p| && n <= Width(p)
    ensures InReadingOrder(RowDiffs(p, s, r, n))
  {
    if n > 0 {
      RowInOrder(p, s, r, n - 1);
      var front := RowDiffs(p, s, r, n - 1);
      forall k | 0 <= k < |front| ensures front[k].row == r && front[k].col < n - 1 {
        RowDiffsExact(p, s, r, n - 1, front[k]);
      }
    }
  }

  lemma {:induction false} AllInOrder(p: seq<seq<string>>, s: seq<seq<string>>, n: nat)
    requires SameShape(p, s) && n <= |p|
    ensures InReadingOrder(Diffs(p, s, n))
  {
    if n > 0 {
      var front, row := Diffs(p, s, n - 1), RowDiffs(p, s, n - 1, Width(p));
      AllInOrder(p, s, n - 1);
      RowInOrder(p, s, n - 1, Width(p));
      forall k | 0 <= k < |front| ensures front[k].row < n - 1 { DiffsExact(p, s, n - 1, front[k]); }
      forall k | 0 <= k < |row| ensures row[k].row == n - 1 { RowDiffsExact(p, s, n - 1, Width(p), row[k]); }
    }
  }

  lemma DiffsTell(p: seq<seq<string>>, s: seq<seq<string>>, d: CellDiff)
    requires SameShape(p, s)
    ensures d in Diffs(p, s, |p|) <==> TellsOf(d, p, s)
  {
    DiffsExact(p, s, |p|, d);
  }

  /** A list in reading order names as many places as it is long. */
  lemma {:induction false} PlacesCounted(ds: seq<CellDiff>, places: set<(nat, nat)>)
    requires InReadingOrder(ds) && forall q :: q in places <==> exists k :: 0 <= k < |ds| && q == (ds[k].row, ds[k].col)
    ensures |places| == |ds|
  {
    if ds == [] {
      assert places == {};
    } else {
      var n := |ds| - 1;
      var last := (ds[n].row, ds[n].col);
      forall q ensures q in places - {last} <==> exists k :: 0 <= k < n && q == (ds[..n][k].row, ds[..n][k].col) {
        if k :| 0 <= k < n && q == (ds[k].row, ds[k].col) { assert ds[..n][k] == ds[k]; }
        if q in places - {last} {
          var k :| 0 <= k < |ds| && q == (ds[k].row, ds[k].col);
          assert ds[..n][k] == ds[k];
        }
      }
      PlacesCounted(ds[..n], places - {last});
    }
  }

  lemma DiffsCounted(p: seq<seq<string>>, s: seq<seq<string>>)
    requires SameShape(p, s)
    ensures |Diffs(p, s, |p|)| == |Places(p, s)|
  {
    var ds := Diffs(p, s, |p|);
    AllInOrder(p, s, |p|);
    forall q ensures q in Places(p, s) <==> exists k :: 0 <= k < |ds| && q == (ds[k].row, ds[k].col) {
      if q in Places(p, s) {
        var d := CellDiff(q.0, q.1, p[q.0][q.1], s[q.0][q.1]);
        DiffsTell(p, s, d);
        var k :| 0 <= k < |ds| && ds[k] == d;
      }
      if k :| 0 <= k < |ds| && q == (ds[k].row, ds[k].col) { DiffsTell(p, s, ds[k]); }
    }
    PlacesCounted(ds, Places(p, s));
  }

  lemma CutInOrder(ds: seq<CellDiff>, p: seq<seq<string>>, s: seq<seq<string>>)
    requires SameShape(p, s) && ds == Diffs(p, s, |p|)
    ensures FirstFifty(if |ds| <= 50 then ds else ds[..50], p, s)
  {
    var cut := if |ds| <= 50 then ds else ds[..50];
    AllInOrder(p, s, |p|);
    forall k | 0 <= k < |cut| ensures TellsOf(cut[k], p, s) { DiffsTell(p, s, ds[k]); }
    forall d | TellsOf(d, p, s) ensures d in cut || (|cut| == 50 && Before(cut[49], d)) {
      DiffsTell(p, s, d);
      var k :| 0 <= k < |ds| && ds[k] == d;
      if k < |cut| { assert cut[k] == d; }
    }
  }

  // ------------------------------------------------------------------ one comparison

  /** The number of header rows that are left of a table. */
  function HeaderLeft(g: Grid): nat {
    if g.headerRows < |NormalRows(g.rows)| then g.headerRows else |NormalRows(g.rows)|
  }

  /** The report a compares the tables of the two grids. */
  ghost predicate Compares(a: Agreement, pg: Grid, sg: Grid) {
    var p, s := NormalRows(pg.rows), NormalRows(sg.rows);
    && a.page == pg.page && a.primaryOrdinal == Some(pg.ordinal) && a.secondaryOrdinal == Some(sg.ordinal)
    && (a.structureMatch <==> SameSize(p, s)) && (a.headerMatch <==> HeaderLeft(pg) == HeaderLeft(sg))
    && (if SameSize(p, s) then FirstFifty(a.disagreeing, p, s) else a.disagreeing == [])
    && (a.score == 1.0 <==> p == s != [] && HeaderLeft(pg) == HeaderLeft(sg))
  }

  /** The share of cells whose texts are the same, of two tables of one size. */
  ghost function SameShare(p: seq<seq<string>>, s: seq<seq<string>>): real
    requires SameShape(p, s) && p != [] && Width(p) > 0
  {
    (CellCount(p) - |Places(p, s)|) as real / CellCount(p) as real
  }

  /** The measures of the report. */
  ghost predicate Measures(a: Agreement, pg: Grid, sg: Grid) {
    var p, s := NormalRows(pg.rows), NormalRows(sg.rows);
    && a.cellEquality == (if SameSize(p, s) && p != [] && Width(p) > 0 then SameShare(p, s) else 0.0)
    && a.score == 0.4 * a.cellEquality + (if SameSize(p, s) then 0.5 else 0.0)
       + (if HeaderLeft(pg) == HeaderLeft(sg) then 0.1 else 0.0)
  }

  /** The class by counting the differing cells: none in fifty, one in five. */
  ghost predicate CountedClass(a: Agreement, pg: Grid, sg: Grid) {
    var p, s := NormalRows(pg.rows), NormalRows(sg.rows);
    if !SameSize(p, s) || p == [] then a.cls == StructureDisagreement
    else
      var d, total := |Places(p, s)|, |p| * Width(p);
      a.cls == if 50 * d <= total && HeaderLeft(pg) == HeaderLeft(sg) then HighAgreement
               else if 5 * d <= total then MinorityCellDisagreement
               else StructureDisagreement
  }

  /** A high agreement carries no risk; a structural one is tagged as such beside the disagreement. */
  ghost predicate TaggedByClass(a: Agreement) {
    && (a.cls == HighAgreement ==> a.risks == [])
    && (a.cls == MinorityCellDisagreement ==> a.risks == [ReaderRisk])
    && (a.cls == StructureDisagreement ==> a.risks == [ReaderRisk, StructureRisk])
  }

  lemma NormalWidth(rows: seq<seq<string>>)
    requires NormalRows(rows) != []
    ensures Width(NormalRows(rows)) > 0
  {
    NormalisedIsNormal(rows);
    assert RowUsed(NormalRows(rows)[0]);
  }

  lemma OneMinus(x: real, y: real)
    requires y != 0.0
    ensures 1.0 - x / y == (y - x) / y
  {
    assert (1.0 - x / y) * y == y - x / y * y == y - x;
    assert (y - x) / y * y == y - x;
    Cancel(1.0 - x / y, (y - x) / y, y);
  }

  lemma Cancel(a: real, b: real, y: real)
    requires y != 0.0 && a * y == b * y
    ensures a == b
  {
    assert (a - b) * y == 0.0;
  }

  lemma ShareIs(p: seq<seq<string>>, s: seq<seq<string>>)
    requires SameShape(p, s) && p != [] && Width(p) > 0
    ensures Equality(|Diffs(p, s, |p|)|, CellCount(p)) == SameShare(p, s)
  {
    DiffsCounted(p, s);
    PositiveCount(p);
    OneMinus(|Places(p, s)| as real, CellCount(p) as real);
  }

  lemma ComparesTheGrids(pg: Grid, sg: Grid, t: Thresholds)
    ensures Compares(CompareSpec(pg, sg, t), pg, sg) && TaggedByClass(CompareSpec(pg, sg, t))
  {
    var p, s := NormalRows(pg.rows), NormalRows(sg.rows);
    ScoreIsShare(pg.page, pg.ordinal, sg.ordinal, p, HeaderLeft(pg), s, HeaderLeft(sg), t);
    if SameSize(p, s) { CutInOrder(Diffs(p, s, |p|), p, s); }
  }

  lemma MeasuresTheGrids(pg: Grid, sg: Grid, t: Thresholds)
    ensures Measures(CompareSpec(pg, sg, t), pg, sg)
  {
    var p, s := NormalRows(pg.rows), NormalRows(sg.rows);
    if SameSize(p, s) && p != [] {
      NormalWidth(pg.rows);
      ShareIs(p, s);
    }
  }

  lemma ClassOfGrids(pg: Grid, sg: Grid)
    ensures CountedClass(CompareSpec(pg, sg, DEFAULTS), pg, sg)
  {
    var p, s := NormalRows(pg.rows), NormalRows(sg.rows);
    NormalisedIsNormal(pg.rows);
    NormalisedIsNormal(sg.rows);
    DefaultClasses(pg.page, pg.ordinal, sg.ordinal, p, HeaderLeft(pg), s, HeaderLeft(sg));
    if SameSize(p, s) && p != [] { DiffsCounted(p, s); }
  }

  // ------------------------------------------------------------------ the whole report

  /** Unused grid k overlaps p by more than each unused one of the first n before it, and no less than each after. */
  ghost predicate FirstBest(p: Grid, secondary: seq<Grid>, used: set<int>, n: nat, k: nat)
    requires k < n <= |secondary|
  {
    && secondary[k].ordinal !in used
    && forall j :: 0 <= j < n && j != k && secondary[j].ordinal !in used ==>
         var (here, there) := (IoU(p.bbox, secondary[k].bbox), IoU(p.bbox, secondary[j].bbox));
         if j < k then there < here else there <= here
  }

  lemma {:induction false} BestIsFirst(p: Grid, secondary: seq<Grid>, used: set<int>, n: nat)
    requires n <= |secondary|
    ensures var b := Best(p, secondary, used, n); b.Some? ==> FirstBest(p, secondary, used, n, b.value)
  {
    if n > 0 {
      BestIsFirst(p, secondary, used, n - 1);
      BestIsMax(p, secondary, used, n - 1);
    }
  }

  /** The secondary grid that a primary one takes is the first unused one of the greatest overlap; it takes
      none exactly when no unused one overlaps it, and by as much as asked. */
  lemma TakesTheBest(p: Grid, secondary: seq<Grid>, used: set<int>, minOverlap: real)
    ensures var c := Choice(p, secondary, used, minOverlap);
      c.Some? ==> FirstBest(p, secondary, used, |secondary|, c.value)
    ensures Choice(p, secondary, used, minOverlap).None? <==>
      forall j :: 0 <= j < |secondary| && secondary[j].ordinal !in used ==>
        IoU(p.bbox, secondary[j].bbox) <= 0.0 || IoU(p.bbox, secondary[j].bbox) < minOverlap
  {
    BestIsFirst(p, secondary, used, |secondary|);
    BestIsMax(p, secondary, used, |secondary|);
  }

  /** Grids are taken in turn: what earlier primary grids took is used. */
  lemma {:induction false} TakesInTurn(primary: seq<Grid>, secondary: seq<Grid>, minOverlap: real, i: nat)
    requires i < |primary|
    ensures var cs := Greedy(primary, secondary, minOverlap);
      ChoicesInto(cs[..i], secondary)
      && cs[i] == Choice(primary[i], secondary, UsedBy(cs[..i], secondary), minOverlap)
    decreases |primary|
  {
    var n := |primary| - 1;
    var front := Greedy(primary[..n], secondary, minOverlap);
    if i < n { TakesInTurn(primary[..n], secondary, minOverlap, i); }
    assert Greedy(primary, secondary, minOverlap)[..i] == front[..i];
    assert front[..n] == front;
  }

  /** No cell of the grid has a text. */
  ghost predicate Blank(g: Grid) { forall r: nat, c: nat :: TextAt(g.rows, r, c) == "" }

  lemma EmptyIsBlank(g: Grid)
    ensures IsEmpty(Normalised(g).rows) <==> Blank(g)
  {
    var n := NormalRows(g.rows);
    var keep, cols := NormalisedKeeps(g.rows);
    if n != [] {
      NormalisedIsNormal(g.rows);
      assert RowUsed(n[0]) && n[0] in n;
      assert keep[0] in keep && RowHolds(g.rows, keep[0]);
    }
    if r: nat, c: nat :| TextAt(g.rows, r, c) != "" { assert RowHolds(g.rows, r) && r in keep; }
  }

  /** A report on a table that only one reader found. */
  ghost predicate OneSided(a: Agreement) {
    a.score == 0.0 && a.cellEquality == 0.0 && !a.structureMatch && !a.headerMatch && a.disagreeing == []
  }

  /** The report on a primary grid compares it with the secondary grid it names, or says that there is none. */
  lemma PairIsTrue(primary: seq<Grid>, secondary: seq<Grid>, t: Thresholds, i: nat)
    requires i < |primary|
    ensures i < |Report(primary, secondary, t)|
    ensures var a, c := Report(primary, secondary, t)[i], Greedy(primary, secondary, t.minOverlap)[i];
      if c.None? then
        && a.page == primary[i].page && a.primaryOrdinal == Some(primary[i].ordinal) && a.secondaryOrdinal == None
        && OneSided(a) && a.cls == SecondaryMissing && a.risks == [ReaderRisk, SecondaryMissingRisk]
      else
        && Compares(a, primary[i], secondary[c.value]) && Measures(a, primary[i], secondary[c.value])
        && TaggedByClass(a) && (t == DEFAULTS ==> CountedClass(a, primary[i], secondary[c.value]))
  {
    var c := Greedy(primary, secondary, t.minOverlap)[i];
    assert Report(primary, secondary, t)[i] == PairReport(primary[i], c, secondary, t);
    if c.Some? {
      ComparesTheGrids(primary[i], secondary[c.value], t);
      MeasuresTheGrids(primary[i], secondary[c.value], t);
      ClassOfGrids(primary[i], secondary[c.value]);
    }
  }

  lemma {:induction false} LeftOverAt(secondary: seq<Grid>, used: set<int>, k: nat) returns (j: nat)
    requires k < |LeftOver(secondary, used)|
    ensures j < |secondary| && secondary[j].ordinal !in used
    ensures LeftOver(secondary, used)[k] == LeftOverReport(secondary[j])
    decreases |secondary|
  {
    var n := |secondary| - 1;
    if k < |LeftOver(secondary[..n], used)| { j := LeftOverAt(secondary[..n], used, k); } else { j := n; }
  }

  /** Every later report is on a secondary grid that no primary one took; it is tagged as empty exactly
      when no cell of that grid has a text. */
  lemma LeftOverIsTrue(primary: seq<Grid>, secondary: seq<Grid>, t: Thresholds, k: nat) returns (j: nat)
    requires |primary| <= k < |Report(primary, secondary, t)|
    ensures j < |secondary|
    ensures secondary[j].ordinal !in UsedBy(Greedy(primary, secondary, t.minOverlap), secondary)
    ensures var a := Report(primary, secondary, t)[k];
      && a.page == secondary[j].page && a.primaryOrdinal == None && a.secondaryOrdinal == Some(secondary[j].ordinal)
      && OneSided(a) && a.cls == PrimaryMissing
      && a.risks == [ReaderRisk, PrimaryMissingRisk] + (if Blank(secondary[j]) then [EmptyGrid] else [])
  {
    var used := UsedBy(Greedy(primary, secondary, t.minOverlap), secondary);
    j := LeftOverAt(secondary, used, k - |primary|);
    EmptyIsBlank(secondary[j]);
  }
}
