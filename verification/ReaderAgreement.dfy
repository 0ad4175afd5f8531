/** Agreement between two readers: greedy pairing of their grids by overlap, comparison of
    each pair, and a report for every grid left over. */
module ReaderAgreement {
  import opened Basics
  import opened Readers

  datatype Class =
    HighAgreement | MinorityCellDisagreement | StructureDisagreement | PrimaryMissing | SecondaryMissing

  datatype Risk = ReaderRisk | StructureRisk | PrimaryMissingRisk | SecondaryMissingRisk | EmptyGrid

  datatype CellDiff = CellDiff(row: nat, col: nat, primary: string, secondary: string)

  datatype Agreement = Agreement(
    page: int, primaryOrdinal: Option<int>, secondaryOrdinal: Option<int>, cls: Class, score: real,
    structureMatch: bool, headerMatch: bool, cellEquality: real, disagreeing: seq<CellDiff>, risks: seq<Risk>)

  datatype Thresholds = Thresholds(minEquality: real, maxInequality: real, minOverlap: real)

  const DEFAULTS := Thresholds(0.98, 0.20, 0.50)

  // ------------------------------------------------------------------ comparing one pair

  predicate SameShape(p: seq<seq<string>>, s: seq<seq<string>>) {
    |p| == |s| && Width(p) == Width(s) && Rectangular(p, Width(p)) && Rectangular(s, Width(s))
  }

  /** The differing cells of row r among its first n columns. */
  function RowDiffs(p: seq<seq<string>>, s: seq<seq<string>>, r: nat, n: nat): seq<CellDiff>
    requires SameShape(p, s) && r < |p| && n <= Width(p)
  {
    if n == 0 then []
    else
      RowDiffs(p, s, r, n - 1)
      + (if p[r][n - 1] != s[r][n - 1] then [CellDiff(r, n - 1, p[r][n - 1], s[r][n - 1])] else [])
  }

  /** The differing cells of the first n rows, row by row. */
  function Diffs(p: seq<seq<string>>, s: seq<seq<string>>, n: nat): seq<CellDiff>
    requires SameShape(p, s) && n <= |p|
  {
    if n == 0 then [] else Diffs(p, s, n - 1) + RowDiffs(p, s, n - 1, Width(p))
  }

  function CellCount(p: seq<seq<string>>): nat { |p| * Width(p) }

  function Equality(differing: nat, total: nat): real {
    if total == 0 then 1.0 else 1.0 - differing as real / total as real
  }

  function Classify(structure: bool, header: bool, equality: real, t: Thresholds): Class {
    if !structure then StructureDisagreement
    else if equality >= t.minEquality && header then HighAgreement
    else if 1.0 - equality <= t.maxInequality then MinorityCellDisagreement
    else StructureDisagreement
  }

  function RisksOf(c: Class): seq<Risk> {
    match c
    case HighAgreement => []
    case MinorityCellDisagreement => [ReaderRisk]
    case StructureDisagreement => [ReaderRisk, StructureRisk]
    case PrimaryMissing => [ReaderRisk, PrimaryMissingRisk]
    case SecondaryMissing => [ReaderRisk, SecondaryMissingRisk]
  }

  ghost predicate Tidy(rows: seq<seq<string>>) { Rectangular(rows, Width(rows)) }

  /** The comparison of two normalised tables with their header row counts. */
  function CompareTables(page: int, pOrdinal: int, sOrdinal: int, p: seq<seq<string>>, pHeader: nat,
                         s: seq<seq<string>>, sHeader: nat, t: Thresholds): Agreement
    requires Tidy(p) && Tidy(s)
  {
    var structure := |p| == |s| && Width(p) == Width(s);
    var header := pHeader == sHeader;
    var diffs := if structure && p != [] then Diffs(p, s, |p|) else [];
    var equality := if structure && p != [] then Equality(|diffs|, CellCount(p)) else 0.0;
    var cls := Classify(structure, header, equality, t);
    Agreement(page, Some(pOrdinal), Some(sOrdinal), cls,
              (if structure then 0.5 else 0.0) + (if header then 0.1 else 0.0) + 0.4 * equality,
              structure, header, equality, if |diffs| <= 50 then diffs else diffs[..50], RisksOf(cls))
  }

  function CompareSpec(primary: Grid, secondary: Grid, t: Thresholds): Agreement {
    var p, s := Normalised(primary), Normalised(secondary);
    CompareTables(primary.page, primary.ordinal, secondary.ordinal, p.rows, p.headerRows, s.rows, s.headerRows, t)
  }

  method DifferingCells(p: seq<seq<string>>, s: seq<seq<string>>) returns (disagreeing: seq<CellDiff>)
    requires SameShape(p, s)
    ensures disagreeing == Diffs(p, s, |p|)
  {
    disagreeing := [];
    for r := 0 to |p|
      invariant disagreeing == Diffs(p, s, r)
    {
      for c := 0 to Width(p)
        invariant disagreeing == Diffs(p, s, r) + RowDiffs(p, s, r, c)
      {
        if p[r][c] != s[r][c] {
          disagreeing := disagreeing + [CellDiff(r, c, p[r][c], s[r][c])];
        }
      }
    }
  }

  method CompareNormal(page: int, pOrdinal: int, sOrdinal: int, p: seq<seq<string>>, pHeader: nat,
                       s: seq<seq<string>>, sHeader: nat, t: Thresholds) returns (a: Agreement)
    requires Tidy(p) && Tidy(s)
    ensures a == CompareTables(page, pOrdinal, sOrdinal, p, pHeader, s, sHeader, t)
  {
    var structure := |p| == |s| && Width(p) == Width(s);
    var header := pHeader == sHeader;
    var disagreeing: seq<CellDiff> := [];
    var equality := 0.0;
    if structure && |p| > 0 {
      disagreeing := DifferingCells(p, s);
      equality := Equality(|disagreeing|, CellCount(p));
    }
    var cls, risks := ClassifyPair(structure, header, equality, t);
    var score := (if structure then 0.5 else 0.0) + (if header then 0.1 else 0.0) + 0.4 * equality;
    a := Agreement(page, Some(pOrdinal), Some(sOrdinal), cls, score, structure, header,
                   equality, if |disagreeing| <= 50 then disagreeing else disagreeing[..50], risks);
  }

  method ClassifyPair(structure: bool, header: bool, equality: real, t: Thresholds)
    returns (cls: Class, risks: seq<Risk>)
    ensures cls == Classify(structure, header, equality, t) && risks == RisksOf(cls)
  {
    if !structure {
      cls, risks := StructureDisagreement, [ReaderRisk, StructureRisk];
    } else if equality >= t.minEquality && header {
      cls, risks := HighAgreement, [];
    } else if 1.0 - equality <= t.maxInequality {
      cls, risks := MinorityCellDisagreement, [ReaderRisk];
    } else {
      cls, risks := StructureDisagreement, [ReaderRisk, StructureRisk];
    }
  }

  method CompareGrids(primary: Grid, secondary: Grid, t: Thresholds) returns (a: Agreement)
    ensures a == CompareSpec(primary, secondary, t)
  {
    var p, s := Normalised(primary), Normalised(secondary);
    a := CompareNormal(primary.page, primary.ordinal, secondary.ordinal, p.rows, p.headerRows, s.rows, s.headerRows, t);
  }

  lemma {:induction false} RowDiffsExact(p: seq<seq<string>>, s: seq<seq<string>>, r: nat, n: nat, d: CellDiff)
    requires SameShape(p, s) && r < |p| && n <= Width(p)
    ensures d in RowDiffs(p, s, r, n) <==>
      d.row == r && d.col < n && d.primary == p[r][d.col] && d.secondary == s[r][d.col] && d.primary != d.secondary
  {
    if n > 0 { RowDiffsExact(p, s, r, n - 1, d); }
  }

  /** The disagreement list holds exactly the cells whose texts differ, with both texts. */
  lemma {:induction false} DiffsExact(p: seq<seq<string>>, s: seq<seq<string>>, n: nat, d: CellDiff)
    requires SameShape(p, s) && n <= |p|
    ensures d in Diffs(p, s, n) <==>
      d.row < n && d.col < Width(p) && d.primary == p[d.row][d.col] && d.secondary == s[d.row][d.col]
      && d.primary != d.secondary
  {
    if n > 0 {
      DiffsExact(p, s, n - 1, d);
      RowDiffsExact(p, s, n - 1, Width(p), d);
    }
  }

  lemma {:induction false} RowDiffsBound(p: seq<seq<string>>, s: seq<seq<string>>, r: nat, n: nat)
    requires SameShape(p, s) && r < |p| && n <= Width(p)
    ensures |RowDiffs(p, s, r, n)| <= n
  {
    if n > 0 { RowDiffsBound(p, s, r, n - 1); }
  }

  lemma {:induction false} DiffsBound(p: seq<seq<string>>, s: seq<seq<string>>, n: nat)
    requires SameShape(p, s) && n <= |p|
    ensures |Diffs(p, s, n)| <= n * Width(p)
  {
    if n > 0 {
      DiffsBound(p, s, n - 1);
      RowDiffsBound(p, s, n - 1, Width(p));
      OneMore(n - 1, Width(p));
    }
  }

  lemma OneMore(n: nat, w: nat)
    ensures (n + 1) * w == n * w + w
  {
  }

  lemma ShareBound(d: nat, total: nat)
    requires d <= total
    ensures 0.0 <= Equality(d, total) <= 1.0 && (Equality(d, total) == 1.0 <==> d == 0)
  {
    if total > 0 {
      var x, y := d as real, total as real;
      assert (x / y) * y == x;
      assert x / y >= 0.0 && x / y <= 1.0;
      assert x / y == 0.0 <==> d == 0;
    }
  }

  /** Tables of one shape without a differing cell are the same. */
  lemma NoDiffsIsSame(p: seq<seq<string>>, s: seq<seq<string>>)
    requires SameShape(p, s)
    ensures Diffs(p, s, |p|) == [] <==> p == s
  {
    if Diffs(p, s, |p|) == [] {
      forall r | 0 <= r < |p| ensures p[r] == s[r] {
        forall c | 0 <= c < Width(p) ensures p[r][c] == s[r][c] {
          DiffsExact(p, s, |p|, CellDiff(r, c, p[r][c], s[r][c]));
        }
      }
    }
    if p == s && Diffs(p, s, |p|) != [] { DiffsExact(p, s, |p|, Diffs(p, s, |p|)[0]); }
  }

  /** The equality and the score are shares: they lie between 0 and 1, and the score is full exactly when the two
      tables are the same, not empty, and have the same header rows. */
  lemma ScoreIsShare(page: int, po: int, so: int, p: seq<seq<string>>, ph: nat, s: seq<seq<string>>, sh: nat,
        t: Thresholds)
    requires Tidy(p) && Tidy(s)
    ensures var a := CompareTables(page, po, so, p, ph, s, sh, t);
      && 0.0 <= a.cellEquality <= 1.0 && 0.0 <= a.score <= 1.0
      && (a.score == 1.0 <==> p != [] && p == s && ph == sh)
  {
    if |p| == |s| && Width(p) == Width(s) && p != [] {
      DiffsBound(p, s, |p|);
      ShareBound(|Diffs(p, s, |p|)|, CellCount(p));
      NoDiffsIsSame(p, s);
    }
  }

  lemma QuotientBound(d: nat, total: nat, k: nat)
    requires total > 0 && k > 0
    ensures d as real / total as real <= 1.0 / k as real <==> d * k <= total
  {
    var x, y, z := d as real, total as real, k as real;
    assert (d * k) as real == x * z;
    calc <==> {
      x / y <= 1.0 / z;
      { TimesPositive(x / y, 1.0 / z, y * z); }
      x / y * (y * z) <= 1.0 / z * (y * z);
      { assert x / y * (y * z) == (x / y * y) * z; assert 1.0 / z * (y * z) == (1.0 / z * z) * y; }
      x * z <= y;
    }
  }

  lemma TimesPositive(a: real, b: real, c: real)
    requires c > 0.0
    ensures a <= b <==> a * c <= b * c
  {
  }

  /** With the default thresholds the class is decided by counting: at most one cell in fifty
      may differ for high agreement, at most one in five for a minority disagreement, and two
      tables without any text never agree. */
  lemma DefaultClasses(page: int, po: int, so: int, p: seq<seq<string>>, ph: nat, s: seq<seq<string>>, sh: nat)
    requires Normal(p) && Normal(s)
    ensures var a := CompareTables(page, po, so, p, ph, s, sh, DEFAULTS);
      if |p| != |s| || Width(p) != Width(s) || p == [] then a.cls == StructureDisagreement
      else
        var d, total := |Diffs(p, s, |p|)|, CellCount(p);
        && (a.cls == HighAgreement <==> 50 * d <= total && ph == sh)
        && (a.cls == StructureDisagreement <==> 5 * d > total)
        && (a.cls == MinorityCellDisagreement <==> 5 * d <= total && !(50 * d <= total && ph == sh))
  {
    if |p| == |s| && Width(p) == Width(s) && p != [] {
      assert RowUsed(p[0]);
      PositiveCount(p);
      ClassByCount(|Diffs(p, s, |p|)|, CellCount(p), ph == sh);
    }
  }

  lemma PositiveCount(p: seq<seq<string>>)
    requires |p| > 0 && Width(p) > 0
    ensures CellCount(p) > 0
  {
  }

  lemma ClassByCount(d: nat, total: nat, header: bool)
    requires total > 0
    ensures var c := Classify(true, header, Equality(d, total), DEFAULTS);
      && (c == HighAgreement <==> 50 * d <= total && header)
      && (c == StructureDisagreement <==> 5 * d > total)
      && (c == MinorityCellDisagreement <==> 5 * d <= total && !(50 * d <= total && header))
  {
    QuotientBound(d, total, 50);
    QuotientBound(d, total, 5);
  }

  // ------------------------------------------------------------------ greedy pairing

  /** The first of the first n unused secondary grids with the greatest positive overlap. */
  function Best(p: Grid, secondary: seq<Grid>, used: set<int>, n: nat): (b: Option<nat>)
    requires n <= |secondary|
    ensures b.Some? ==> b.value < n
  {
    if n == 0 then None
    else
      var b := Best(p, secondary, used, n - 1);
      if secondary[n - 1].ordinal in used then b
      else if IoU(p.bbox, secondary[n - 1].bbox) > (if b.Some? then IoU(p.bbox, secondary[b.value].bbox) else 0.0)
      then Some(n - 1)
      else b
  }

  function Choice(p: Grid, secondary: seq<Grid>, used: set<int>, minOverlap: real): (c: Option<nat>)
    ensures c.Some? ==> c.value < |secondary|
  {
    var b := Best(p, secondary, used, |secondary|);
    if b.Some? && IoU(p.bbox, secondary[b.value].bbox) >= minOverlap then b else None
  }

  predicate ChoicesInto(choices: seq<Option<nat>>, secondary: seq<Grid>) {
    forall i :: 0 <= i < |choices| && choices[i].Some? ==> choices[i].value < |secondary|
  }

  function UsedBy(choices: seq<Option<nat>>, secondary: seq<Grid>): set<int>
    requires ChoicesInto(choices, secondary)
  {
    set i | 0 <= i < |choices| && choices[i].Some? :: secondary[choices[i].value].ordinal
  }

  /** For each primary grid in turn, the secondary grid it takes. */
  function Greedy(primary: seq<Grid>, secondary: seq<Grid>, minOverlap: real): (choices: seq<Option<nat>>)
    ensures |choices| == |primary| && ChoicesInto(choices, secondary)
    decreases |primary|
  {
    if primary == [] then []
    else
      var n := |primary| - 1;
      var front := Greedy(primary[..n], secondary, minOverlap);
      front + [Choice(primary[n], secondary, UsedBy(front, secondary), minOverlap)]
  }

  function MissingReport(p: Grid): Agreement {
    Agreement(p.page, Some(p.ordinal), None, SecondaryMissing, 0.0, false, false, 0.0, [], RisksOf(SecondaryMissing))
  }

  function PairReport(p: Grid, choice: Option<nat>, secondary: seq<Grid>, t: Thresholds): Agreement
    requires choice.Some? ==> choice.value < |secondary|
  {
    if choice.Some? then CompareSpec(p, secondary[choice.value], t)
    else MissingReport(p)
  }

  function PairReports(primary: seq<Grid>, choices: seq<Option<nat>>, secondary: seq<Grid>,
        t: Thresholds): (r: seq<Agreement>)
    requires |choices| == |primary| && ChoicesInto(choices, secondary)
    ensures |r| == |primary|
  {
    seq(|primary|, i requires 0 <= i < |primary| => PairReport(primary[i], choices[i], secondary, t))
  }

  function LeftOverReport(s: Grid): Agreement {
    Agreement(s.page, None, Some(s.ordinal), PrimaryMissing, 0.0, false, false, 0.0, [],
              RisksOf(PrimaryMissing) + (if IsEmpty(Normalised(s).rows) then [EmptyGrid] else []))
  }

  function LeftOver(secondary: seq<Grid>, used: set<int>): seq<Agreement> {
    if secondary == [] then []
    else
      var n := |secondary| - 1;
      LeftOver(secondary[..n], used)
      + (if secondary[n].ordinal in used then [] else [LeftOverReport(secondary[n])])
  }

  function Report(primary: seq<Grid>, secondary: seq<Grid>, t: Thresholds): seq<Agreement> {
    var choices := Greedy(primary, secondary, t.minOverlap);
    PairReports(primary, choices, secondary, t) + LeftOver(secondary, UsedBy(choices, secondary))
  }

  /** The inner loop: the unused secondary grid with the greatest overlap, if that is enough. */
  method FindPartner(pg: Grid, secondary: seq<Grid>, used: set<int>, minOverlap: real) returns (partner: Option<nat>)
    ensures partner == Choice(pg, secondary, used, minOverlap)
  {
    var best: Option<nat>, bestIou := None, 0.0;
    for k := 0 to |secondary|
      invariant best == Best(pg, secondary, used, k)
      invariant bestIou == if best.Some? then IoU(pg.bbox, secondary[best.value].bbox) else 0.0
    {
      if secondary[k].ordinal !in used {
        var iou := IoU(pg.bbox, secondary[k].bbox);
        if iou > bestIou {
          best, bestIou := Some(k), iou;
        }
      }
    }
    partner := if best.Some? && bestIou >= minOverlap then best else None;
  }

  method PairGrids(primary: seq<Grid>, secondary: seq<Grid>, t: Thresholds)
    returns (results: seq<Agreement>, used: set<int>)
    ensures var choices := Greedy(primary, secondary, t.minOverlap);
            results == PairReports(primary, choices, secondary, t) && used == UsedBy(choices, secondary)
  {
    results, used := [], {};
    for i := 0 to |primary|
      invariant var choices := Greedy(primary[..i], secondary, t.minOverlap);
                results == PairReports(primary[..i], choices, secondary, t) && used == UsedBy(choices, secondary)
    {
      ghost var front := Greedy(primary[..i], secondary, t.minOverlap);
      var partner := FindPartner(primary[i], secondary, used, t.minOverlap);
      GreedySnoc(primary, secondary, t, i, front);
      if partner.Some? {
        used := used + {secondary[partner.value].ordinal};
        var a := CompareGrids(primary[i], secondary[partner.value], t);
        results := results + [a];
      } else {
        results := results + [MissingReport(primary[i])];
      }
    }
    assert primary[..|primary|] == primary;
  }

  method ReportLeftOver(secondary: seq<Grid>, used: set<int>) returns (results: seq<Agreement>)
    ensures results == LeftOver(secondary, used)
  {
    results := [];
    for k := 0 to |secondary|
      invariant results == LeftOver(secondary[..k], used)
    {
      assert secondary[..k + 1][..k] == secondary[..k];
      if secondary[k].ordinal !in used {
        results := results + [LeftOverReport(secondary[k])];
      }
    }
    assert secondary[..|secondary|] == secondary;
  }

  method ScoreAgreement(primary: seq<Grid>, secondary: seq<Grid>, t: Thresholds) returns (results: seq<Agreement>)
    ensures results == Report(primary, secondary, t)
  {
    var pairs, used := PairGrids(primary, secondary, t);
    var rest := ReportLeftOver(secondary, used);
    results := pairs + rest;
  }

  lemma GreedySnoc(primary: seq<Grid>, secondary: seq<Grid>, t: Thresholds, i: nat, front: seq<Option<nat>>)
    requires i < |primary| && front == Greedy(primary[..i], secondary, t.minOverlap)
    ensures var c := Choice(primary[i], secondary, UsedBy(front, secondary), t.minOverlap);
      var choices := Greedy(primary[..i + 1], secondary, t.minOverlap);
      && UsedBy(choices, secondary)
         == UsedBy(front, secondary) + (if c.Some? then {secondary[c.value].ordinal} else {})
      && PairReports(primary[..i + 1], choices, secondary, t)
         == PairReports(primary[..i], front, secondary, t) + [PairReport(primary[i], c, secondary, t)]
  {
    var c := Choice(primary[i], secondary, UsedBy(front, secondary), t.minOverlap);
    assert primary[..i + 1][..i] == primary[..i];
    UsedBySnoc(front, c, secondary);
    PairReportsSnoc(primary[..i], primary[i], front, c, secondary, t);
    assert primary[..i + 1] == primary[..i] + [primary[i]];
  }

  lemma UsedBySnoc(front: seq<Option<nat>>, c: Option<nat>, secondary: seq<Grid>)
    requires ChoicesInto(front, secondary) && (c.Some? ==> c.value < |secondary|)
    ensures ChoicesInto(front + [c], secondary)
    ensures UsedBy(front + [c], secondary)
         == UsedBy(front, secondary) + (if c.Some? then {secondary[c.value].ordinal} else {})
  {
    var all := front + [c];
    forall o | o in UsedBy(front, secondary) ensures o in UsedBy(all, secondary) {
      var i :| 0 <= i < |front| && front[i].Some? && secondary[front[i].value].ordinal == o;
      assert all[i] == front[i];
    }
    if c.Some? { assert all[|front|] == c; }
  }

  lemma PairReportsSnoc(ps: seq<Grid>, p: Grid, front: seq<Option<nat>>, c: Option<nat>, secondary: seq<Grid>,
        t: Thresholds)
    requires |front| == |ps| && ChoicesInto(front, secondary) && (c.Some? ==> c.value < |secondary|)
    requires ChoicesInto(front + [c], secondary)
    ensures PairReports(ps + [p], front + [c], secondary, t)
         == PairReports(ps, front, secondary, t) + [PairReport(p, c, secondary, t)]
  {
  }

  // ------------------------------------------------------------------ greedy is the unique matching

  ghost predicate BoxesApart(grids: seq<Grid>) {
    && (forall i :: 0 <= i < |grids| ==> Proper(grids[i].bbox))
    && (forall i, j :: 0 <= i < j < |grids| ==> Inter(grids[i].bbox, grids[j].bbox) == 0.0)
  }

  ghost predicate DistinctOrdinals(grids: seq<Grid>) {
    forall i, j :: 0 <= i < j < |grids| ==> grids[i].ordinal != grids[j].ordinal
  }

  /** Grid i of the primary reader overlaps grid j of the secondary one enough to be the same table. */
  ghost predicate Meets(primary: seq<Grid>, secondary: seq<Grid>, minOverlap: real, i: nat, j: nat)
    requires i < |primary| && j < |secondary|
  {
    IoU(primary[i].bbox, secondary[j].bbox) >= minOverlap
  }

  /** No box of either reader is cut exactly in two by boxes of the other. */
  ghost predicate NoHalfTies(primary: seq<Grid>, secondary: seq<Grid>) {
    && (forall i, j, k :: 0 <= i < |primary| && 0 <= j < k < |secondary| ==>
          !(IoU(primary[i].bbox, secondary[j].bbox) == 0.5 && IoU(primary[i].bbox, secondary[k].bbox) == 0.5))
    && (forall i, j, k :: 0 <= i < k < |primary| && 0 <= j < |secondary| ==>
          !(IoU(primary[i].bbox, secondary[j].bbox) == 0.5 && IoU(primary[k].bbox, secondary[j].bbox) == 0.5))
  }

  /** Every grid of one reader meets at most one of the other. */
  ghost predicate OnePartner(primary: seq<Grid>, secondary: seq<Grid>, minOverlap: real) {
    && (forall i, j, k :: 0 <= i < |primary| && 0 <= j < k < |secondary| ==>
          !(Meets(primary, secondary, minOverlap, i, j) && Meets(primary, secondary, minOverlap, i, k)))
    && (forall i, j, k :: 0 <= i < k < |primary| && 0 <= j < |secondary| ==>
          !(Meets(primary, secondary, minOverlap, i, j) && Meets(primary, secondary, minOverlap, k, j)))
  }

  lemma DisjointGivesOnePartner(primary: seq<Grid>, secondary: seq<Grid>, minOverlap: real)
    requires BoxesApart(primary) && BoxesApart(secondary) && minOverlap >= 0.5
    requires minOverlap == 0.5 ==> NoHalfTies(primary, secondary)
    ensures OnePartner(primary, secondary, minOverlap)
  {
    forall i, j, k | 0 <= i < |primary| && 0 <= j < k < |secondary|
      ensures !(Meets(primary, secondary, minOverlap, i, j) && Meets(primary, secondary, minOverlap, i, k))
    {
      if Meets(primary, secondary, minOverlap, i, j) && Meets(primary, secondary, minOverlap, i, k) {
        TwoPartnersAreHalves(primary[i].bbox, secondary[j].bbox, secondary[k].bbox);
      }
    }
    forall i, j, k | 0 <= i < k < |primary| && 0 <= j < |secondary|
      ensures !(Meets(primary, secondary, minOverlap, i, j) && Meets(primary, secondary, minOverlap, k, j))
    {
      if Meets(primary, secondary, minOverlap, i, j) && Meets(primary, secondary, minOverlap, k, j) {
        IoUSymmetric(primary[i].bbox, secondary[j].bbox);
        IoUSymmetric(primary[k].bbox, secondary[j].bbox);
        TwoPartnersAreHalves(secondary[j].bbox, primary[i].bbox, primary[k].bbox);
      }
    }
  }

  lemma {:induction false} BestIsMax(p: Grid, secondary: seq<Grid>, used: set<int>, n: nat)
    requires n <= |secondary|
    ensures var b := Best(p, secondary, used, n);
      && (b.Some? ==> secondary[b.value].ordinal !in used && IoU(p.bbox, secondary[b.value].bbox) > 0.0)
      && (forall j :: 0 <= j < n && secondary[j].ordinal !in used ==>
            IoU(p.bbox, secondary[j].bbox) <= if b.Some? then IoU(p.bbox, secondary[b.value].bbox) else 0.0)
  {
    if n > 0 { BestIsMax(p, secondary, used, n - 1); }
  }

  /** Greedy takes exactly the pairs that meet, when every grid meets at most one other. */
  lemma {:induction false} GreedyTakesPartners(primary: seq<Grid>, secondary: seq<Grid>, minOverlap: real)
    requires DistinctOrdinals(secondary) && minOverlap > 0.0 && OnePartner(primary, secondary, minOverlap)
    ensures forall i, j :: 0 <= i < |primary| && 0 <= j < |secondary| ==>
      (Greedy(primary, secondary, minOverlap)[i] == Some(j) <==> Meets(primary, secondary, minOverlap, i, j))
    decreases |primary|
  {
    if primary != [] {
      var n := |primary| - 1;
      var front, choices := Greedy(primary[..n], secondary, minOverlap), Greedy(primary, secondary, minOverlap);
      PrefixOnePartner(primary, secondary, minOverlap, n);
      GreedyTakesPartners(primary[..n], secondary, minOverlap);
      forall i, j | 0 <= i < |primary| && 0 <= j < |secondary|
        ensures choices[i] == Some(j) <==> Meets(primary, secondary, minOverlap, i, j)
      {
        if i < n {
          assert primary[..n][i] == primary[i];
          assert Meets(primary[..n], secondary, minOverlap, i, j) <==> Meets(primary, secondary, minOverlap, i, j);
        } else {
          LastTakesPartner(primary, secondary, minOverlap, front, j);
        }
      }
    }
  }

  lemma PrefixOnePartner(primary: seq<Grid>, secondary: seq<Grid>, minOverlap: real, n: nat)
    requires n <= |primary| && OnePartner(primary, secondary, minOverlap)
    ensures OnePartner(primary[..n], secondary, minOverlap)
  {
    assert forall i, j :: 0 <= i < n && 0 <= j < |secondary| ==>
      (Meets(primary[..n], secondary, minOverlap, i, j) <==> Meets(primary, secondary, minOverlap, i, j));
  }

  lemma LastTakesPartner(primary: seq<Grid>, secondary: seq<Grid>, minOverlap: real, front: seq<Option<nat>>, j: nat)
    requires DistinctOrdinals(secondary) && minOverlap > 0.0 && OnePartner(primary, secondary, minOverlap)
    requires |primary| == |front| + 1 && ChoicesInto(front, secondary) && j < |secondary|
    requires forall i, k :: 0 <= i < |front| && 0 <= k < |secondary| ==>
      (front[i] == Some(k) <==> Meets(primary[..|front|], secondary, minOverlap, i, k))
    ensures Choice(primary[|front|], secondary, UsedBy(front, secondary), minOverlap) == Some(j)
       <==> Meets(primary, secondary, minOverlap, |front|, j)
  {
    var n := |front|;
    var used := UsedBy(front, secondary);
    BestIsMax(primary[n], secondary, used, |secondary|);
    var c := Choice(primary[n], secondary, used, minOverlap);
    if c == Some(j) { assert Meets(primary, secondary, minOverlap, n, j); }
    if Meets(primary, secondary, minOverlap, n, j) {
      if secondary[j].ordinal in used {
        var i :| 0 <= i < |front| && front[i].Some? && secondary[front[i].value].ordinal == secondary[j].ordinal;
        assert front[i] == Some(j);
        assert Meets(primary[..n], secondary, minOverlap, i, j);
        assert primary[..n][i] == primary[i];
        assert Meets(primary, secondary, minOverlap, i, j);
      }
      var k := c.value;
      assert Meets(primary, secondary, minOverlap, n, k);
    }
  }

  /** The pairing is the set of pairs with IoU of at least the threshold, whatever the order of
      the lists: for disjoint boxes and any threshold of one half or more it holds if and only
      if no box is cut exactly in two at a threshold of exactly one half. */
  lemma GreedyIsTheMatching(primary: seq<Grid>, secondary: seq<Grid>, minOverlap: real)
    requires BoxesApart(primary) && BoxesApart(secondary) && DistinctOrdinals(secondary) && minOverlap >= 0.5
    ensures (forall i, j :: 0 <= i < |primary| && 0 <= j < |secondary| ==>
              (Greedy(primary, secondary, minOverlap)[i] == Some(j) <==> Meets(primary, secondary, minOverlap, i, j)))
       <==> (minOverlap == 0.5 ==> NoHalfTies(primary, secondary))
  {
    if minOverlap == 0.5 ==> NoHalfTies(primary, secondary) {
      DisjointGivesOnePartner(primary, secondary, minOverlap);
      GreedyTakesPartners(primary, secondary, minOverlap);
    } else {
      HalfTieMissesAPair(primary, secondary);
      var i, j :| Missed(primary, secondary, 0.5, i, j);
    }
  }

  lemma {:induction false} GreedyTakesOnce(primary: seq<Grid>, secondary: seq<Grid>, minOverlap: real, i: nat, k: nat)
    requires i < k < |primary|
    ensures var c := Greedy(primary, secondary, minOverlap);
            c[i].Some? && c[k].Some? ==> secondary[c[i].value].ordinal != secondary[c[k].value].ordinal
    decreases |primary|
  {
    var n := |primary| - 1;
    var front := Greedy(primary[..n], secondary, minOverlap);
    if k < n {
      GreedyTakesOnce(primary[..n], secondary, minOverlap, i, k);
    } else {
      BestIsMax(primary[n], secondary, UsedBy(front, secondary), |secondary|);
      if front[i].Some? { assert secondary[front[i].value].ordinal in UsedBy(front, secondary); }
    }
  }

  ghost predicate Missed(primary: seq<Grid>, secondary: seq<Grid>, minOverlap: real, i: int, j: int) {
    && 0 <= i < |primary| && 0 <= j < |secondary|
    && Meets(primary, secondary, minOverlap, i, j) && Greedy(primary, secondary, minOverlap)[i] != Some(j)
  }

  lemma TwoSecondariesMissOne(primary: seq<Grid>, secondary: seq<Grid>, minOverlap: real, i: nat, j: nat, k: nat)
    requires i < |primary| && j < k < |secondary|
    requires Meets(primary, secondary, minOverlap, i, j) && Meets(primary, secondary, minOverlap, i, k)
    ensures Missed(primary, secondary, minOverlap, i, j) || Missed(primary, secondary, minOverlap, i, k)
  {
  }

  lemma TwoPrimariesMissOne(primary: seq<Grid>, secondary: seq<Grid>, minOverlap: real, i: nat, k: nat, j: nat)
    requires i < k < |primary| && j < |secondary|
    requires Meets(primary, secondary, minOverlap, i, j) && Meets(primary, secondary, minOverlap, k, j)
    ensures Missed(primary, secondary, minOverlap, i, j) || Missed(primary, secondary, minOverlap, k, j)
  {
    GreedyTakesOnce(primary, secondary, minOverlap, i, k);
  }

  /** A box cut exactly in two at a threshold of one half leaves a meeting pair unpaired. */
  lemma HalfTieMissesAPair(primary: seq<Grid>, secondary: seq<Grid>)
    requires !NoHalfTies(primary, secondary)
    ensures exists i, j :: Missed(primary, secondary, 0.5, i, j)
  {
    if i, j, k :|
      && 0 <= i < |primary| && 0 <= j < k < |secondary|
      && IoU(primary[i].bbox, secondary[j].bbox) == 0.5 && IoU(primary[i].bbox, secondary[k].bbox) == 0.5
    {
      TwoSecondariesMissOne(primary, secondary, 0.5, i, j, k);
    } else {
      var i, j, k :|
        && 0 <= i < k < |primary| && 0 <= j < |secondary|
        && IoU(primary[i].bbox, secondary[j].bbox) == 0.5 && IoU(primary[k].bbox, secondary[j].bbox) == 0.5;
      TwoPrimariesMissOne(primary, secondary, 0.5, i, k, j);
    }
  }

  /** Finding: one reader sees a table, the other its two halves; each half meets the table, and one is left over. */
  lemma TwoHalvesOfATable(whole: Grid, left: Grid, right: Grid, w: Box, l: Box, r: Box)
    requires whole.bbox == w && left.bbox == l && right.bbox == r
    requires w == Box(0.0, 0.0, 2.0, 1.0) && l == Box(0.0, 0.0, 1.0, 1.0) && r == Box(1.0, 0.0, 2.0, 1.0)
    ensures BoxesApart([whole]) && BoxesApart([left, right])
    ensures exists i, j :: Missed([whole], [left, right], 0.5, i, j)
  {
    HalvesMiss(whole, left, right, w, l, r);
    ApartHalves(whole, left, right, w, l, r);
  }

  lemma HalvesMiss(whole: Grid, left: Grid, right: Grid, w: Box, l: Box, r: Box)
    requires whole.bbox == w && left.bbox == l && right.bbox == r
    requires w == Box(0.0, 0.0, 2.0, 1.0) && l == Box(0.0, 0.0, 1.0, 1.0) && r == Box(1.0, 0.0, 2.0, 1.0)
    ensures exists i, j :: Missed([whole], [left, right], 0.5, i, j)
  {
    HalfOverlaps(w, l, 0.0);
    HalfOverlaps(w, r, 1.0);
    TieMisses(whole, left, right, w, l, r);
  }

  lemma ApartHalves(whole: Grid, left: Grid, right: Grid, w: Box, l: Box, r: Box)
    requires whole.bbox == w && left.bbox == l && right.bbox == r
    requires w == Box(0.0, 0.0, 2.0, 1.0) && l == Box(0.0, 0.0, 1.0, 1.0) && r == Box(1.0, 0.0, 2.0, 1.0)
    ensures BoxesApart([whole]) && BoxesApart([left, right])
  {
    HalvesApart(l, r);
    OneApart(whole, w);
    TwoApart(left, right, l, r);
  }

  lemma OneApart(grid: Grid, box: Box)
    requires grid.bbox == box && Proper(box)
    ensures BoxesApart([grid])
  {
  }

  lemma TwoApart(left: Grid, right: Grid, l: Box, r: Box)
    requires left.bbox == l && right.bbox == r && Proper(l) && Proper(r) && Inter(l, r) == 0.0
    ensures BoxesApart([left, right])
  {
  }

  /** A box two wide and a half of it. */
  lemma HalfOverlaps(a: Box, b: Box, x: real)
    requires a == Box(0.0, 0.0, 2.0, 1.0) && b == Box(x, 0.0, x + 1.0, 1.0) && 0.0 <= x <= 1.0
    ensures IoU(a, b) == 0.5
  {
    HalfSizes(a, b, x);
    UnitProducts();
    Ratio(Inter(a, b), Area(a), Area(b));
  }

  lemma HalfSizes(a: Box, b: Box, x: real)
    requires a == Box(0.0, 0.0, 2.0, 1.0) && b == Box(x, 0.0, x + 1.0, 1.0) && 0.0 <= x <= 1.0
    ensures Common(a, b) == Size(1.0, 1.0) && Whole(a) == Size(2.0, 1.0) && Whole(b) == Size(1.0, 1.0)
  {
  }

  lemma UnitProducts()
    ensures Product(Size(1.0, 1.0)) == 1.0 && Product(Size(2.0, 1.0)) == 2.0
  {
  }

  lemma Ratio(inter: real, a: real, b: real)
    requires inter == 1.0 && a == 2.0 && b == 1.0
    ensures a + b - inter != 0.0 && inter / (a + b - inter) == 0.5
  {
  }

  lemma HalvesApart(a: Box, b: Box)
    requires a == Box(0.0, 0.0, 1.0, 1.0) && b == Box(1.0, 0.0, 2.0, 1.0)
    ensures Proper(a) && Proper(b) && Inter(a, b) == 0.0
  {
    assert Overlap(a.x0, a.x1, b.x0, b.x1) == 0.0;
  }

  lemma TieMisses(whole: Grid, left: Grid, right: Grid, w: Box, l: Box, r: Box)
    requires whole.bbox == w && left.bbox == l && right.bbox == r
    requires IoU(w, l) == 0.5 && IoU(w, r) == 0.5
    ensures exists i, j :: Missed([whole], [left, right], 0.5, i, j)
  {
    var ps, ss := [whole], [left, right];
    assert IoU(ps[0].bbox, ss[0].bbox) == 0.5 && IoU(ps[0].bbox, ss[1].bbox) == 0.5;
    HalfTieMissesAPair(ps, ss);
  }

  // ------------------------------------------------------------------ every grid reported exactly once

  /** The one report of primary grid i is number i, and no later report names a primary grid. */
  lemma PrimaryReportedOnce(primary: seq<Grid>, secondary: seq<Grid>, t: Thresholds)
    ensures var r := Report(primary, secondary, t);
      && |primary| <= |r|
      && (forall i :: 0 <= i < |primary| ==> r[i].primaryOrdinal == Some(primary[i].ordinal))
      && (forall i :: |primary| <= i < |r| ==> r[i].primaryOrdinal.None?)
  {
    LeftOverNames(secondary, UsedBy(Greedy(primary, secondary, t.minOverlap), secondary));
  }

  lemma {:induction false} LeftOverNames(secondary: seq<Grid>, used: set<int>)
    ensures forall i :: 0 <= i < |LeftOver(secondary, used)| ==>
      LeftOver(secondary, used)[i].primaryOrdinal.None? && LeftOver(secondary, used)[i].secondaryOrdinal.Some?
      && LeftOver(secondary, used)[i].secondaryOrdinal.value !in used
    decreases |secondary|
  {
    if secondary != [] { LeftOverNames(secondary[..|secondary| - 1], used); }
  }

  ghost predicate HasOrdinal(grids: seq<Grid>, ordinal: int) {
    exists j :: 0 <= j < |grids| && grids[j].ordinal == ordinal
  }

  lemma HasOrdinalSnoc(grids: seq<Grid>, ordinal: int)
    requires grids != [] && DistinctOrdinals(grids)
    ensures var n := |grids| - 1;
      && (HasOrdinal(grids, ordinal) <==> HasOrdinal(grids[..n], ordinal) || grids[n].ordinal == ordinal)
      && !(HasOrdinal(grids[..n], ordinal) && grids[n].ordinal == ordinal)
      && DistinctOrdinals(grids[..n])
  {
    var n := |grids| - 1;
    if j :| 0 <= j < |grids| && grids[j].ordinal == ordinal {
      if j < n { assert grids[..n][j].ordinal == ordinal; }
    }
  }

  lemma {:induction false} LeftOverOnce(secondary: seq<Grid>, used: set<int>, ordinal: int)
    requires DistinctOrdinals(secondary) && ordinal !in used
    ensures |Naming(LeftOver(secondary, used), ordinal)| == if HasOrdinal(secondary, ordinal) then 1 else 0
    decreases |secondary|
  {
    if secondary != [] {
      var n := |secondary| - 1;
      HasOrdinalSnoc(secondary, ordinal);
      LeftOverOnce(secondary[..n], used, ordinal);
      NamingAppend(LeftOver(secondary[..n], used),
                   if secondary[n].ordinal in used then [] else [LeftOverReport(secondary[n])], ordinal);
    }
  }

  /** The reports that name a secondary ordinal, in order. */
  ghost function Naming(reports: seq<Agreement>, ordinal: int): seq<Agreement> {
    if reports == [] then []
    else
      var n := |reports| - 1;
      Naming(reports[..n], ordinal) + (if reports[n].secondaryOrdinal == Some(ordinal) then [reports[n]] else [])
  }

  lemma {:induction false} NamingAppend(a: seq<Agreement>, b: seq<Agreement>, ordinal: int)
    ensures Naming(a + b, ordinal) == Naming(a, ordinal) + Naming(b, ordinal)
    decreases |b|
  {
    if b == [] {
      assert a + b == a;
    } else {
      var n := |b| - 1;
      NamingAppend(a, b[..n], ordinal);
      assert (a + b)[..|a| + n] == a + b[..n];
    }
  }

  lemma {:induction false} NoneNames(reports: seq<Agreement>, ordinal: int)
    requires forall i :: 0 <= i < |reports| ==> reports[i].secondaryOrdinal != Some(ordinal)
    ensures Naming(reports, ordinal) == []
  {
    if reports != [] { NoneNames(reports[..|reports| - 1], ordinal); }
  }

  /** Reports that name the ordinals of distinct choices name each chosen ordinal once. */
  lemma {:induction false} PairsNameOnce(reports: seq<Agreement>, choices: seq<Option<nat>>, secondary: seq<Grid>,
        ordinal: int)
    requires |reports| == |choices| && ChoicesInto(choices, secondary)
    requires forall i :: 0 <= i < |choices| ==> reports[i].secondaryOrdinal == OrdinalOf(choices[i], secondary)
    requires forall i, k :: 0 <= i < k < |choices| && choices[i].Some? && choices[k].Some? ==>
      OrdinalOf(choices[i], secondary) != OrdinalOf(choices[k], secondary)
    ensures |Naming(reports, ordinal)| == if ordinal in UsedBy(choices, secondary) then 1 else 0
    decreases |reports|
  {
    if reports != [] {
      var n := |reports| - 1;
      PairsNameOnce(reports[..n], choices[..n], secondary, ordinal);
      UsedBySnoc(choices[..n], choices[n], secondary);
      assert choices[..n] + [choices[n]] == choices;
    }
  }

  ghost function OrdinalOf(choice: Option<nat>, secondary: seq<Grid>): Option<int>
    requires choice.Some? ==> choice.value < |secondary|
  {
    if choice.Some? then Some(secondary[choice.value].ordinal) else None
  }

  lemma PairReportNames(p: Grid, choice: Option<nat>, secondary: seq<Grid>, t: Thresholds)
    requires choice.Some? ==> choice.value < |secondary|
    ensures PairReport(p, choice, secondary, t).primaryOrdinal == Some(p.ordinal)
    ensures PairReport(p, choice, secondary, t).secondaryOrdinal == OrdinalOf(choice, secondary)
  {
  }

  /** Whatever the boxes, every secondary grid is named by exactly one report. */
  lemma SecondaryReportedOnce(primary: seq<Grid>, secondary: seq<Grid>, t: Thresholds, j: nat)
    requires DistinctOrdinals(secondary) && j < |secondary|
    ensures |Naming(Report(primary, secondary, t), secondary[j].ordinal)| == 1
  {
    var o := secondary[j].ordinal;
    var c := Greedy(primary, secondary, t.minOverlap);
    var used := UsedBy(c, secondary);
    var pairs := PairReports(primary, c, secondary, t);
    forall i | 0 <= i < |c| ensures pairs[i].secondaryOrdinal == OrdinalOf(c[i], secondary) {
      PairReportNames(primary[i], c[i], secondary, t);
    }
    forall i, k | 0 <= i < k < |c| && c[i].Some? && c[k].Some?
      ensures OrdinalOf(c[i], secondary) != OrdinalOf(c[k], secondary)
    {
      GreedyTakesOnce(primary, secondary, t.minOverlap, i, k);
    }
    PairsNameOnce(pairs, c, secondary, o);
    NamingAppend(PairReports(primary, c, secondary, t), LeftOver(secondary, used), o);
    if o in used {
      LeftOverNames(secondary, used);
      NoneNames(LeftOver(secondary, used), o);
    } else {
      LeftOverOnce(secondary, used, o);
    }
  }
}
