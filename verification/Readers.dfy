/** Two readers of one page: overlap of boxes, greedy pairing of grids, comparison of cells. */
module Readers {
  import opened Basics
  import opened Text

  // ------------------------------------------------------------------ boxes

  datatype Box = Box(x0: real, y0: real, x1: real, y1: real)

  function Max(a: real, b: real): real { if a < b then b else a }
  function Min(a: real, b: real): real { if b < a then b else a }

  function Side(a0: real, a1: real): real { Max(0.0, a1 - a0) }

  /** Length of the common part of two intervals. */
  function Overlap(a0: real, a1: real, b0: real, b1: real): real { Side(Max(a0, b0), Min(a1, b1)) }

  datatype Size = Size(w: real, h: real)

  function Product(z: Size): real { z.w * z.h }

  function Common(a: Box, b: Box): Size { Size(Overlap(a.x0, a.x1, b.x0, b.x1), Overlap(a.y0, a.y1, b.y0, b.y1)) }

  function Whole(a: Box): Size { Size(Side(a.x0, a.x1), Side(a.y0, a.y1)) }

  function Inter(a: Box, b: Box): real { Product(Common(a, b)) }

  function Area(a: Box): real { Product(Whole(a)) }

  function IoU(a: Box, b: Box): real {
    var inter := Inter(a, b);
    if inter == 0.0 then 0.0
    else
      var union := Area(a) + Area(b) - inter;
      if union != 0.0 then inter / union else 0.0
  }

  predicate Proper(a: Box) { a.x0 < a.x1 && a.y0 < a.y1 }

  lemma MulMono(a: real, b: real, c: real, d: real)
    requires 0.0 <= a <= c && 0.0 <= b <= d
    ensures a * b <= c * d
    ensures 0.0 <= a * b
  {
    assert a * b <= c * b;
    assert c * b <= c * d;
  }

  lemma OverlapSymmetric(a0: real, a1: real, b0: real, b1: real)
    ensures Overlap(a0, a1, b0, b1) == Overlap(b0, b1, a0, a1)
  {
  }

  lemma InterSymmetric(a: Box, b: Box)
    ensures Inter(a, b) == Inter(b, a)
  {
    OverlapSymmetric(a.x0, a.x1, b.x0, b.x1);
    OverlapSymmetric(a.y0, a.y1, b.y0, b.y1);
  }

  lemma IoUSymmetric(a: Box, b: Box)
    ensures IoU(a, b) == IoU(b, a)
  {
    InterSymmetric(a, b);
  }

  lemma OverlapBound(p0: real, p1: real, s0: real, s1: real)
    requires p0 < p1
    ensures 0.0 <= Overlap(p0, p1, s0, s1) <= Side(p0, p1)
  {
  }

  /** Two intervals without common length share out at most the whole of a third. */
  lemma OverlapShares(p0: real, p1: real, s0: real, s1: real, t0: real, t1: real)
    requires p0 < p1 && s0 < s1 && t0 < t1 && Overlap(s0, s1, t0, t1) == 0.0
    ensures Overlap(p0, p1, s0, s1) + Overlap(p0, p1, t0, t1) <= Side(p0, p1)
  {
  }

  lemma Distribute(a: real, b: real, c: real)
    ensures (a + b) * c == a * c + b * c
  {
  }

  lemma AddUp(p: real, q: real, a: real, b: real, sum: real, c: real)
    requires p <= a && q <= b && sum == a + b && sum <= c
    ensures p + q <= c
  {
  }

  lemma ShareProducts(w1: real, w2: real, w: real, h1: real, h2: real, h: real)
    requires 0.0 <= w1 && 0.0 <= w2 && 0.0 <= h1 <= h && 0.0 <= h2 <= h && w1 + w2 <= w
    ensures w1 * h1 + w2 * h2 <= w * h
  {
    MulMono(w1, h1, w1, h);
    MulMono(w2, h2, w2, h);
    MulMono(w1 + w2, h, w, h);
    Distribute(w1, w2, h);
    AddUp(w1 * h1, w2 * h2, w1 * h, w2 * h, (w1 + w2) * h, w * h);
  }

  ghost predicate Fits(z: Size, whole: Size) { 0.0 <= z.w <= whole.w && 0.0 <= z.h <= whole.h }

  ghost predicate Share(z1: Size, z2: Size, whole: Size) { z1.w + z2.w <= whole.w || z1.h + z2.h <= whole.h }

  lemma SharedProducts(z1: Size, z2: Size, whole: Size)
    requires Fits(z1, whole) && Fits(z2, whole) && Share(z1, z2, whole)
    ensures Product(z1) + Product(z2) <= Product(whole)
  {
    if z1.w + z2.w <= whole.w {
      ShareProducts(z1.w, z2.w, whole.w, z1.h, z2.h, whole.h);
    } else {
      ShareProducts(z1.h, z2.h, whole.h, z1.w, z2.w, whole.w);
    }
  }

  lemma FitsProduct(z: Size, whole: Size)
    requires Fits(z, whole)
    ensures 0.0 <= Product(z) <= Product(whole)
  {
    MulMono(z.w, z.h, whole.w, whole.h);
  }

  /** Boxes without common area are apart on one axis at least. */
  predicate Apart(s: Box, t: Box) {
    Overlap(s.x0, s.x1, t.x0, t.x1) == 0.0 || Overlap(s.y0, s.y1, t.y0, t.y1) == 0.0
  }

  lemma NoCommonArea(s: Box, t: Box)
    ensures Inter(s, t) == 0.0 <==> Apart(s, t)
  {
  }

  lemma CommonFits(p: Box, s: Box)
    requires Proper(p)
    ensures Fits(Common(p, s), Whole(p))
  {
    OverlapBound(p.x0, p.x1, s.x0, s.x1);
    OverlapBound(p.y0, p.y1, s.y0, s.y1);
  }

  lemma ApartSpans(p: Box, s: Box, t: Box)
    requires Proper(p) && Proper(s) && Proper(t) && Apart(s, t)
    ensures Share(Common(p, s), Common(p, t), Whole(p))
  {
    if Overlap(s.x0, s.x1, t.x0, t.x1) == 0.0 {
      OverlapShares(p.x0, p.x1, s.x0, s.x1, t.x0, t.x1);
    } else {
      OverlapShares(p.y0, p.y1, s.y0, s.y1, t.y0, t.y1);
    }
  }

  /** Two boxes with no area in common take at most the whole of a third between them. */
  lemma ApartShares(p: Box, s: Box, t: Box)
    requires Proper(p) && Proper(s) && Proper(t) && Apart(s, t)
    ensures Inter(p, s) + Inter(p, t) <= Area(p)
  {
    CommonFits(p, s);
    CommonFits(p, t);
    ApartSpans(p, s, t);
    SharedProducts(Common(p, s), Common(p, t), Whole(p));
  }

  /** The common part of two boxes is no larger than the first, which has some area. */
  lemma InterBound(a: Box, b: Box)
    requires Proper(a)
    ensures 0.0 <= Inter(a, b) <= Area(a) && 0.0 < Area(a)
  {
    CommonFits(a, b);
    FitsProduct(Common(a, b), Whole(a));
    SolidProduct(Whole(a));
  }

  lemma SolidProduct(z: Size)
    requires 0.0 < z.w && 0.0 < z.h
    ensures 0.0 < Product(z)
  {
  }

  lemma HalfQuotient(i: real, u: real)
    requires u > 0.0 && i / u >= 0.5
    ensures 2.0 * i >= u
  {
    MulMono(0.5, u, i / u, u);
    assert i / u * u == i;
  }

  /** An IoU of at least one half means the common part is at least half the union. */
  lemma HalfIoU(a: Box, b: Box)
    requires Proper(a) && Proper(b) && IoU(a, b) >= 0.5
    ensures 2.0 * Inter(a, b) >= Area(a) + Area(b) - Inter(a, b) > 0.0
    ensures IoU(a, b) == Inter(a, b) / (Area(a) + Area(b) - Inter(a, b))
  {
    InterBound(a, b);
    InterBound(b, a);
    InterSymmetric(a, b);
    HalfQuotient(Inter(a, b), Area(a) + Area(b) - Inter(a, b));
  }

  /** The area argument: a box can reach one half with two disjoint boxes only by being cut exactly in two. */
  lemma TwoPartnersAreHalves(p: Box, s: Box, t: Box)
    requires Proper(p) && Proper(s) && Proper(t) && Inter(s, t) == 0.0
    requires IoU(p, s) >= 0.5 && IoU(p, t) >= 0.5
    ensures IoU(p, s) == 0.5 && IoU(p, t) == 0.5
  {
    NoCommonArea(s, t);
    ApartShares(p, s, t);
    PartnerAreas(p, s);
    PartnerAreas(p, t);
    PartnerIsHalf(p, s, Inter(p, t));
    PartnerIsHalf(p, t, Inter(p, s));
  }

  lemma PartnerAreas(p: Box, s: Box)
    requires Proper(p) && Proper(s) && IoU(p, s) >= 0.5
    ensures 2.0 * Inter(p, s) >= Area(p)
  {
    HalfIoU(p, s);
    InterBound(s, p);
    InterSymmetric(p, s);
  }

  lemma PartnerIsHalf(p: Box, s: Box, other: real)
    requires Proper(p) && Proper(s) && IoU(p, s) >= 0.5
    requires Inter(p, s) + other <= Area(p) && 2.0 * other >= Area(p)
    ensures IoU(p, s) == 0.5
  {
    HalfIoU(p, s);
    InterBound(s, p);
    InterSymmetric(p, s);
    HalvesArithmetic(Inter(p, s), Area(p), Area(s), other);
    ExactHalf(Inter(p, s), Area(p) + Area(s) - Inter(p, s));
  }

  lemma HalvesArithmetic(i: real, p: real, s: real, other: real)
    requires i + other <= p && 2.0 * other >= p && i <= s && 2.0 * i >= p + s - i
    ensures 2.0 * i == p + s - i
  {
  }

  lemma ExactHalf(i: real, u: real)
    requires u > 0.0 && 2.0 * i == u
    ensures i / u == 0.5
  {
  }

  // ------------------------------------------------------------------ grids

  datatype Grid = Grid(page: int, ordinal: int, bbox: Box, rows: seq<seq<string>>, headerRows: nat)

  function Width(rows: seq<seq<string>>): (w: nat)
    ensures forall i :: 0 <= i < |rows| ==> |rows[i]| <= w
  {
    if rows == [] then 0
    else
      var w := Width(rows[1..]);
      if |rows[0]| > w then |rows[0]| else w
  }

  predicate IsEmpty(rows: seq<seq<string>>) { forall r :: r in rows ==> !RowUsed(r) }

  function Pad(row: seq<string>, w: nat): (r: seq<string>)
    requires |row| <= w
    ensures |r| == w
  {
    row + seq(w - |row|, _ => "")
  }

  function CleanRow(row: seq<string>): (r: seq<string>)
    ensures |r| == |row|
  {
    seq(|row|, i requires 0 <= i < |row| => Clean(row[i]))
  }

  predicate Rectangular(rows: seq<seq<string>>, w: nat) { forall i :: 0 <= i < |rows| ==> |rows[i]| == w }

  predicate ColumnUsed(rows: seq<seq<string>>, c: nat) { exists r :: r in rows && c < |r| && r[c] != "" }

  predicate RowUsed(row: seq<string>) { exists k :: 0 <= k < |row| && row[k] != "" }

  /** Column numbers below a width. */
  predicate Below(cols: seq<nat>, w: nat) { forall i :: 0 <= i < |cols| ==> cols[i] < w }

  /** The columns below `w` that hold some text, left to right. */
  function UsedColumns(rows: seq<seq<string>>, w: nat): (cols: seq<nat>)
    ensures Below(cols, w)
  {
    if w == 0 then []
    else UsedColumns(rows, w - 1) + (if ColumnUsed(rows, w - 1) then [w - 1] else [])
  }

  lemma {:induction false} UsedColumnsExact(rows: seq<seq<string>>, w: nat, c: nat)
    ensures c in UsedColumns(rows, w) <==> c < w && ColumnUsed(rows, c)
  {
    if w > 0 { UsedColumnsExact(rows, w - 1, c); }
  }

  function Pick(row: seq<string>, cols: seq<nat>): (r: seq<string>)
    requires Below(cols, |row|)
    ensures |r| == |cols| && forall i :: 0 <= i < |r| ==> r[i] == row[cols[i]]
  {
    seq(|cols|, i requires 0 <= i < |cols| => row[cols[i]])
  }

  function PickRows(rows: seq<seq<string>>, cols: seq<nat>, w: nat): (out: seq<seq<string>>)
    requires Rectangular(rows, w) && Below(cols, w)
    ensures |out| <= |rows| && Rectangular(out, |cols|)
  {
    if rows == [] then []
    else (if RowUsed(rows[0]) then [Pick(rows[0], cols)] else []) + PickRows(rows[1..], cols, w)
  }

  function CleanRows(rows: seq<seq<string>>, w: nat): (out: seq<seq<string>>)
    requires forall i :: 0 <= i < |rows| ==> |rows[i]| <= w
    ensures |out| == |rows| && Rectangular(out, w)
  {
    seq(|rows|, i requires 0 <= i < |rows| => Pad(CleanRow(rows[i]), w))
  }

  lemma WidthRectangular(rows: seq<seq<string>>, w: nat)
    requires Rectangular(rows, w) && rows != []
    ensures Width(rows) == w
  {
    if |rows| > 1 { WidthRectangular(rows[1..], w); }
  }

  function NormalRows(rows: seq<seq<string>>): (out: seq<seq<string>>)
    ensures |out| <= |rows| && Rectangular(out, Width(out))
  {
    var w := Width(rows);
    var cleaned := CleanRows(rows, w);
    var cols := UsedColumns(cleaned, w);
    var out := PickRows(cleaned, cols, w);
    assert out != [] ==> Width(out) == |cols| by { if out != [] { WidthRectangular(out, |cols|); } }
    out
  }

  function Normalised(g: Grid): Grid {
    var rows := NormalRows(g.rows);
    g.(rows := rows, headerRows := if g.headerRows < |rows| then g.headerRows else |rows|)
  }

  ghost predicate RowClean(row: seq<string>) { forall k :: 0 <= k < |row| ==> IsClean(row[k]) }

  /** What normalising leaves: clean cells, one width, and no row or column without text. */
  ghost predicate Normal(rows: seq<seq<string>>) {
    && Rectangular(rows, Width(rows))
    && (forall r :: r in rows ==> RowUsed(r) && RowClean(r))
    && (forall c :: 0 <= c < Width(rows) ==> ColumnUsed(rows, c))
  }

  lemma {:induction false} PickedRow(rows: seq<seq<string>>, cols: seq<nat>, w: nat, r: seq<string>)
    requires Rectangular(rows, w) && Below(cols, w)
    requires r in rows && RowUsed(r)
    ensures Pick(r, cols) in PickRows(rows, cols, w)
  {
    if rows[0] != r { PickedRow(rows[1..], cols, w, r); }
  }

  lemma {:induction false} RowOfPick(rows: seq<seq<string>>, cols: seq<nat>, w: nat, q: seq<string>)
    returns (r: seq<string>)
    requires Rectangular(rows, w) && Below(cols, w)
    requires q in PickRows(rows, cols, w)
    ensures r in rows && RowUsed(r) && q == Pick(r, cols)
  {
    if RowUsed(rows[0]) && q == Pick(rows[0], cols) {
      r := rows[0];
    } else {
      r := RowOfPick(rows[1..], cols, w, q);
    }
  }

  // ------------------------------------------------------------------ what a normalised table keeps

  predicate RisingNats(ks: seq<nat>) { forall i, j :: 0 <= i < j < |ks| ==> ks[i] < ks[j] }

  /** The cleaned text of a cell; a short row has no text beyond its end. */
  function TextAt(rows: seq<seq<string>>, r: nat, c: nat): string {
    if r < |rows| && c < |rows[r]| then Clean(rows[r][c]) else ""
  }

  ghost predicate RowHolds(rows: seq<seq<string>>, r: nat) { exists c: nat :: TextAt(rows, r, c) != "" }

  ghost predicate ColumnHolds(rows: seq<seq<string>>, c: nat) { exists r: nat :: TextAt(rows, r, c) != "" }

  /** The rows among the first n that hold some text. */
  function UsedRows(rows: seq<seq<string>>, n: nat): (keep: seq<nat>)
    requires n <= |rows|
    ensures Below(keep, n)
  {
    if n == 0 then [] else UsedRows(rows, n - 1) + (if RowUsed(rows[n - 1]) then [n - 1] else [])
  }

  lemma {:induction false} UsedRowsExact(rows: seq<seq<string>>, n: nat, r: nat)
    requires n <= |rows|
    ensures r in UsedRows(rows, n) <==> r < n && RowUsed(rows[r])
  {
    if n > 0 { UsedRowsExact(rows, n - 1, r); }
  }

  lemma {:induction false} UsedRowsRise(rows: seq<seq<string>>, n: nat)
    requires n <= |rows|
    ensures RisingNats(UsedRows(rows, n))
  {
    if n > 0 { UsedRowsRise(rows, n - 1); }
  }

  lemma {:induction false} UsedColumnsRise(rows: seq<seq<string>>, w: nat)
    ensures RisingNats(UsedColumns(rows, w))
  {
    if w > 0 { UsedColumnsRise(rows, w - 1); }
  }

  lemma {:induction false} PickRowsSnoc(rows: seq<seq<string>>, r: seq<string>, cols: seq<nat>, w: nat)
    requires Rectangular(rows + [r], w) && Rectangular(rows, w) && |r| == w && Below(cols, w)
    ensures PickRows(rows + [r], cols, w) == PickRows(rows, cols, w) + (if RowUsed(r) then [Pick(r, cols)] else [])
  {
    if rows == [] {
      assert ([] + [r])[1..] == [];
    } else {
      assert (rows + [r])[1..] == rows[1..] + [r];
      PickRowsSnoc(rows[1..], r, cols, w);
    }
  }

  lemma {:induction false} KeptRows(rows: seq<seq<string>>, cols: seq<nat>, w: nat, n: nat)
    requires Rectangular(rows, w) && Below(cols, w) && n <= |rows|
    ensures |PickRows(rows[..n], cols, w)| == |UsedRows(rows, n)|
    ensures forall i :: 0 <= i < |UsedRows(rows, n)| ==>
      PickRows(rows[..n], cols, w)[i] == Pick(rows[UsedRows(rows, n)[i]], cols)
  {
    if n > 0 {
      KeptRows(rows, cols, w, n - 1);
      assert rows[..n] == rows[..n - 1] + [rows[n - 1]];
      PickRowsSnoc(rows[..n - 1], rows[n - 1], cols, w);
    }
  }

  /** A cell of the cleaned and padded rows. */
  lemma CleanRowsAt(rows: seq<seq<string>>, w: nat, r: nat, c: nat)
    requires (forall i :: 0 <= i < |rows| ==> |rows[i]| <= w) && r < |rows| && c < w
    ensures CleanRows(rows, w)[r][c] == TextAt(rows, r, c)
  {
  }

  lemma HeldRow(rows: seq<seq<string>>, r: nat)
    ensures RowHolds(rows, r) <==> r < |rows| && RowUsed(CleanRows(rows, Width(rows))[r])
  {
    var w := Width(rows);
    if c: nat :| TextAt(rows, r, c) != "" { CleanRowsAt(rows, w, r, c); }
    if r < |rows| && RowUsed(CleanRows(rows, w)[r]) {
      var c :| 0 <= c < w && CleanRows(rows, w)[r][c] != "";
      CleanRowsAt(rows, w, r, c);
    }
  }

  lemma HeldColumn(rows: seq<seq<string>>, c: nat)
    ensures ColumnHolds(rows, c) <==> c < Width(rows) && ColumnUsed(CleanRows(rows, Width(rows)), c)
  {
    var w := Width(rows);
    if r: nat :| TextAt(rows, r, c) != "" {
      CleanRowsAt(rows, w, r, c);
      assert CleanRows(rows, w)[r] in CleanRows(rows, w);
    }
    if c < w && ColumnUsed(CleanRows(rows, w), c) {
      var r :| 0 <= r < |rows| && CleanRows(rows, w)[r][c] != "";
      CleanRowsAt(rows, w, r, c);
    }
  }

  /** The rows and the columns of a table that hold some text. */
  function HeldRows(rows: seq<seq<string>>): seq<nat> { UsedRows(CleanRows(rows, Width(rows)), |rows|) }

  function HeldColumns(rows: seq<seq<string>>): seq<nat> { UsedColumns(CleanRows(rows, Width(rows)), Width(rows)) }

  lemma HeldExactly(rows: seq<seq<string>>)
    ensures RisingNats(HeldRows(rows)) && forall r: nat :: r in HeldRows(rows) <==> RowHolds(rows, r)
    ensures RisingNats(HeldColumns(rows)) && forall c: nat :: c in HeldColumns(rows) <==> ColumnHolds(rows, c)
  {
    var w := Width(rows);
    var cleaned := CleanRows(rows, w);
    UsedRowsRise(cleaned, |rows|);
    UsedColumnsRise(cleaned, w);
    forall r: nat ensures r in HeldRows(rows) <==> RowHolds(rows, r) {
      UsedRowsExact(cleaned, |rows|, r);
      HeldRow(rows, r);
    }
    forall c: nat ensures c in HeldColumns(rows) <==> ColumnHolds(rows, c) {
      UsedColumnsExact(cleaned, w, c);
      HeldColumn(rows, c);
    }
  }

  /** Normalising keeps exactly the rows and columns that hold some text, in order, and in their
      cells the cleaned text. */
  lemma NormalisedKeeps(rows: seq<seq<string>>) returns (keep: seq<nat>, cols: seq<nat>)
    ensures var n := NormalRows(rows); |keep| == |n| && (n != [] ==> |cols| == Width(n))
    ensures RisingNats(keep) && forall r: nat :: r in keep <==> RowHolds(rows, r)
    ensures RisingNats(cols) && forall c: nat :: c in cols <==> ColumnHolds(rows, c)
    ensures forall i, j :: 0 <= i < |keep| && 0 <= j < |cols| ==>
      NormalRows(rows)[i][j] == TextAt(rows, keep[i], cols[j])
  {
    var w := Width(rows);
    var cleaned := CleanRows(rows, w);
    keep, cols := HeldRows(rows), HeldColumns(rows);
    HeldExactly(rows);
    assert cleaned[..|rows|] == cleaned;
    KeptRows(cleaned, cols, w, |rows|);
    if NormalRows(rows) != [] { WidthRectangular(NormalRows(rows), |cols|); }
    forall i, j | 0 <= i < |keep| && 0 <= j < |cols| ensures NormalRows(rows)[i][j] == TextAt(rows, keep[i], cols[j]) {
      CleanRowsAt(rows, w, keep[i], cols[j]);
    }
  }

  lemma NormalisedIsNormal(rows: seq<seq<string>>)
    ensures Normal(NormalRows(rows))
  {
    var w := Width(rows);
    var cleaned := CleanRows(rows, w);
    var cols := UsedColumns(cleaned, w);
    var out := NormalRows(rows);
    forall q | q in out ensures RowUsed(q) && RowClean(q) {
      var r := RowOfPick(cleaned, cols, w, q);
      UsedRowSurvives(cleaned, w, r);
      CleanRowsClean(rows, w, r);
    }
    if out != [] { WidthRectangular(out, |cols|); }
    forall c | 0 <= c < Width(out) ensures ColumnUsed(out, c) { ColumnSurvives(cleaned, w, c); }
  }

  lemma ColumnSurvives(rows: seq<seq<string>>, w: nat, c: nat)
    requires Rectangular(rows, w) && c < |UsedColumns(rows, w)|
    ensures ColumnUsed(PickRows(rows, UsedColumns(rows, w), w), c)
  {
    var cols := UsedColumns(rows, w);
    UsedColumnsExact(rows, w, cols[c]);
    var r :| r in rows && cols[c] < |r| && r[cols[c]] != "";
    PickedRow(rows, cols, w, r);
    assert Pick(r, cols)[c] != "";
  }

  lemma UsedRowSurvives(rows: seq<seq<string>>, w: nat, r: seq<string>)
    requires Rectangular(rows, w) && r in rows && RowUsed(r)
    ensures RowUsed(Pick(r, UsedColumns(rows, w)))
  {
    var cols := UsedColumns(rows, w);
    var k :| 0 <= k < |r| && r[k] != "";
    UsedColumnsExact(rows, w, k);
    assert ColumnUsed(rows, k);
    var i :| 0 <= i < |cols| && cols[i] == k;
    assert Pick(r, cols)[i] != "";
  }

  lemma CleanRowsClean(rows: seq<seq<string>>, w: nat, r: seq<string>)
    requires (forall i :: 0 <= i < |rows| ==> |rows[i]| <= w) && r in CleanRows(rows, w)
    ensures RowClean(r)
  {
    var i :| 0 <= i < |rows| && r == Pad(CleanRow(rows[i]), w);
    forall k | 0 <= k < w ensures IsClean(r[k]) {
      if k < |rows[i]| { CleanIsClean(rows[i][k]); }
    }
  }

  lemma UsedColumnsAll(rows: seq<seq<string>>, w: nat)
    requires forall c :: 0 <= c < w ==> ColumnUsed(rows, c)
    ensures UsedColumns(rows, w) == seq(w, i => i)
  {
    if w > 0 {
      UsedColumnsAll(rows, w - 1);
      assert ColumnUsed(rows, w - 1);
    }
  }

  lemma {:induction false} PickAll(rows: seq<seq<string>>, w: nat)
    requires Rectangular(rows, w) && forall r :: r in rows ==> RowUsed(r)
    ensures PickRows(rows, seq(w, i => i), w) == rows
  {
    if rows != [] {
      PickAll(rows[1..], w);
      assert Pick(rows[0], seq(w, i => i)) == rows[0];
    }
  }

  /** Normalising again changes nothing. */
  lemma NormalIsFixed(rows: seq<seq<string>>)
    requires Normal(rows)
    ensures NormalRows(rows) == rows
  {
    var w := Width(rows);
    forall i | 0 <= i < |rows| ensures Pad(CleanRow(rows[i]), w) == rows[i] {
      assert RowClean(rows[i]);
      forall k | 0 <= k < w ensures CleanRow(rows[i])[k] == rows[i][k] { CleanFixed(rows[i][k]); }
    }
    assert CleanRows(rows, w) == rows;
    UsedColumnsAll(rows, w);
    PickAll(rows, w);
  }

  lemma NormalisedIdempotent(g: Grid)
    ensures Normalised(Normalised(g)) == Normalised(g)
  {
    NormalisedIsNormal(g.rows);
    NormalIsFixed(NormalRows(g.rows));
  }
}
