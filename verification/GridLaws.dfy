/** What a cell of a grid carries: the headings over its column, the labels and the level of its row, its value
    and its flags, each told by the printed rows themselves. */
module GridLaws {
  import opened Basics
  import opened Readers
  import opened Sorting
  import opened GridColumns
  import opened ColumnLaws
  import opened GridIntegrity
  import opened GridCitations

  // ------------------------------------------------------------------ the merged text is the printed one

  /** Where a merged cell has a text, one of its columns prints it, and whatever one of them prints is that text. */
  lemma MergedIsPrinted(g: Input, r: nat, c: nat)
    requires r < |g.rows| == |MergedGrid(g).0| && c < |MergedGrid(g).1|
      && Rectangular(MergedGrid(g).0, |MergedGrid(g).1|)
    ensures var (rows, groups) := MergedGrid(g);
      && (rows[r][c] != "" ==> exists o :: o in groups[c] && PrintedText(g.rows[r], o) == rows[r][c])
      && forall o :: o in groups[c] && PrintedText(g.rows[r], o) != "" ==> PrintedText(g.rows[r], o) == rows[r][c]
  {
    var (rows, groups) := MergedGrid(g);
    MergedGridShape(g);
    GridTiles(g);
    MergedRowBuilt(g, r);
    MergedPrinted(g.rows[r], Width(g.rows), groups, rows[r], c);
    OwnInGroup(g.rows[r], groups[c]);
    forall o | o in groups[c] && PrintedText(g.rows[r], o) != "" ensures PrintedText(g.rows[r], o) == rows[r][c] {
      PrintedMerged(g.rows[r], Width(g.rows), groups, rows[r], c, o);
    }
  }

  // ------------------------------------------------------------------ the labels that hold at a row

  /** Row p is one of the first t rows and not a divider. */
  ghost predicate Counts(x: Context, p: int, t: nat)
    requires x.Valid() && t <= |x.layout.rows|
  {
    0 <= p < t && !IsDivider(x.rules, x.layout.rows[p])
  }

  /** The text of row p and label column j. */
  function Own(x: Context, j: nat, p: nat): string
    requires x.Valid() && j < |x.layout.labels| && p < |x.layout.rows|
  {
    x.layout.rows[p][x.layout.labels[j]]
  }

  /** The text of row p in label column j still holds after the first t rows: since then neither that column nor
      a label column to its left has had another. */
  ghost predicate Holds(x: Context, j: nat, t: nat, p: nat)
    requires x.Valid() && j < |x.layout.labels| && t <= |x.layout.rows|
  {
    && Counts(x, p, t) && Own(x, j, p) != ""
    && forall i, q :: 0 <= i <= j && p < q && Counts(x, q, t) ==> Own(x, i, q) == ""
  }

  /** Neither that column nor one to its left has had any. */
  ghost predicate Untouched(x: Context, j: nat, t: nat)
    requires x.Valid() && j < |x.layout.labels| && t <= |x.layout.rows|
  {
    forall i, q :: 0 <= i <= j && Counts(x, q, t) ==> Own(x, i, q) == ""
  }

  /** The label that holds: the text that still does, or what the grid was handed while nothing was printed. */
  ghost predicate LabelIs(x: Context, j: nat, t: nat, text: string)
    requires x.Valid() && j < |x.layout.labels| && t <= |x.layout.rows|
  {
    && (forall p: nat :: Holds(x, j, t, p) ==> text == Own(x, j, p))
    && (Untouched(x, j, t) ==> text == x.labels0[j])
    && ((forall p: nat :: !Holds(x, j, t, p)) && !Untouched(x, j, t) ==> text == "")
  }

  lemma {:induction false} AnyLabelIs(row: Row, labels: seq<nat>, j: nat)
    requires Below(labels, |row|) && j <= |labels|
    ensures AnyLabel(row, labels, j) <==> exists i :: 0 <= i < j && row[labels[i]] != ""
  {
    if j > 0 { AnyLabelIs(row, labels, j - 1); }
  }

  /** A divider changes nothing. */
  lemma LabelOverDivider(x: Context, j: nat, t: nat, text: string)
    requires x.Valid() && j < |x.layout.labels| && t < |x.layout.rows|
    requires IsDivider(x.rules, x.layout.rows[t]) && LabelIs(x, j, t, text)
    ensures LabelIs(x, j, t + 1, text)
  {
    forall p: nat ensures Holds(x, j, t + 1, p) <==> Holds(x, j, t, p) { HoldsOverDivider(x, j, t, p); }
    HoldsOverDivider(x, j, t, 0);
  }

  lemma HoldsOverDivider(x: Context, j: nat, t: nat, p: nat)
    requires x.Valid() && j < |x.layout.labels| && t < |x.layout.rows| && IsDivider(x.rules, x.layout.rows[t])
    ensures Holds(x, j, t + 1, p) <==> Holds(x, j, t, p)
    ensures Untouched(x, j, t + 1) <==> Untouched(x, j, t)
  {
    forall q ensures Counts(x, q, t + 1) <==> Counts(x, q, t) { }
  }

  /** A text of its own takes over. */
  lemma LabelOverOwn(x: Context, j: nat, t: nat)
    requires x.Valid() && j < |x.layout.labels| && t < |x.layout.rows|
    requires !IsDivider(x.rules, x.layout.rows[t]) && Own(x, j, t) != ""
    ensures LabelIs(x, j, t + 1, Own(x, j, t))
  {
    var u := t + 1;
    assert Counts(x, t, u);
    forall p: nat | Holds(x, j, u, p) ensures p == t { }
    assert Holds(x, j, u, t);
  }

  /** A text to its left drops it. */
  lemma LabelOverLeft(x: Context, j: nat, t: nat)
    requires x.Valid() && j < |x.layout.labels| && t < |x.layout.rows|
    requires !IsDivider(x.rules, x.layout.rows[t]) && Own(x, j, t) == ""
    requires AnyLabel(x.layout.rows[t], x.layout.labels, j)
    ensures LabelIs(x, j, t + 1, "")
  {
    AnyLabelIs(x.layout.rows[t], x.layout.labels, j);
    var row, labels, u := x.layout.rows[t], x.layout.labels, t + 1;
    var i :| 0 <= i < j && row[labels[i]] != "";
    assert Counts(x, t, u) && Own(x, i, t) != "";
    forall p: nat ensures !Holds(x, j, u, p) { }
  }

  /** Otherwise it is carried down. */
  lemma LabelOverEmpty(x: Context, j: nat, t: nat, text: string)
    requires x.Valid() && j < |x.layout.labels| && t < |x.layout.rows| && LabelIs(x, j, t, text)
    requires !IsDivider(x.rules, x.layout.rows[t]) && forall i :: 0 <= i <= j ==> Own(x, i, t) == ""
    ensures LabelIs(x, j, t + 1, text)
  {
    forall p: nat ensures Holds(x, j, t + 1, p) <==> Holds(x, j, t, p) { HoldsOverEmpty(x, j, t, p); }
    HoldsOverEmpty(x, j, t, 0);
  }

  lemma HoldsOverEmpty(x: Context, j: nat, t: nat, p: nat)
    requires x.Valid() && j < |x.layout.labels| && t < |x.layout.rows|
    requires !IsDivider(x.rules, x.layout.rows[t]) && forall i :: 0 <= i <= j ==> Own(x, i, t) == ""
    ensures Holds(x, j, t + 1, p) <==> Holds(x, j, t, p)
    ensures Untouched(x, j, t + 1) <==> Untouched(x, j, t)
  {
    forall q ensures Counts(x, q, t + 1) <==> Counts(x, q, t) || q == t { }
  }

  /** One row further. */
  lemma LabelGoesOn(x: Context, j: nat, t: nat, text: string) returns (next: string)
    requires x.Valid() && j < |x.layout.labels| && t < |x.layout.rows| && LabelIs(x, j, t, text)
    ensures var row := x.layout.rows[t];
      next == if IsDivider(x.rules, row) then text
              else if Own(x, j, t) != "" then Own(x, j, t)
              else if AnyLabel(row, x.layout.labels, j) then "" else text
    ensures LabelIs(x, j, t + 1, next)
  {
    var row := x.layout.rows[t];
    if IsDivider(x.rules, row) {
      LabelOverDivider(x, j, t, text);
      next := text;
    } else if Own(x, j, t) != "" {
      LabelOverOwn(x, j, t);
      next := Own(x, j, t);
    } else if AnyLabel(row, x.layout.labels, j) {
      LabelOverLeft(x, j, t);
      next := "";
    } else {
      NoneLeft(x, j, t);
      LabelOverEmpty(x, j, t, text);
      next := text;
    }
  }

  lemma NoneLeft(x: Context, j: nat, t: nat)
    requires x.Valid() && j < |x.layout.labels| && t < |x.layout.rows| && Own(x, j, t) == ""
    requires !AnyLabel(x.layout.rows[t], x.layout.labels, j)
    ensures forall i :: 0 <= i <= j ==> Own(x, i, t) == ""
  {
    var row, labels := x.layout.rows[t], x.layout.labels;
    AnyLabelIs(row, labels, j);
    forall i | 0 <= i <= j ensures Own(x, i, t) == "" { if i < j { assert row[labels[i]] == ""; } }
  }

  lemma LabelStarts(x: Context, j: nat)
    requires x.Valid() && j < |x.layout.labels|
    ensures LabelIs(x, j, 0, x.Label(j, 0))
  {
    Start(x);
  }

  lemma LabelNext(x: Context, j: nat, t: nat)
    requires x.Valid() && j < |x.layout.labels| && t < |x.layout.rows| && LabelIs(x, j, t, x.Label(j, t))
    ensures LabelIs(x, j, t + 1, x.Label(j, t + 1))
  {
    LabelStep(x, j, t);
    var next := LabelGoesOn(x, j, t, x.Label(j, t));
    assert next == x.Label(j, t + 1);
  }

  lemma {:induction false} LabelHolds(x: Context, j: nat, t: nat)
    requires x.Valid() && j < |x.layout.labels| && t <= |x.layout.rows|
    ensures LabelIs(x, j, t, x.Label(j, t))
    decreases t
  {
    if t == 0 {
      LabelStarts(x, j);
    } else {
      LabelHolds(x, j, t - 1);
      LabelNext(x, j, t - 1);
    }
  }

  // ------------------------------------------------------------------ the value that spans into a row

  /** The row starts anew: it has a text in the first label column, or there is none. */
  predicate Restarts(x: Context, q: nat)
    requires x.Valid() && q < |x.layout.rows|
  {
    x.layout.labels == [] || Own(x, 0, q) != ""
  }

  /** The text of row p in column c. */
  function At(x: Context, c: nat, p: nat): string
    requires x.Valid() && c < x.Columns() && p < |x.layout.rows|
  {
    x.layout.rows[p][c]
  }

  /** The text of row p in column c still spans after the first t rows: since then the column has had no other, and
      no row has started anew. */
  ghost predicate Spans(x: Context, c: nat, t: nat, p: nat)
    requires x.Valid() && c < x.Columns() && t <= |x.layout.rows|
  {
    && Counts(x, p, t) && At(x, c, p) != ""
    && forall q :: p < q && Counts(x, q, t) ==> At(x, c, q) == "" && !Restarts(x, q)
  }

  ghost predicate Unreached(x: Context, c: nat, t: nat)
    requires x.Valid() && c < x.Columns() && t <= |x.layout.rows|
  {
    forall q :: Counts(x, q, t) ==> At(x, c, q) == "" && !Restarts(x, q)
  }

  /** The value that spans: the text that still does, or what the grid was handed while nothing came in between. */
  ghost predicate ValueIs(x: Context, c: nat, t: nat, text: string)
    requires x.Valid() && c < x.Columns() && t <= |x.layout.rows|
  {
    && (forall p: nat :: Spans(x, c, t, p) ==> text == At(x, c, p))
    && (Unreached(x, c, t) ==> text == Carry(x.values0, c))
    && ((forall p: nat :: !Spans(x, c, t, p)) && !Unreached(x, c, t) ==> text == "")
  }

  lemma SpansOverDivider(x: Context, c: nat, t: nat, p: nat)
    requires x.Valid() && c < x.Columns() && t < |x.layout.rows| && IsDivider(x.rules, x.layout.rows[t])
    ensures Spans(x, c, t + 1, p) <==> Spans(x, c, t, p)
    ensures Unreached(x, c, t + 1) <==> Unreached(x, c, t)
  {
    forall q ensures Counts(x, q, t + 1) <==> Counts(x, q, t) { }
  }

  lemma ValueOverDivider(x: Context, c: nat, t: nat, text: string)
    requires x.Valid() && c < x.Columns() && t < |x.layout.rows|
    requires IsDivider(x.rules, x.layout.rows[t]) && ValueIs(x, c, t, text)
    ensures ValueIs(x, c, t + 1, text)
  {
    forall p: nat ensures Spans(x, c, t + 1, p) <==> Spans(x, c, t, p) { SpansOverDivider(x, c, t, p); }
    SpansOverDivider(x, c, t, 0);
  }

  lemma ValueOverOwn(x: Context, c: nat, t: nat)
    requires x.Valid() && c < x.Columns() && t < |x.layout.rows|
    requires !IsDivider(x.rules, x.layout.rows[t]) && (At(x, c, t) != "" || Restarts(x, t))
    ensures ValueIs(x, c, t + 1, At(x, c, t))
  {
    var u := t + 1;
    assert Counts(x, t, u);
    forall p: nat | Spans(x, c, u, p) ensures p == t { }
    if At(x, c, t) != "" { assert Spans(x, c, u, t); }
  }

  lemma SpansOverEmpty(x: Context, c: nat, t: nat, p: nat)
    requires x.Valid() && c < x.Columns() && t < |x.layout.rows|
    requires !IsDivider(x.rules, x.layout.rows[t]) && At(x, c, t) == "" && !Restarts(x, t)
    ensures Spans(x, c, t + 1, p) <==> Spans(x, c, t, p)
    ensures Unreached(x, c, t + 1) <==> Unreached(x, c, t)
  {
    forall q ensures Counts(x, q, t + 1) <==> Counts(x, q, t) || q == t { }
  }

  lemma ValueOverEmpty(x: Context, c: nat, t: nat, text: string)
    requires x.Valid() && c < x.Columns() && t < |x.layout.rows| && ValueIs(x, c, t, text)
    requires !IsDivider(x.rules, x.layout.rows[t]) && At(x, c, t) == "" && !Restarts(x, t)
    ensures ValueIs(x, c, t + 1, text)
  {
    forall p: nat ensures Spans(x, c, t + 1, p) <==> Spans(x, c, t, p) { SpansOverEmpty(x, c, t, p); }
    SpansOverEmpty(x, c, t, 0);
  }

  /** One row further. */
  lemma ValueGoesOn(x: Context, c: nat, t: nat, text: string) returns (next: string)
    requires x.Valid() && c < x.Columns() && t < |x.layout.rows| && ValueIs(x, c, t, text)
    ensures next == if IsDivider(x.rules, x.layout.rows[t]) then text
                    else if At(x, c, t) != "" || Restarts(x, t) then At(x, c, t) else text
    ensures ValueIs(x, c, t + 1, next)
  {
    next := text;
    if IsDivider(x.rules, x.layout.rows[t]) {
      ValueOverDivider(x, c, t, text);
    } else if At(x, c, t) != "" || Restarts(x, t) {
      ValueOverOwn(x, c, t);
      next := At(x, c, t);
    } else {
      ValueOverEmpty(x, c, t, text);
    }
  }

  lemma ValueStarts(x: Context, c: nat)
    requires x.Valid() && c < x.Columns()
    ensures ValueIs(x, c, 0, x.Value(c, 0))
  {
    assert Unreached(x, c, 0);
  }

  lemma ValueNext(x: Context, c: nat, t: nat)
    requires x.Valid() && c < x.Columns() && t < |x.layout.rows| && ValueIs(x, c, t, x.Value(c, t))
    ensures ValueIs(x, c, t + 1, x.Value(c, t + 1))
  {
    ValueStep(x, c, t);
    var next := ValueGoesOn(x, c, t, x.Value(c, t));
    assert next == x.Value(c, t + 1);
  }

  lemma {:induction false} ValueSpans(x: Context, c: nat, t: nat)
    requires x.Valid() && c < x.Columns() && t <= |x.layout.rows|
    ensures ValueIs(x, c, t, x.Value(c, t))
    decreases t
  {
    if t == 0 {
      ValueStarts(x, c);
    } else {
      ValueSpans(x, c, t - 1);
      ValueNext(x, c, t - 1);
    }
  }

  /** No two texts span into one place. */
  lemma ValueIsOne(x: Context, c: nat, t: nat, text: string, other: string)
    requires x.Valid() && c < x.Columns() && t <= |x.layout.rows|
    requires ValueIs(x, c, t, text) && ValueIs(x, c, t, other)
    ensures text == other
  {
    if p: nat :| Spans(x, c, t, p) { assert text == At(x, c, p) == other; }
  }

  // ------------------------------------------------------------------ the level of a row

  ghost predicate OnlyText(row: Row, o: nat) {
    o < |row| && row[o] != "" && forall q: nat :: q < |row| && q != o ==> row[q] == ""
  }

  /** A divider has one text, and that names a level. */
  lemma DividerIs(rules: Rules, row: Row)
    ensures IsDivider(rules, row) <==>
      exists o: nat :: OnlyText(row, o) && rules.isDivider(row[o])
  {
    var ks := TextsAre(row, 0);
    assert |ks| > 1 ==> ks[0] < ks[1];
    if IsDivider(rules, row) {
      assert ks == [ks[0]] && row[ks[0]] == TextsFrom(row, 0)[0];
      forall q: nat | q < |row| && q != ks[0] ensures row[q] == "" { assert q !in ks; }
    }
    if o: nat :| OnlyText(row, o) && rules.isDivider(row[o]) {
      assert o in ks;
      forall k | 0 <= k < |ks| ensures ks[k] == o { assert ks[k] in ks; }
    }
  }

  /** Row p is the last divider among the first t rows. */
  ghost predicate LastDivider(x: Context, t: nat, p: nat)
    requires x.Valid() && t <= |x.layout.rows|
  {
    p < t && IsDivider(x.rules, x.layout.rows[p]) && forall q :: p < q < t ==> !IsDivider(x.rules, x.layout.rows[q])
  }

  /** The level that the last divider names, if there is one. */
  ghost predicate LevelIs(x: Context, t: nat, level: string)
    requires x.Valid() && t <= |x.layout.rows|
  {
    && (forall p: nat, o :: LastDivider(x, t, p) && 0 <= o < |x.layout.rows[p]| && x.layout.rows[p][o] != "" ==>
          level == x.rules.dividerText(x.layout.rows[p][o]))
    && ((forall p: nat :: !LastDivider(x, t, p)) ==> level == "")
  }

  lemma LevelOfDivider(x: Context, t: nat)
    requires x.Valid() && t < |x.layout.rows| && IsDivider(x.rules, x.layout.rows[t])
    ensures LevelIs(x, t + 1, LevelAt(x.rules, x.layout.rows, t + 1))
  {
    var row, u := x.layout.rows[t], t + 1;
    var ks := TextsAre(row, 0);
    forall p: nat | LastDivider(x, u, p) ensures p == t { }
    assert LastDivider(x, u, t);
    forall o: nat | o < |row| && row[o] != "" ensures row[o] == TextsFrom(row, 0)[0] { assert o in ks; }
  }

  lemma LevelStays(x: Context, t: nat, level: string)
    requires x.Valid() && t < |x.layout.rows| && !IsDivider(x.rules, x.layout.rows[t]) && LevelIs(x, t, level)
    ensures LevelIs(x, t + 1, level)
  {
    var u := t + 1;
    forall p: nat ensures LastDivider(x, u, p) <==> LastDivider(x, t, p) { }
  }

  lemma {:induction false} LevelNamed(x: Context, t: nat)
    requires x.Valid() && t <= |x.layout.rows|
    ensures LevelIs(x, t, LevelAt(x.rules, x.layout.rows, t))
    decreases t
  {
    if t > 0 {
      if IsDivider(x.rules, x.layout.rows[t - 1]) {
        LevelOfDivider(x, t - 1);
      } else {
        LevelNamed(x, t - 1);
        LevelStays(x, t - 1, LevelAt(x.rules, x.layout.rows, t - 1));
      }
    }
  }

  // ------------------------------------------------------------------ the row path

  lemma {:induction false} LabelListAt(x: Context, t: nat, from: nat, j: nat)
    requires x.Valid() && t <= |x.layout.rows| && from <= j < |x.layout.labels|
    ensures x.LabelList(from, t)[j - from] == x.Label(j, t)
    decreases j - from
  {
    if from < j { LabelListAt(x, t, from + 1, j); }
  }

  lemma {:induction false} CarriedDownIs(row: Row, labels: seq<nat>, last: seq<string>, j: nat)
    requires Below(labels, |row|) && |last| == |labels| && j <= |labels|
    ensures CarriedDown(row, labels, last, j) <==>
      exists i :: j <= i < |labels| && row[labels[i]] == "" && last[i] != ""
    decreases |labels| - j
  {
    if j < |labels| { CarriedDownIs(row, labels, last, j + 1); }
  }

  /** The labels that hold at row t. */
  ghost predicate LabelsHold(x: Context, t: nat, labels: seq<string>)
    requires x.Valid() && t < |x.layout.rows|
  {
    |labels| == |x.layout.labels| && forall j :: 0 <= j < |labels| ==> LabelIs(x, j, t + 1, labels[j])
  }

  /** The row path is the labels that hold, without the empty ones, and then the level that scopes the row. */
  ghost predicate RowPathIs(x: Context, t: nat, path: seq<string>, labels: seq<string>, level: string)
    requires x.Valid() && t < |x.layout.rows|
  {
    LabelsHold(x, t, labels) && LevelIs(x, t, level)
      && path == TextsFrom(labels, 0) + (if level != "" then [level] else [])
  }

  /** A label is carried down to row t. */
  ghost predicate LabelCarried(x: Context, t: nat, labels: seq<string>)
    requires x.Valid() && t < |x.layout.rows| && |labels| == |x.layout.labels|
  {
    exists j :: 0 <= j < |labels| && Own(x, j, t) == "" && labels[j] != ""
  }

  lemma LabelsListed(x: Context, t: nat, labels: seq<string>)
    requires x.Valid() && t < |x.layout.rows| && labels == x.LabelList(0, t + 1)
    ensures LabelsHold(x, t, labels)
  {
    forall j | 0 <= j < |labels| ensures LabelIs(x, j, t + 1, labels[j]) {
      LabelListAt(x, t + 1, 0, j);
      LabelHolds(x, j, t + 1);
    }
  }

  lemma RowPathIsTrue(x: Context, t: nat) returns (labels: seq<string>, level: string)
    requires x.Valid() && t < |x.layout.rows|
    ensures RowPathIs(x, t, x.RowPath(t), labels, level) && (x.CarriesLabel(t) <==> LabelCarried(x, t, labels))
  {
    labels, level := x.LabelList(0, t + 1), LevelAt(x.rules, x.layout.rows, t);
    LabelsListed(x, t, labels);
    LevelNamed(x, t);
    CarriedDownIs(x.layout.rows[t], x.layout.labels, labels, 0);
  }

  // ------------------------------------------------------------------ the header path

  /** Whether the grid takes its header from the grid on the page before. */
  ghost predicate TakesOver(g: Input, previous: Option<GridRecord>) { ContinuingOf(g, previous) == TakesHeader }

  /** The merged rows above the data. */
  function HeaderCount(g: Input): nat { AtMost(g.headerRows, |MergedGrid(g).0|) }

  /** What the header rows of the grid say of merged column c: the path lists the headings over it, and a heading is
      marked as spanning when it stems from a column to the left. */
  ghost predicate OwnHeader(g: Input, c: nat, path: seq<string>, span: bool)
    requires c < |MergedGrid(g).1| && Rectangular(MergedGrid(g).0, |MergedGrid(g).1|)
  {
    var (rows, groups) := MergedGrid(g);
    var h, hs := HeaderCount(g), HeadingsOver(rows, |groups|, HeaderCount(g), c);
    && (exists rs :: Lists(hs, path, rs))
    && (forall t :: t in path <==> t != "" && t in hs)
    && (span <==> exists r :: 0 <= r < h && rows[r][c] == "" && hs[r] != "")
  }

  lemma {:induction false} InheritsIs(rows: seq<Row>, n: nat, h: nat, c: nat)
    requires Rectangular(rows, n) && h <= |rows| && c < n
    ensures Inherits(rows, n, h, c) <==> exists r :: 0 <= r < h && rows[r][c] == "" && HeaderText(rows[r], c) != ""
  {
    if h > 0 { InheritsIs(rows, n, h - 1, c); }
  }

  lemma OwnHeaderIs(g: Input, c: nat)
    requires c < |MergedGrid(g).1| && Rectangular(MergedGrid(g).0, |MergedGrid(g).1|)
    ensures var (rows, groups) := MergedGrid(g); var (n, h) := (|groups|, HeaderCount(g));
      OwnHeader(g, c, PathOf(rows, n, h, c), Inherits(rows, n, h, c))
  {
    var (rows, groups) := MergedGrid(g);
    var n, h := |groups|, HeaderCount(g);
    var hs, path := HeadingsOver(rows, n, h, c), PathOf(rows, n, h, c);
    var rs := PathInOrder(rows, n, h, c);
    forall t ensures t in path <==> t != "" && t in hs {
      PathHolds(rows, n, h, c, t);
      if t in hs { var r :| 0 <= r < |hs| && hs[r] == t; }
      if r :| 0 <= r < h && HeaderText(rows[r], c) == t { assert hs[r] == t; }
    }
    InheritsIs(rows, n, h, c);
    if r :| 0 <= r < h && rows[r][c] == "" && HeaderText(rows[r], c) != "" { assert hs[r] != ""; }
  }

  // ------------------------------------------------------------------ a cell, all of it

  /** The cell stands under the headings of merged column c. */
  ghost predicate HeaderIs(g: Input, previous: Option<GridRecord>, cell: Cell, c: nat)
    requires c < |MergedGrid(g).1| && Rectangular(MergedGrid(g).0, |MergedGrid(g).1|)
  {
    && (cell.flags.headerInherited <==> TakesOver(g, previous))
    && (cell.flags.unresolvedHeader <==> cell.headerPath == [])
    && if TakesOver(g, previous) then
         previous.Some? && c < |previous.value.headerPaths| && cell.headerPath == previous.value.headerPaths[c]
         && !cell.flags.headerSpan
       else OwnHeader(g, c, cell.headerPath, cell.flags.headerSpan)
  }

  /** The cell carries the labels and the level of row t. */
  ghost predicate RowIs(x: Context, cell: Cell, t: nat, labels: seq<string>, level: string)
    requires x.Valid() && t < |x.layout.rows|
  {
    RowPathIs(x, t, cell.rowPath, labels, level) && (cell.flags.unresolvedRow <==> cell.rowPath == [])
  }

  /** The cell carries the value of row t and column c. */
  ghost predicate RawIs(x: Context, cell: Cell, t: nat, c: nat)
    requires x.Valid() && t < |x.layout.rows| && c < x.Columns()
  {
    ValueIs(x, c, t + 1, cell.raw) && cell.raw != "" && (cell.flags.unparsed <==> x.rules.unreadable(cell.raw))
  }

  /** It is flagged as carried down exactly when its own text or one of its labels is not printed in the row. */
  ghost predicate MergedIs(x: Context, cell: Cell, t: nat, c: nat, labels: seq<string>)
    requires x.Valid() && t < |x.layout.rows| && c < x.Columns() && |labels| == |x.layout.labels|
  {
    cell.flags.merged <==> At(x, c, t) == "" || LabelCarried(x, t, labels)
  }

  lemma LayoutIs(rules: Rules, g: Input, previous: Option<GridRecord>)
    ensures var layout := LayoutOf(rules, g, previous); var (rows, groups) := MergedGrid(g);
      && Rectangular(rows, |groups|) && |rows| == |g.rows| && layout.groups == groups
      && (layout.inherited <==> TakesOver(g, previous))
      && layout.headerRows == (if TakesOver(g, previous) then 0 else HeaderCount(g))
      && layout.rows == rows[layout.headerRows..]
      && if TakesOver(g, previous) then
           previous.Some? && layout.paths == previous.value.headerPaths && |layout.paths| == |groups|
           && layout.spans == seq(|groups|, _ => false)
         else
           layout.paths == AllPaths(rows, |groups|, HeaderCount(g))
           && layout.spans == AllSpans(rows, |groups|, HeaderCount(g))
  {
    MergedGridShape(g);
  }

  lemma HeaderOfCell(rules: Rules, g: Input, previous: Option<GridRecord>, t: nat, c: nat)
    requires var x := ContextOf(rules, g, previous); t < |x.layout.rows| && c < x.Columns()
    requires Rectangular(MergedGrid(g).0, |MergedGrid(g).1|) && c < |MergedGrid(g).1|
    ensures HeaderIs(g, previous, ContextOf(rules, g, previous).CellAt(t, c), c)
  {
    LayoutIs(rules, g, previous);
    if !TakesOver(g, previous) { OwnHeaderIs(g, c); }
  }

  lemma RowOfCell(x: Context, t: nat, c: nat) returns (labels: seq<string>, level: string)
    requires x.Valid() && t < |x.layout.rows| && c < x.Columns()
    ensures RowIs(x, x.CellAt(t, c), t, labels, level) && MergedIs(x, x.CellAt(t, c), t, c, labels)
  {
    labels, level := RowPathIsTrue(x, t);
  }

  lemma RawFields(x: Context, cell: Cell, t: nat, c: nat)
    requires x.Valid() && Stems(x, cell, t, c)
    ensures cell.raw == x.Value(c, t + 1) != "" && cell.flags.unparsed == x.rules.unreadable(cell.raw)
  {
  }

  lemma RawOfCell(x: Context, t: nat, c: nat, cell: Cell)
    requires x.Valid() && t < |x.layout.rows| && c < x.Columns() && cell.raw == x.Value(c, t + 1) != ""
    requires cell.flags.unparsed == x.rules.unreadable(cell.raw)
    ensures RawIs(x, cell, t, c)
  {
    ValueSpans(x, c, t + 1);
  }

  /** Every cell stems from a row that is no divider and from a value column, cites a place in that row and among
      the reader's columns that were merged into that one, and stands under its headings. */
  lemma CellStands(rules: Rules, g: Input, previous: Option<GridRecord>, k: nat) returns (t: nat, c: nat)
    requires k < |CellsOfGrid(rules, g, previous)|
    ensures var (rows, groups) := MergedGrid(g); Rectangular(rows, |groups|) && c < |groups|
    ensures var x, cell := ContextOf(rules, g, previous), CellsOfGrid(rules, g, previous)[k];
      && Stems(x, cell, t, c) && !IsDivider(rules, x.layout.rows[t])
      && c !in x.layout.labels && x.layout.unit != Some(c)
      && cell.row == x.layout.headerRows + t && cell.col in MergedGrid(g).1[c]
    ensures HeaderIs(g, previous, CellsOfGrid(rules, g, previous)[k], c)
  {
    var x, cell := ContextOf(rules, g, previous), CellsOfGrid(rules, g, previous)[k];
    LayoutIs(rules, g, previous);
    t, c := CellStems(x, k);
    StemsPlaced(x, cell, t, c);
    HeaderOfCell(rules, g, previous, t, c);
  }

  /** It carries the labels and the level of its row. */
  lemma CellCarries(x: Context, cell: Cell, t: nat, c: nat) returns (labels: seq<string>, level: string)
    requires x.Valid() && Stems(x, cell, t, c)
    ensures RowIs(x, cell, t, labels, level) && MergedIs(x, cell, t, c, labels)
  {
    labels, level := RowOfCell(x, t, c);
  }

  /** And it carries the value of its place, printed there or spanning into it. */
  lemma CellSpans(x: Context, cell: Cell, t: nat, c: nat)
    requires x.Valid() && Stems(x, cell, t, c)
    ensures RawIs(x, cell, t, c)
  {
    RawFields(x, cell, t, c);
    RawOfCell(x, t, c, cell);
  }

  /** And every value column with a value in such a row gives a cell, whether the value is printed there or spans. */
  lemma ValueGivesCell(rules: Rules, g: Input, previous: Option<GridRecord>, t: nat, c: nat, text: string)
    returns (k: nat)
    requires var x := ContextOf(rules, g, previous);
      && t < |x.layout.rows| && c < x.Columns() && !IsDivider(rules, x.layout.rows[t])
      && c !in x.layout.labels && x.layout.unit != Some(c) && ValueIs(x, c, t + 1, text) && text != ""
    ensures var x, cells := ContextOf(rules, g, previous), CellsOfGrid(rules, g, previous);
      k < |cells| && cells[k].row == x.layout.headerRows + t && cells[k].col in x.layout.groups[c]
      && cells[k].raw == text
  {
    var x := ContextOf(rules, g, previous);
    ValueSpans(x, c, t + 1);
    ValueIsOne(x, c, t + 1, text, x.Value(c, t + 1));
    k := CellOfValue(x, t, c);
  }

  lemma CellOfValue(x: Context, t: nat, c: nat) returns (k: nat)
    requires x.Valid() && t < |x.layout.rows| && c < x.Columns() && !IsDivider(x.rules, x.layout.rows[t])
    requires x.IsValue(c) && x.Value(c, t + 1) != ""
    ensures var cells := x.CellsUpTo(|x.layout.rows|);
      k < |cells| && cells[k].row == x.layout.headerRows + t && cells[k].col in x.layout.groups[c]
      && cells[k].raw == x.Value(c, t + 1)
  {
    k := SlotIsCell(x, t, c);
    StemsPlaced(x, x.Slot(t, c).value, t, c);
  }

  // ------------------------------------------------------------------ which columns are labels, and which the unit

  function Column(rows: seq<Row>, n: nat, c: nat): (col: seq<string>)
    requires Rectangular(rows, n) && c < n
    ensures |col| == |rows|
  {
    seq(|rows|, r requires 0 <= r < |rows| => rows[r][c])
  }

  function HasText(): string -> bool { (s: string) => s != "" }

  function HasFigure(rules: Rules): string -> bool { (s: string) => s != "" && rules.isFigure(s) }

  lemma {:induction false} ColumnCounts(rules: Rules, rows: seq<Row>, n: nat, c: nat)
    requires Rectangular(rows, n) && c < n
    ensures Filled(rows, n, c) == Count(Column(rows, n, c), HasText())
    ensures Figures(rules, rows, n, c) == Count(Column(rows, n, c), HasFigure(rules))
  {
    if rows != [] {
      ColumnCounts(rules, rows[1..], n, c);
      assert Column(rows, n, c)[1..] == Column(rows[1..], n, c);
    }
  }

  /** At most a third of the column's texts are figures; a column without text is a label column if it is the first. */
  ghost predicate Labels(rules: Rules, rows: seq<Row>, n: nat, unit: Option<nat>, c: nat)
    requires Rectangular(rows, n) && c < n
  {
    var col := Column(rows, n, c);
    && unit != Some(c)
    && if Count(col, HasText()) == 0 then c == 0 else 3 * Count(col, HasFigure(rules)) <= Count(col, HasText())
  }

  lemma {:induction false} LabelColumnsFrom(rules: Rules, rows: seq<Row>, n: nat, unit: Option<nat>, from: nat)
    requires Rectangular(rows, n) && from <= n
    ensures var ls := LabelColumns(rules, rows, n, unit, from);
      RisingNats(ls) && forall c: nat :: c in ls <==> from <= c < n && Labels(rules, rows, n, unit, c)
    decreases n - from
  {
    if from < n {
      LabelColumnsFrom(rules, rows, n, unit, from + 1);
      ColumnCounts(rules, rows, n, from);
      var rest := LabelColumns(rules, rows, n, unit, from + 1);
      forall i | 0 <= i < |rest| ensures rest[i] > from { assert rest[i] in rest; }
    }
  }

  lemma {:induction false} NamesUnitIs(rules: Rules, path: seq<string>)
    ensures NamesUnit(rules, path) <==> exists t :: t in path && rules.namesUnit(t)
  {
    if path != [] {
      NamesUnitIs(rules, path[1..]);
      assert path == [path[0]] + path[1..];
    }
  }

  ghost predicate UnitNamed(rules: Rules, paths: seq<seq<string>>, c: nat) {
    c < |paths| && exists t :: t in paths[c] && rules.namesUnit(t)
  }

  lemma {:induction false} FirstUnit(rules: Rules, paths: seq<seq<string>>, from: nat, c: nat)
    ensures UnitColumn(rules, paths, from) == Some(c) <==>
      from <= c && UnitNamed(rules, paths, c) && forall d :: from <= d < c ==> !UnitNamed(rules, paths, d)
    decreases |paths| - from
  {
    if from < |paths| {
      NamesUnitIs(rules, paths[from]);
      assert UnitNamed(rules, paths, from) == NamesUnit(rules, paths[from]);
      FirstUnit(rules, paths, from + 1, c);
    }
  }

  /** The label columns of a grid are those with few figures, left to right, and the unit column is the first
      whose header names a billing unit. */
  lemma ColumnsAreTold(rules: Rules, g: Input, previous: Option<GridRecord>, c: nat)
    ensures var layout := LayoutOf(rules, g, previous); var n := |layout.groups|;
      && Rectangular(layout.rows, n) && RisingNats(layout.labels)
      && (c in layout.labels <==> c < n && Labels(rules, layout.rows, n, layout.unit, c))
      && (layout.unit == Some(c) <==>
            UnitNamed(rules, layout.paths, c) && forall d :: 0 <= d < c ==> !UnitNamed(rules, layout.paths, d))
  {
    var layout := LayoutOf(rules, g, previous);
    LayoutIs(rules, g, previous);
    LabelColumnsFrom(rules, layout.rows, |layout.groups|, layout.unit, 0);
    FirstUnit(rules, layout.paths, 0, c);
  }

  // ------------------------------------------------------------------ how a grid continues the one before it

  lemma {:induction false} NoHeadingIs(paths: seq<seq<string>>)
    ensures NoHeading(paths) <==> forall c :: 0 <= c < |paths| ==> LastOr(paths[c]) == ""
  {
    if paths != [] {
      NoHeadingIs(paths[1..]);
      assert forall c :: 0 < c < |paths| ==> paths[c] == paths[1..][c - 1];
      assert forall c :: 0 <= c < |paths[1..]| ==> paths[1..][c] == paths[c + 1];
    }
  }

  lemma {:induction false} LastHeadingsAt(paths: seq<seq<string>>, c: nat)
    requires c < |paths|
    ensures LastHeadings(paths)[c] == LastOr(paths[c])
    decreases c
  {
    if c > 0 { LastHeadingsAt(paths[1..], c - 1); }
  }

  /** A grid can continue the one before it: that is on the page before and has as many columns. */
  ghost predicate Follows(g: Input, previous: Option<GridRecord>) {
    previous.Some? && previous.value.page == g.page - 1 && |previous.value.headerPaths| == |MergedGrid(g).1|
  }

  /** Nothing is printed above the data of the merged grid. */
  ghost predicate NoHeaderText(g: Input)
    requires Rectangular(MergedGrid(g).0, |MergedGrid(g).1|)
  {
    forall r, c :: 0 <= r < HeaderCount(g) && 0 <= c < |MergedGrid(g).1| ==> MergedGrid(g).0[r][c] == ""
  }

  lemma NoPathNoText(rows: seq<Row>, n: nat, h: nat)
    requires Rectangular(rows, n) && h <= |rows|
    ensures NoHeading(AllPaths(rows, n, h)) <==> forall r, c :: 0 <= r < h && 0 <= c < n ==> rows[r][c] == ""
  {
    var paths := AllPaths(rows, n, h);
    NoHeadingIs(paths);
    forall r, c | NoHeading(paths) && 0 <= r < h && 0 <= c < n ensures rows[r][c] == "" {
      if rows[r][c] != "" { HeadedPath(rows, n, h, c, r); }
    }
    if forall r, c :: 0 <= r < h && 0 <= c < n ==> rows[r][c] == "" {
      forall c | 0 <= c < n ensures LastOr(paths[c]) == "" { EmptyPath(rows, n, h, c); }
    }
  }

  lemma HeadedPath(rows: seq<Row>, n: nat, h: nat, c: nat, r: nat)
    requires Rectangular(rows, n) && h <= |rows| && c < n && r < h && rows[r][c] != ""
    ensures LastOr(AllPaths(rows, n, h)[c]) != ""
  {
    var path := PathOf(rows, n, h, c);
    PathHolds(rows, n, h, c, rows[r][c]);
    assert HeaderText(rows[r], c) == rows[r][c];
    PathHolds(rows, n, h, c, path[|path| - 1]);
  }

  lemma {:induction false} NoHeaderTextOf(row: Row, c: nat)
    requires c < |row| && forall d :: 0 <= d <= c ==> row[d] == ""
    ensures HeaderText(row, c) == ""
  {
    if c > 0 { NoHeaderTextOf(row, c - 1); }
  }

  lemma {:induction false} EmptyPath(rows: seq<Row>, n: nat, h: nat, c: nat)
    requires Rectangular(rows, n) && h <= |rows| && c < n
    requires forall r, d :: 0 <= r < h && 0 <= d < n ==> rows[r][d] == ""
    ensures PathOf(rows, n, h, c) == []
  {
    if h > 0 {
      EmptyPath(rows, n, h - 1, c);
      NoHeaderTextOf(rows[h - 1], c);
    }
  }

  /** A grid that follows another takes its header over exactly when it has none of its own, and repeats it exactly
      when it has one whose last headings are the same, column by column. */
  lemma ContinuesExactly(rules: Rules, g: Input, previous: Option<GridRecord>)
    ensures Rectangular(MergedGrid(g).0, |MergedGrid(g).1|)
    ensures TakesOver(g, previous) <==> Follows(g, previous) && (g.headerRows == 0 || NoHeaderText(g))
    ensures ContinuingOf(g, previous) == RepeatsHeader <==>
      Follows(g, previous) && !TakesOver(g, previous) && forall c :: 0 <= c < |MergedGrid(g).1| ==>
        LastOr(LayoutOf(rules, g, previous).paths[c]) == LastOr(previous.value.headerPaths[c])
  {
    var (rows, groups) := MergedGrid(g);
    LayoutIs(rules, g, previous);
    NoPathNoText(rows, |groups|, HeaderCount(g));
    if Follows(g, previous) && !TakesOver(g, previous) {
      SameHeadings(AllPaths(rows, |groups|, HeaderCount(g)), previous.value.headerPaths);
    }
  }

  lemma SameHeadings(paths: seq<seq<string>>, others: seq<seq<string>>)
    requires |paths| == |others|
    ensures LastHeadings(paths) == LastHeadings(others) <==>
      forall c :: 0 <= c < |paths| ==> LastOr(paths[c]) == LastOr(others[c])
  {
    forall c | 0 <= c < |paths|
      ensures LastHeadings(paths)[c] == LastOr(paths[c]) && LastHeadings(others)[c] == LastOr(others[c])
    {
      LastHeadingsAt(paths, c);
      LastHeadingsAt(others, c);
    }
  }

  // ------------------------------------------------------------------ what a continuation is handed

  lemma {:induction false} MaxRowIs(cells: seq<Cell>)
    ensures forall i :: 0 <= i < |cells| ==> cells[i].row <= MaxRow(cells)
    ensures cells != [] ==> exists i :: 0 <= i < |cells| && cells[i].row == MaxRow(cells)
  {
    if cells != [] {
      MaxRowIs(cells[1..]);
      assert forall i :: 0 < i < |cells| ==> cells[i] == cells[1..][i - 1];
      if cells[0].row <= MaxRow(cells[1..]) && |cells| > 1 {
        var i :| 0 <= i < |cells[1..]| && cells[1..][i].row == MaxRow(cells[1..]);
        assert cells[i + 1] == cells[1..][i];
      } else {
        assert cells[0].row == MaxRow(cells) || |cells| == 1;
      }
    }
  }

  /** Cell i is in the last row of the cells. */
  ghost predicate InLastRow(cells: seq<Cell>, i: nat) {
    i < |cells| && forall j :: 0 <= j < |cells| ==> cells[j].row <= cells[i].row
  }

  lemma {:induction false} InRowFirst(cells: seq<Cell>, r: nat) returns (i: nat)
    requires InRow(cells, r) != []
    ensures i < |cells| && cells[i].row == r && cells[i] == InRow(cells, r)[0]
    ensures forall j :: 0 <= j < i ==> cells[j].row != r
  {
    if cells[0].row == r {
      i := 0;
    } else {
      var k := InRowFirst(cells[1..], r);
      i := k + 1;
      assert forall j :: 0 < j < i ==> cells[j] == cells[1..][j - 1];
    }
  }

  lemma {:induction false} InRowIs(cells: seq<Cell>, r: nat, cell: Cell)
    ensures cell in InRow(cells, r) <==> cell in cells && cell.row == r
  {
    if cells != [] {
      InRowIs(cells[1..], r, cell);
      assert cells == [cells[0]] + cells[1..];
    }
  }

  lemma {:induction false} StartLabelsAt(path: seq<string>, k: nat, j: nat)
    requires j < k
    ensures StartLabels(path, k)[j] == if j < |path| then path[j] else ""
    decreases j
  {
    if j > 0 { StartLabelsAt(if path == [] then [] else path[1..], k - 1, j - 1); }
  }

  /** One of the cells is in column c and has this text. */
  ghost predicate CellHas(cells: seq<Cell>, c: nat, text: string) {
    exists cell :: cell in cells && cell.col == c && cell.raw == text
  }

  lemma {:induction false} StartValuesHave(cells: seq<Cell>, c: nat)
    ensures c in StartValues(cells) <==> exists cell :: cell in cells && cell.col == c
    ensures c in StartValues(cells) ==> CellHas(cells, c, StartValues(cells)[c])
    decreases |cells|
  {
    if cells != [] {
      var n := |cells| - 1;
      StartValuesHave(cells[..n], c);
      assert cells == cells[..n] + [cells[n]];
      assert cells[n] in cells && forall cell :: cell in cells[..n] ==> cell in cells;
      if cells[n].col == c { assert CellHas(cells, c, cells[n].raw); }
    }
  }

  /** A continuation is handed the labels of the first cell, and the values of all cells, of the last row of the
      grid before it; any other grid is handed nothing. */
  lemma HandedOver(rules: Rules, g: Input, previous: Option<GridRecord>, j: nat, c: nat) returns (i: nat)
    requires ContinuingOf(g, previous) != Fresh && previous.Some? && previous.value.cells != []
    ensures var x, cells := ContextOf(rules, g, previous), previous.value.cells;
      && InLastRow(cells, i) && (forall k :: 0 <= k < i ==> cells[k].row != cells[i].row)
      && (j < |x.labels0| ==> x.labels0[j] == if j < |cells[i].rowPath| then cells[i].rowPath[j] else "")
      && (c in x.values0 <==> exists cell :: cell in cells && cell.row == cells[i].row && cell.col == c)
      && (c in x.values0 ==> exists cell ::
            cell in cells && cell.row == cells[i].row && cell.col == c && x.values0[c] == cell.raw)
  {
    var x, cells := ContextOf(rules, g, previous), previous.value.cells;
    var r, handed := MaxRow(cells), Handed(g, previous);
    MaxRowIs(cells);
    var top :| 0 <= top < |cells| && cells[top].row == r;
    InRowIs(cells, r, cells[top]);
    i := InRowFirst(cells, r);
    if j < |x.labels0| { StartLabelsAt(handed[0].rowPath, |x.labels0|, j); }
    StartValuesHave(handed, c);
    forall cell ensures cell in handed <==> cell in cells && cell.row == r { InRowIs(cells, r, cell); }
  }

  // ------------------------------------------------------------------ the flags of a grid

  lemma {:induction false} FewerThanColumns(gs: seq<seq<nat>>, lo: nat, n: nat)
    requires Tiles(gs, lo, n)
    ensures lo + |gs| <= n && (lo + |gs| < n ==> exists o: nat, p: nat :: o < p && Together(gs, o, p))
    decreases |gs|
  {
    if gs != [] {
      var hi := lo + |gs[0]|;
      FewerThanColumns(gs[1..], hi, n);
      if |gs[0]| > 1 {
        RangeAt(lo, hi, 0);
        RangeAt(lo, hi, 1);
        assert gs[0][0] == lo && gs[0][1] == lo + 1 && Together(gs, lo, lo + 1);
      } else if lo + |gs| < n {
        var o: nat, p: nat :| o < p && Together(gs[1..], o, p);
        var g :| 0 <= g < |gs[1..]| && o in gs[1..][g] && p in gs[1..][g];
        assert gs[g + 1] == gs[1..][g] && Together(gs, o, p);
      }
    }
  }

  lemma {:induction false} NoneTogether(gs: seq<seq<nat>>, lo: nat, n: nat, o: nat, p: nat)
    requires Tiles(gs, lo, n) && lo + |gs| == n && o < p
    ensures !Together(gs, o, p)
  {
    AllAlone(gs, lo, n);
    KeptTogether(false, lo, n, o, p);
  }

  /** A grid is flagged for merged columns exactly when two of the reader's columns became one, and for its header
      exactly when it takes it over, repeats it, or has none. */
  lemma FlagsAreTold(g: Input, previous: Option<GridRecord>)
    ensures var flags := GridFlags(g, ContinuingOf(g, previous));
      && (SplitColumnsMerged in flags <==> exists o: nat, p: nat :: o < p && Together(MergedGrid(g).1, o, p))
      && (InheritedHeader in flags <==> TakesOver(g, previous))
      && (RepeatedHeader in flags <==> ContinuingOf(g, previous) == RepeatsHeader)
      && (NoHeaderRow in flags <==> g.headerRows == 0 && !TakesOver(g, previous))
  {
    var groups, n := MergedGrid(g).1, Width(g.rows);
    GridTiles(g);
    FewerThanColumns(groups, 0, n);
    if |groups| == n {
      forall o: nat, p: nat | o < p ensures !Together(groups, o, p) { NoneTogether(groups, 0, n, o, p); }
    }
  }
}
