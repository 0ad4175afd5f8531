/** Reader columns of a table grid: merging the sub-columns of one logical column, and the
    header path of every column. */
module GridColumns {
  import opened Basics
  import opened Readers

  type Row = seq<string>

  // ------------------------------------------------------------------ groups of columns

  /** The columns from lo to hi, as one group or each on its own. */
  function Range(lo: nat, hi: nat): (s: seq<nat>)
    ensures lo <= hi ==> |s| == hi - lo
    decreases hi - lo
  {
    if lo >= hi then [] else [lo] + Range(lo + 1, hi)
  }

  function Singles(lo: nat, hi: nat): (gs: seq<seq<nat>>)
    ensures lo <= hi ==> |gs| == hi - lo
    decreases hi - lo
  {
    if lo >= hi then [] else [[lo]] + Singles(lo + 1, hi)
  }

  lemma {:induction false} RangeAt(lo: nat, hi: nat, k: nat)
    requires lo + k < hi
    ensures Range(lo, hi)[k] == lo + k && Singles(lo, hi)[k] == [lo + k]
    decreases k
  {
    if k > 0 { RangeAt(lo + 1, hi, k - 1); }
  }

  lemma {:induction false} SinglesJoin(i: nat, e: nat, k: nat)
    requires i <= e <= k
    ensures Singles(i, e) + Singles(e, k) == Singles(i, k)
    decreases e - i
  {
    if i < e { SinglesJoin(i + 1, e, k); }
  }

  /** Some column from lo to hi has text. */
  predicate AnyText(row: Row, lo: nat, hi: nat)
    requires hi <= |row|
    decreases hi - lo
  {
    lo < hi && (row[lo] != "" || AnyText(row, lo + 1, hi))
  }

  /** Some row from r on has text both in column c and in one of the columns from lo to c. */
  predicate Clash(rows: seq<Row>, n: nat, lo: nat, c: nat, r: nat := 0)
    requires Rectangular(rows, n) && c < n
    decreases |rows| - r
  {
    r < |rows| && ((rows[r][c] != "" && AnyText(rows[r], lo, c)) || Clash(rows, n, lo, c, r + 1))
  }

  lemma {:induction false} AnyTextAt(row: Row, lo: nat, hi: nat, o: nat)
    requires lo <= o < hi <= |row| && row[o] != ""
    ensures AnyText(row, lo, hi)
    decreases hi - lo
  {
    if lo < o { AnyTextAt(row, lo + 1, hi, o); }
  }

  lemma {:induction false} AnyTextFound(row: Row, lo: nat, hi: nat) returns (o: nat)
    requires hi <= |row| && AnyText(row, lo, hi)
    ensures lo <= o < hi && row[o] != ""
    decreases hi - lo
  {
    o := lo;
    if row[lo] == "" { o := AnyTextFound(row, lo + 1, hi); }
  }

  lemma {:induction false} ClashAt(rows: seq<Row>, n: nat, lo: nat, c: nat, from: nat, r: nat)
    requires Rectangular(rows, n) && c < n && from <= r < |rows| && rows[r][c] != "" && AnyText(rows[r], lo, c)
    ensures Clash(rows, n, lo, c, from)
    decreases r - from
  {
    if from < r { ClashAt(rows, n, lo, c, from + 1, r); }
  }

  lemma {:induction false} ClashFound(rows: seq<Row>, n: nat, lo: nat, c: nat, from: nat) returns (r: nat, o: nat)
    requires Rectangular(rows, n) && c < n && Clash(rows, n, lo, c, from)
    ensures from <= r < |rows| && lo <= o < c && rows[r][c] != "" && rows[r][o] != ""
    decreases |rows| - from
  {
    if rows[from][c] != "" && AnyText(rows[from], lo, c) {
      r := from;
      o := AnyTextFound(rows[from], lo, c);
    } else {
      r, o := ClashFound(rows, n, lo, c, from + 1);
    }
  }

  /** Where the group that starts at lo and has reached c ends. */
  function GroupEnd(rows: seq<Row>, n: nat, lo: nat, c: nat): (hi: nat)
    requires Rectangular(rows, n) && lo < c <= n
    ensures c <= hi <= n
    decreases n - c
  {
    if c == n || Clash(rows, n, lo, c) then c else GroupEnd(rows, n, lo, c + 1)
  }

  /** The groups are consecutive runs that cover the columns from lo to n. */
  predicate Tiles(gs: seq<seq<nat>>, lo: nat, n: nat) {
    if gs == [] then lo == n
    else
      && 0 < |gs[0]| && lo + |gs[0]| <= n
      && gs[0] == Range(lo, lo + |gs[0]|)
      && Tiles(gs[1..], lo + |gs[0]|, n)
  }

  /** Column o has text in a row from a to b. */
  predicate TextIn(rows: seq<Row>, n: nat, a: nat, b: nat, o: nat)
    requires Rectangular(rows, n) && o < n
    decreases b - a
  {
    a < b && a < |rows| && (rows[a][o] != "" || TextIn(rows, n, a + 1, b, o))
  }

  /** Whether any column of a group has heading text, any has data text, and any has both. */
  datatype Signature = Signature(head: bool, data: bool, both: bool)

  function SignatureOf(rows: seq<Row>, n: nat, headerRows: nat, lo: nat, hi: nat): Signature
    requires Rectangular(rows, n) && hi <= n
    decreases hi - lo
  {
    if lo >= hi then Signature(false, false, false)
    else
      var head, data := TextIn(rows, n, 0, headerRows, lo), TextIn(rows, n, headerRows, |rows|, lo);
      var rest := SignatureOf(rows, n, headerRows, lo + 1, hi);
      Signature(head || rest.head, data || rest.data, (head && data) || rest.both)
  }

  /** The shaded-heading signature: heading text and data text, in different sub-columns. */
  predicate Qualifies(rows: seq<Row>, n: nat, headerRows: nat, lo: nat, hi: nat)
    requires Rectangular(rows, n) && hi <= n
  {
    var s := SignatureOf(rows, n, headerRows, lo, hi);
    lo + 2 <= hi && headerRows > 0 && s.head && s.data && !s.both
  }

  function Kept(whole: bool, lo: nat, hi: nat): seq<seq<nat>> { if whole then [Range(lo, hi)] else Singles(lo, hi) }

  predicate AllUnder(gs: seq<seq<nat>>, n: nat) { forall g :: 0 <= g < |gs| ==> Below(gs[g], n) }

  /** The groups from column lo on: those that do not qualify are taken apart again. */
  function GroupsFrom(rows: seq<Row>, n: nat, headerRows: nat, lo: nat): seq<seq<nat>>
    requires Rectangular(rows, n) && lo <= n
    decreases n - lo
  {
    if lo == n then []
    else
      var hi := GroupEnd(rows, n, lo, lo + 1);
      Kept(Qualifies(rows, n, headerRows, lo, hi), lo, hi) + GroupsFrom(rows, n, headerRows, hi)
  }

  /** The text of a merged cell: the first one printed in its group. */
  function FirstText(row: Row, grp: seq<nat>): string
    requires Below(grp, |row|)
  {
    if grp == [] then "" else if row[grp[0]] != "" then row[grp[0]] else FirstText(row, grp[1..])
  }

  function MergedRow(row: Row, gs: seq<seq<nat>>): (r: Row)
    requires AllUnder(gs, |row|)
    ensures |r| == |gs|
  {
    if gs == [] then [] else [FirstText(row, gs[0])] + MergedRow(row, gs[1..])
  }

  function Merged(rows: seq<Row>, n: nat, gs: seq<seq<nat>>): (out: seq<Row>)
    requires Rectangular(rows, n) && AllUnder(gs, n)
    ensures Rectangular(out, |gs|) && |out| == |rows|
  {
    if rows == [] then [] else [MergedRow(rows[0], gs)] + Merged(rows[1..], n, gs)
  }

  lemma {:induction false} MergedRowAt(row: Row, gs: seq<seq<nat>>, k: nat)
    requires AllUnder(gs, |row|) && k < |gs|
    ensures MergedRow(row, gs)[k] == FirstText(row, gs[k])
    decreases k
  {
    if k > 0 { MergedRowAt(row, gs[1..], k - 1); }
  }

  lemma {:induction false} MergedAt(rows: seq<Row>, n: nat, gs: seq<seq<nat>>, r: nat)
    requires Rectangular(rows, n) && AllUnder(gs, n) && r < |rows|
    ensures Merged(rows, n, gs)[r] == MergedRow(rows[r], gs)
    decreases r
  {
    if r > 0 { MergedAt(rows[1..], n, gs, r - 1); }
  }

  lemma RangeBelow(lo: nat, hi: nat, n: nat)
    requires lo <= hi <= n
    ensures Below(Range(lo, hi), n)
  {
    forall k | 0 <= k < |Range(lo, hi)| ensures Range(lo, hi)[k] < n { RangeAt(lo, hi, k); }
  }

  lemma {:induction false} TilesUnder(gs: seq<seq<nat>>, lo: nat, n: nat)
    requires Tiles(gs, lo, n)
    ensures AllUnder(gs, n) && lo <= n
  {
    if gs != [] {
      RangeBelow(lo, lo + |gs[0]|, n);
      TilesUnder(gs[1..], lo + |gs[0]|, n);
    }
  }

  /** The columns after merging, in groups of reader columns. */
  function Groups(rows: seq<Row>, headerRows: nat): (gs: seq<seq<nat>>)
    requires Rectangular(rows, Width(rows))
  {
    GroupsFrom(rows, Width(rows), headerRows, 0)
  }

  function Collapse(rows: seq<Row>, headerRows: nat): (seq<Row>, seq<seq<nat>>)
    requires Rectangular(rows, Width(rows))
  {
    var gs := Groups(rows, headerRows);
    GroupsTile(rows, headerRows);
    TilesUnder(gs, 0, Width(rows));
    if |gs| == Width(rows) then (rows, gs) else (Merged(rows, Width(rows), gs), gs)
  }

  // ------------------------------------------------------------------ the groups partition the columns

  lemma TilesStep(gs: seq<seq<nat>>, lo: nat, hi: nat, n: nat)
    requires gs != [] && lo < hi <= n && gs[0] == Range(lo, hi) && Tiles(gs[1..], hi, n)
    ensures Tiles(gs, lo, n)
  {
  }

  /** The list that starts with lo on its own. */
  lemma SinglesParts(lo: nat, hi: nat, rest: seq<seq<nat>>)
    requires lo < hi
    ensures var gs := Singles(lo, hi) + rest; gs != [] && gs[0] == [lo] && gs[1..] == Singles(lo + 1, hi) + rest
  {
    assert Singles(lo, hi)[1..] == Singles(lo + 1, hi);
  }

  lemma {:induction false} SinglesTile(lo: nat, hi: nat, rest: seq<seq<nat>>, n: nat)
    requires lo <= hi <= n && Tiles(rest, hi, n)
    ensures Tiles(Singles(lo, hi) + rest, lo, n)
    decreases hi - lo
  {
    if lo == hi {
      assert Singles(lo, hi) + rest == rest;
    } else {
      SinglesTile(lo + 1, hi, rest, n);
      SinglesParts(lo, hi, rest);
      assert [lo] == Range(lo, lo + 1);
      TilesStep(Singles(lo, hi) + rest, lo, lo + 1, n);
    }
  }

  lemma KeptTiles(whole: bool, lo: nat, hi: nat, rest: seq<seq<nat>>, n: nat)
    requires lo < hi <= n && Tiles(rest, hi, n)
    ensures Tiles(Kept(whole, lo, hi) + rest, lo, n)
  {
    if whole {
      TilesStep([Range(lo, hi)] + rest, lo, hi, n);
    } else {
      SinglesTile(lo, hi, rest, n);
    }
  }

  lemma {:induction false} GroupsFromTile(rows: seq<Row>, n: nat, headerRows: nat, lo: nat)
    requires Rectangular(rows, n) && lo <= n
    ensures Tiles(GroupsFrom(rows, n, headerRows, lo), lo, n)
    decreases n - lo
  {
    if lo < n {
      var hi := GroupEnd(rows, n, lo, lo + 1);
      GroupsFromTile(rows, n, headerRows, hi);
      KeptTiles(Qualifies(rows, n, headerRows, lo, hi), lo, hi, GroupsFrom(rows, n, headerRows, hi), n);
    }
  }

  /** The merged columns are consecutive, ordered, non-empty runs that cover every reader column once. */
  lemma GroupsTile(rows: seq<Row>, headerRows: nat)
    requires Rectangular(rows, Width(rows))
    ensures Tiles(Groups(rows, headerRows), 0, Width(rows))
  {
    GroupsFromTile(rows, Width(rows), headerRows, 0);
  }

  // ------------------------------------------------------------------ no text is lost

  lemma {:induction false} GroupEndClash(rows: seq<Row>, n: nat, lo: nat, c: nat)
    requires Rectangular(rows, n) && lo < c <= n
    ensures var hi := GroupEnd(rows, n, lo, c); hi < n ==> Clash(rows, n, lo, hi)
    decreases n - c
  {
    if c < n && !Clash(rows, n, lo, c) { GroupEndClash(rows, n, lo, c + 1); }
  }

  /** No row has text in two of the columns from lo to hi. */
  ghost predicate Free(rows: seq<Row>, n: nat, lo: nat, hi: nat)
    requires Rectangular(rows, n) && hi <= n
  {
    forall r, a, b :: 0 <= r < |rows| && lo <= a < b < hi ==> rows[r][a] == "" || rows[r][b] == ""
  }

  lemma {:induction false} GroupEndFree(rows: seq<Row>, n: nat, lo: nat, c: nat)
    requires Rectangular(rows, n) && lo < c <= n && Free(rows, n, lo, c)
    ensures Free(rows, n, lo, GroupEnd(rows, n, lo, c))
    decreases n - c
  {
    if c < n && !Clash(rows, n, lo, c) {
      assert Free(rows, n, lo, c + 1) by {
        forall r, a | 0 <= r < |rows| && lo <= a < c ensures rows[r][a] == "" || rows[r][c] == "" {
          if rows[r][a] != "" && rows[r][c] != "" {
            AnyTextAt(rows[r], lo, c, a);
            ClashAt(rows, n, lo, c, 0, r);
          }
        }
      }
      GroupEndFree(rows, n, lo, c + 1);
    }
  }

  /** The non-empty texts of a row from column i on. */
  function TextsFrom(row: Row, i: nat): seq<string>
    decreases |row| - i
  {
    if i >= |row| then [] else (if row[i] != "" then [row[i]] else []) + TextsFrom(row, i + 1)
  }

  ghost predicate FreeRow(row: Row, lo: nat, hi: nat)
    requires hi <= |row|
    decreases hi - lo
  {
    lo >= hi || (!(row[lo] != "" && AnyText(row, lo + 1, hi)) && FreeRow(row, lo + 1, hi))
  }

  lemma {:induction false} FreeRowOf(rows: seq<Row>, n: nat, lo: nat, hi: nat, r: nat, a: nat)
    requires Rectangular(rows, n) && hi <= n && Free(rows, n, lo, hi) && r < |rows| && lo <= a
    ensures FreeRow(rows[r], a, hi)
    decreases hi - a
  {
    if a < hi {
      if rows[r][a] != "" && AnyText(rows[r], a + 1, hi) { var o := AnyTextFound(rows[r], a + 1, hi); }
      FreeRowOf(rows, n, lo, hi, r, a + 1);
    }
  }

  lemma {:induction false} EmptyTexts(row: Row, lo: nat, hi: nat)
    requires lo <= hi <= |row| && !AnyText(row, lo, hi)
    ensures TextsFrom(row, lo) == TextsFrom(row, hi)
    decreases hi - lo
  {
    if lo < hi { EmptyTexts(row, lo + 1, hi); }
  }

  lemma {:induction false} GroupTexts(row: Row, lo: nat, hi: nat)
    requires lo <= hi <= |row| && FreeRow(row, lo, hi)
    ensures Below(Range(lo, hi), |row|)
    ensures var t := FirstText(row, Range(lo, hi));
            TextsFrom(row, lo) == (if t != "" then [t] else []) + TextsFrom(row, hi)
    decreases hi - lo
  {
    if lo < hi {
      RangeBelow(lo, hi, |row|);
      if row[lo] != "" {
        EmptyTexts(row, lo + 1, hi);
      } else {
        GroupTexts(row, lo + 1, hi);
      }
    }
  }

  /** Every group of gs holds at most one text of the row. */
  ghost predicate Exclusive(row: Row, gs: seq<seq<nat>>, lo: nat) {
    if gs == [] then true
    else
      var hi := lo + |gs[0]|;
      hi <= |row| && FreeRow(row, lo, hi) && Exclusive(row, gs[1..], hi)
  }

  lemma {:induction false} MergedTexts(row: Row, whole: seq<seq<nat>>, i: nat, lo: nat)
    requires i <= |whole| && AllUnder(whole, |row|) && Tiles(whole[i..], lo, |row|) && Exclusive(row, whole[i..], lo)
    ensures TextsFrom(MergedRow(row, whole), i) == TextsFrom(row, lo)
    decreases |whole| - i
  {
    if i < |whole| {
      var hi := lo + |whole[i]|;
      assert whole[i..][1..] == whole[i + 1..];
      MergedRowAt(row, whole, i);
      GroupTexts(row, lo, hi);
      MergedTexts(row, whole, i + 1, hi);
    }
  }

  lemma ExclusiveStep(row: Row, gs: seq<seq<nat>>, lo: nat, hi: nat)
    requires gs != [] && lo + |gs[0]| == hi <= |row| && FreeRow(row, lo, hi) && Exclusive(row, gs[1..], hi)
    ensures Exclusive(row, gs, lo)
  {
  }

  lemma {:induction false} SinglesExclusive(row: Row, lo: nat, hi: nat, rest: seq<seq<nat>>)
    requires lo <= hi <= |row| && Exclusive(row, rest, hi)
    ensures Exclusive(row, Singles(lo, hi) + rest, lo)
    decreases hi - lo
  {
    if lo == hi {
      assert Singles(lo, hi) + rest == rest;
    } else {
      SinglesExclusive(row, lo + 1, hi, rest);
      SinglesParts(lo, hi, rest);
      ExclusiveStep(row, Singles(lo, hi) + rest, lo, lo + 1);
    }
  }

  lemma KeptExclusive(row: Row, whole: bool, lo: nat, hi: nat, rest: seq<seq<nat>>)
    requires lo < hi <= |row| && Exclusive(row, rest, hi) && FreeRow(row, lo, hi)
    ensures Exclusive(row, Kept(whole, lo, hi) + rest, lo)
  {
    if whole {
      ExclusiveStep(row, [Range(lo, hi)] + rest, lo, hi);
    } else {
      SinglesExclusive(row, lo, hi, rest);
    }
  }

  lemma {:induction false} GroupsExclusive(rows: seq<Row>, n: nat, headerRows: nat, lo: nat, r: nat)
    requires Rectangular(rows, n) && lo <= n && r < |rows|
    ensures Exclusive(rows[r], GroupsFrom(rows, n, headerRows, lo), lo)
    decreases n - lo
  {
    if lo < n {
      var hi := GroupEnd(rows, n, lo, lo + 1);
      GroupsExclusive(rows, n, headerRows, hi, r);
      GroupEndFree(rows, n, lo, lo + 1);
      FreeRowOf(rows, n, lo, hi, r, lo);
      var whole := Qualifies(rows, n, headerRows, lo, hi);
      KeptExclusive(rows[r], whole, lo, hi, GroupsFrom(rows, n, headerRows, hi));
    }
  }

  /** Merging keeps every row's non-empty texts, in order. */
  lemma CollapseLosesNothing(rows: seq<Row>, headerRows: nat, r: nat)
    requires Rectangular(rows, Width(rows)) && r < |rows|
    ensures |Collapse(rows, headerRows).0| == |rows|
    ensures TextsFrom(Collapse(rows, headerRows).0[r], 0) == TextsFrom(rows[r], 0)
  {
    var n := Width(rows);
    var gs := Groups(rows, headerRows);
    GroupsTile(rows, headerRows);
    TilesUnder(gs, 0, n);
    if |gs| != n {
      GroupsExclusive(rows, n, headerRows, 0, r);
      assert gs[0..] == gs;
      MergedTexts(rows[r], gs, 0, 0);
      MergedAt(rows, n, gs, r);
    }
  }

  // ------------------------------------------------------------------ merging twice

  lemma {:induction false} FirstTextFound(row: Row, grp: seq<nat>, k: nat)
    requires Below(grp, |row|) && k < |grp| && row[grp[k]] != ""
    ensures FirstText(row, grp) != ""
  {
    if row[grp[0]] == "" { FirstTextFound(row, grp[1..], k - 1); }
  }

  /** One group from lo to hi leaves w merged columns from i on. */
  lemma GroupStep(rows: seq<Row>, n: nat, headerRows: nat, gs: seq<seq<nat>>, lo: nat, i: nat, hi: nat, whole: bool,
        w: nat)
    requires Rectangular(rows, n) && i <= |gs| && lo < n && hi == GroupEnd(rows, n, lo, lo + 1)
    requires gs[i..] == GroupsFrom(rows, n, headerRows, lo)
    requires whole == Qualifies(rows, n, headerRows, lo, hi) && w == (if whole then 1 else hi - lo)
    ensures 0 < w && i + w <= |gs| && gs[i + w..] == GroupsFrom(rows, n, headerRows, hi)
    ensures gs[i..i + w] == Kept(whole, lo, hi)
    ensures hi == n <==> i + w == |gs|
    ensures hi < n ==> gs[i + w] != [] && gs[i + w][0] == hi
  {
    var front, back := Kept(whole, lo, hi), GroupsFrom(rows, n, headerRows, hi);
    assert gs[i..] == front + back && |front| == w;
    assert gs[i..][..w] == gs[i..i + w] && gs[i..][w..] == gs[i + w..];
    if hi < n {
      GroupsFirst(rows, n, headerRows, hi);
      assert gs[i + w] == gs[i + w..][0];
    }
  }

  lemma GroupsFirst(rows: seq<Row>, n: nat, headerRows: nat, lo: nat)
    requires Rectangular(rows, n) && lo < n
    ensures var gs := GroupsFrom(rows, n, headerRows, lo); gs != [] && gs[0] != [] && gs[0][0] == lo
  {
  }

  /** A text in a column of the group is a text of the merged cell. */
  lemma MergedText(row: Row, gs: seq<seq<nat>>, g: nat, k: nat)
    requires AllUnder(gs, |row|) && g < |gs| && k < |gs[g]| && row[gs[g][k]] != ""
    ensures MergedRow(row, gs)[g] != ""
  {
    FirstTextFound(row, gs[g], k);
    MergedRowAt(row, gs, g);
  }

  /** Which merged column holds the reader's column o of the group. */
  lemma KeptAt(gs: seq<seq<nat>>, i: nat, w: nat, whole: bool, lo: nat, hi: nat, o: nat) returns (g: nat, k: nat)
    requires lo <= o < hi && i + w <= |gs| && gs[i..i + w] == Kept(whole, lo, hi)
    ensures i <= g < i + w && k < |gs[g]| && gs[g][k] == o
    ensures !whole ==> w == hi - lo && g == i + (o - lo) && gs[g] == [o]
  {
    var x := if whole then 0 else o - lo;
    RangeAt(lo, hi, o - lo);
    assert gs[i..i + w][x] == gs[i + x];
    g, k := i + x, if whole then o - lo else 0;
  }

  /** Where the next group starts, its first column still clashes with the merged ones before it. */
  lemma StillClash(rows: seq<Row>, n: nat, gs: seq<seq<nat>>, lo: nat, hi: nat, i: nat, whole: bool, w: nat)
    requires Rectangular(rows, n) && AllUnder(gs, n) && lo < hi < n && Clash(rows, n, lo, hi)
    requires i + w < |gs| && gs[i..i + w] == Kept(whole, lo, hi) && gs[i + w] != [] && gs[i + w][0] == hi
    ensures Clash(Merged(rows, n, gs), |gs|, i, i + w)
  {
    var r, o := ClashFound(rows, n, lo, hi, 0);
    var g, k := KeptAt(gs, i, w, whole, lo, hi, o);
    MergedText(rows[r], gs, i + w, 0);
    MergedText(rows[r], gs, g, k);
    MergedAt(rows, n, gs, r);
    AnyTextAt(Merged(rows, n, gs)[r], i, i + w, g);
    ClashAt(Merged(rows, n, gs), |gs|, i, i + w, 0, r);
  }

  /** Column i + x of m is column lo + x of rows. */
  ghost predicate SameColumn(rows: seq<Row>, lo: nat, m: seq<Row>, i: nat, x: nat)
    requires |m| == |rows|
    requires forall r :: 0 <= r < |rows| ==> i + x < |m[r]| && lo + x < |rows[r]|
  {
    forall r :: 0 <= r < |rows| ==> m[r][i + x] == rows[r][lo + x]
  }

  ghost predicate SameColumns(rows: seq<Row>, n: nat, lo: nat, m: seq<Row>, k: nat, i: nat, w: nat) {
    && Rectangular(rows, n) && Rectangular(m, k) && |m| == |rows| && lo + w <= n && i + w <= k
    && forall x :: 0 <= x < w ==> SameColumn(rows, lo, m, i, x)
  }

  /** The columns of a group that was taken apart are the reader's own. */
  lemma OwnColumns(rows: seq<Row>, n: nat, gs: seq<seq<nat>>, lo: nat, hi: nat, i: nat, w: nat)
    requires Rectangular(rows, n) && AllUnder(gs, n) && lo < hi <= n
    requires i + w <= |gs| && gs[i..i + w] == Kept(false, lo, hi)
    ensures SameColumns(rows, n, lo, Merged(rows, n, gs), |gs|, i, w) && w == hi - lo
  {
    assert |gs[i..i + w]| == hi - lo;
    forall x | 0 <= x < w ensures SameColumn(rows, lo, Merged(rows, n, gs), i, x) {
      var g, k := KeptAt(gs, i, w, false, lo, hi, lo + x);
      forall r | 0 <= r < |rows| ensures Merged(rows, n, gs)[r][i + x] == rows[r][lo + x] {
        MergedAt(rows, n, gs, r);
        MergedRowAt(rows[r], gs, i + x);
        FirstTextSingle(rows[r], lo + x);
      }
    }
  }

  lemma FirstTextSingle(row: Row, c: nat)
    requires c < |row|
    ensures FirstText(row, [c]) == row[c]
  {
  }

  lemma {:induction false} NoClashYet(m: seq<Row>, k: nat, i: nat, c: nat, e: nat)
    requires Rectangular(m, k) && i < c <= e <= k && Free(m, k, i, e) && (e < k ==> Clash(m, k, i, e))
    ensures GroupEnd(m, k, i, c) == e
    decreases e - c
  {
    if c < e {
      if Clash(m, k, i, c) { var r, o := ClashFound(m, k, i, c, 0); }
      NoClashYet(m, k, i, c + 1, e);
    }
  }

  lemma FreeShift(rows: seq<Row>, n: nat, lo: nat, m: seq<Row>, k: nat, i: nat, w: nat)
    requires SameColumns(rows, n, lo, m, k, i, w) && Free(rows, n, lo, lo + w)
    ensures Free(m, k, i, i + w)
  {
    forall r, a, b | 0 <= r < |m| && i <= a < b < i + w ensures m[r][a] == "" || m[r][b] == "" {
      assert SameColumn(rows, lo, m, i, a - i) && SameColumn(rows, lo, m, i, b - i);
      assert rows[r][lo + (a - i)] == "" || rows[r][lo + (b - i)] == "";
    }
  }

  lemma {:induction false} TextInShift(rows: seq<Row>, n: nat, o: nat, m: seq<Row>, k: nat, p: nat, a: nat, b: nat)
    requires Rectangular(rows, n) && Rectangular(m, k) && |m| == |rows| && o < n && p < k
    requires forall r :: 0 <= r < |rows| ==> m[r][p] == rows[r][o]
    ensures TextIn(m, k, a, b, p) == TextIn(rows, n, a, b, o)
    decreases b - a
  {
    if a < b && a < |rows| { TextInShift(rows, n, o, m, k, p, a + 1, b); }
  }

  /** Columns with the same contents have the same signature. */
  lemma {:induction false} SignatureShift(rows: seq<Row>, n: nat, headerRows: nat, lo: nat, m: seq<Row>, k: nat,
        i: nat, w: nat, x: nat)
    requires SameColumns(rows, n, lo, m, k, i, w) && x <= w
    ensures SignatureOf(m, k, headerRows, i + x, i + w) == SignatureOf(rows, n, headerRows, lo + x, lo + w)
    decreases w - x
  {
    if x < w {
      assert SameColumn(rows, lo, m, i, x);
      TextInShift(rows, n, lo + x, m, k, i + x, 0, headerRows);
      TextInShift(rows, n, lo + x, m, k, i + x, headerRows, |rows|);
      SignatureShift(rows, n, headerRows, lo, m, k, i, w, x + 1);
    }
  }

  /** A group that was taken apart is found again, and does not qualify. */
  lemma ApartFree(rows: seq<Row>, n: nat, gs: seq<seq<nat>>, lo: nat, hi: nat, i: nat, w: nat)
    requires Rectangular(rows, n) && AllUnder(gs, n) && lo < hi <= n && Free(rows, n, lo, hi)
    requires i + w <= |gs| && gs[i..i + w] == Kept(false, lo, hi)
    ensures Free(Merged(rows, n, gs), |gs|, i, i + w)
  {
    OwnColumns(rows, n, gs, lo, hi, i, w);
    FreeShift(rows, n, lo, Merged(rows, n, gs), |gs|, i, w);
  }

  lemma ApartSignature(rows: seq<Row>, n: nat, headerRows: nat, gs: seq<seq<nat>>, lo: nat, hi: nat, i: nat, w: nat)
    requires Rectangular(rows, n) && AllUnder(gs, n) && lo < hi <= n
    requires i + w <= |gs| && gs[i..i + w] == Kept(false, lo, hi)
    ensures w == hi - lo
    ensures SignatureOf(Merged(rows, n, gs), |gs|, headerRows, i, i + w) == SignatureOf(rows, n, headerRows, lo, hi)
  {
    OwnColumns(rows, n, gs, lo, hi, i, w);
    SignatureShift(rows, n, headerRows, lo, Merged(rows, n, gs), |gs|, i, w, 0);
  }

  lemma AloneStep(m: seq<Row>, k: nat, headerRows: nat, i: nat, e: nat)
    requires Rectangular(m, k) && i < e <= k && Free(m, k, i, e) && (e < k ==> Clash(m, k, i, e))
    requires Qualifies(m, k, headerRows, i, e) == false
    ensures GroupsFrom(m, k, headerRows, i) == Singles(i, e) + GroupsFrom(m, k, headerRows, e)
  {
    NoClashYet(m, k, i, i + 1, e);
  }

  /** So its columns stay apart in the merged grid. */
  lemma ApartAlone(rows: seq<Row>, n: nat, headerRows: nat, gs: seq<seq<nat>>, lo: nat, hi: nat, i: nat, w: nat)
    requires Rectangular(rows, n) && AllUnder(gs, n) && lo < hi <= n && Free(rows, n, lo, hi)
    requires i + w <= |gs| && gs[i..i + w] == Kept(false, lo, hi) && !Qualifies(rows, n, headerRows, lo, hi)
    ensures Free(Merged(rows, n, gs), |gs|, i, i + w)
    ensures Qualifies(Merged(rows, n, gs), |gs|, headerRows, i, i + w) == false
  {
    ApartFree(rows, n, gs, lo, hi, i, w);
    ApartSignature(rows, n, headerRows, gs, lo, hi, i, w);
  }

  /** A column on its own is no group. */
  lemma OneAlone(m: seq<Row>, k: nat, headerRows: nat, i: nat)
    requires Rectangular(m, k) && i < k
    ensures Free(m, k, i, i + 1) && Qualifies(m, k, headerRows, i, i + 1) == false
  {
  }

  /** All that is known of one group of the first pass. */
  lemma FirstGroup(rows: seq<Row>, n: nat, headerRows: nat, gs: seq<seq<nat>>, lo: nat, i: nat)
    returns (hi: nat, whole: bool, w: nat)
    requires Rectangular(rows, n) && lo < n && i <= |gs| && gs[i..] == GroupsFrom(rows, n, headerRows, lo)
    ensures lo < hi <= n && Free(rows, n, lo, hi) && (hi < n ==> Clash(rows, n, lo, hi))
    ensures whole == Qualifies(rows, n, headerRows, lo, hi) && 0 < w && w == (if whole then 1 else hi - lo)
    ensures i + w <= |gs| && gs[i..i + w] == Kept(whole, lo, hi) && gs[i + w..] == GroupsFrom(rows, n, headerRows, hi)
    ensures if hi == n then i + w == |gs| else i + w < |gs| && gs[i + w] != [] && gs[i + w][0] == hi
  {
    hi := GroupEnd(rows, n, lo, lo + 1);
    whole := Qualifies(rows, n, headerRows, lo, hi);
    w := if whole then 1 else hi - lo;
    GroupStep(rows, n, headerRows, gs, lo, i, hi, whole, w);
    GroupEndFree(rows, n, lo, lo + 1);
    GroupEndClash(rows, n, lo, lo + 1);
  }

  /** One group of the first pass, and its columns in the second. */
  lemma NextGroup(rows: seq<Row>, n: nat, headerRows: nat, gs: seq<seq<nat>>, m: seq<Row>, lo: nat, i: nat)
    returns (hi: nat, e: nat)
    requires Rectangular(rows, n) && AllUnder(gs, n) && m == Merged(rows, n, gs)
    requires lo < n && i <= |gs| && gs[i..] == GroupsFrom(rows, n, headerRows, lo)
    ensures lo < hi <= n && i < e <= |gs| && gs[e..] == GroupsFrom(rows, n, headerRows, hi)
    ensures GroupsFrom(m, |gs|, headerRows, i) == Singles(i, e) + GroupsFrom(m, |gs|, headerRows, e)
  {
    var whole, w;
    hi, whole, w := FirstGroup(rows, n, headerRows, gs, lo, i);
    e := i + w;
    if hi < n { StillClash(rows, n, gs, lo, hi, i, whole, w); }
    if whole { OneAlone(m, |gs|, headerRows, i); } else { ApartAlone(rows, n, headerRows, gs, lo, hi, i, w); }
    AloneStep(m, |gs|, headerRows, i, e);
  }

  /** In the merged grid, no group qualifies any more: every merged column stands alone. */
  lemma {:induction false} SecondPass(rows: seq<Row>, n: nat, headerRows: nat, gs: seq<seq<nat>>, m: seq<Row>,
        lo: nat, i: nat)
    requires Rectangular(rows, n) && AllUnder(gs, n) && m == Merged(rows, n, gs)
    requires lo <= n && i <= |gs| && gs[i..] == GroupsFrom(rows, n, headerRows, lo)
    ensures GroupsFrom(m, |gs|, headerRows, i) == Singles(i, |gs|)
    decreases n - lo
  {
    if lo < n {
      var hi, e := NextGroup(rows, n, headerRows, gs, m, lo, i);
      SecondPass(rows, n, headerRows, gs, m, hi, e);
      SinglesJoin(i, e, |gs|);
    }
  }

  /** What merging gives, whether or not any column was merged. */
  lemma CollapseIs(rows: seq<Row>, headerRows: nat)
    requires Rectangular(rows, Width(rows))
    ensures AllUnder(Groups(rows, headerRows), Width(rows))
    ensures Collapse(rows, headerRows)
      == (Merged(rows, Width(rows), Groups(rows, headerRows)), Groups(rows, headerRows))
  {
    var n := Width(rows);
    var gs := Groups(rows, headerRows);
    GroupsTile(rows, headerRows);
    TilesUnder(gs, 0, n);
    if |gs| == n {
      AllAlone(gs, 0, n);
      MergedAlone(rows, n, gs);
    }
  }

  lemma MergedAlone(rows: seq<Row>, n: nat, gs: seq<seq<nat>>)
    requires Rectangular(rows, n) && AllUnder(gs, n) && gs == Singles(0, n)
    ensures Merged(rows, n, gs) == rows
  {
    forall r | 0 <= r < |rows| ensures Merged(rows, n, gs)[r] == rows[r] {
      MergedAt(rows, n, gs, r);
      forall c | 0 <= c < n ensures MergedRow(rows[r], gs)[c] == rows[r][c] {
        RangeAt(0, n, c);
        MergedRowAt(rows[r], gs, c);
        FirstTextSingle(rows[r], c);
      }
    }
  }

  /** Merging a merged grid changes nothing: no group is left to merge. */
  lemma CollapseIdempotent(rows: seq<Row>, headerRows: nat)
    requires Rectangular(rows, Width(rows)) && rows != []
    ensures var once := Collapse(rows, headerRows);
            && Rectangular(once.0, Width(once.0)) && Width(once.0) == |once.1|
            && Collapse(once.0, headerRows) == (once.0, Singles(0, |once.1|))
  {
    var n := Width(rows);
    var gs := Groups(rows, headerRows);
    CollapseIs(rows, headerRows);
    var m := Merged(rows, n, gs);
    assert gs[0..] == gs;
    SecondPass(rows, n, headerRows, gs, m, 0, 0);
    WidthRectangular(m, |gs|);
    CollapseAlone(m, |gs|, headerRows);
  }

  lemma CollapseAlone(m: seq<Row>, k: nat, headerRows: nat)
    requires Rectangular(m, k) && Width(m) == k && GroupsFrom(m, k, headerRows, 0) == Singles(0, k)
    ensures Collapse(m, headerRows) == (m, Singles(0, k))
  {
  }

  lemma {:induction false} AllAlone(gs: seq<seq<nat>>, lo: nat, n: nat)
    requires Tiles(gs, lo, n)
    ensures |gs| <= n - lo
    ensures |gs| == n - lo ==> gs == Singles(lo, n)
    decreases |gs|
  {
    if gs != [] {
      AllAlone(gs[1..], lo + |gs[0]|, n);
      if |gs| == n - lo { assert gs[0] == Range(lo, lo + 1) == [lo]; }
    }
  }

  // ------------------------------------------------------------------ the loop

  /** The groups found greedily, before any is taken apart. */
  function Greedy(rows: seq<Row>, n: nat, lo: nat): (gs: seq<seq<nat>>)
    requires Rectangular(rows, n) && lo <= n
    decreases n - lo
  {
    if lo == n then []
    else
      var hi := GroupEnd(rows, n, lo, lo + 1);
      [Range(lo, hi)] + Greedy(rows, n, hi)
  }

  /** c may join the group: no row has text in it and in one of the group. */
  predicate Joins(rows: seq<Row>, grp: seq<nat>, c: nat) {
    forall r :: 0 <= r < |rows| && c < |rows[r]| && rows[r][c] != "" ==>
      forall k :: 0 <= k < |grp| && grp[k] < |rows[r]| ==> rows[r][grp[k]] == ""
  }

  lemma JoinsIsNoClash(rows: seq<Row>, n: nat, lo: nat, c: nat)
    requires Rectangular(rows, n) && lo < c < n
    ensures Joins(rows, Range(lo, c), c) <==> !Clash(rows, n, lo, c)
  {
    if Clash(rows, n, lo, c) {
      var r, o := ClashFound(rows, n, lo, c, 0);
      RangeAt(lo, c, o - lo);
    }
    if !Joins(rows, Range(lo, c), c) {
      var grp := Range(lo, c);
      var r :| 0 <= r < |rows| && rows[r][c] != "" &&
        !(forall k :: 0 <= k < |grp| && grp[k] < |rows[r]| ==> rows[r][grp[k]] == "");
      var k :| 0 <= k < |grp| && grp[k] < |rows[r]| && rows[r][grp[k]] != "";
      RangeAt(lo, c, k);
      AnyTextAt(rows[r], lo, c, lo + k);
      ClashAt(rows, n, lo, c, 0, r);
    }
  }

  lemma {:induction false} RangeGrows(lo: nat, hi: nat)
    requires lo <= hi
    ensures Range(lo, hi) + [hi] == Range(lo, hi + 1)
    decreases hi - lo
  {
    if lo < hi { RangeGrows(lo + 1, hi); }
  }

  /** The greedy loop over the columns. */
  method FindGroups(rows: seq<Row>, n: nat) returns (groups: seq<seq<nat>>)
    requires Rectangular(rows, n)
    ensures groups == Greedy(rows, n, 0)
  {
    groups := [];
    ghost var done, lo := [], 0;
    for c := 0 to n
      invariant 0 <= lo <= c && (lo == c <==> c == 0)
      invariant groups == if c == 0 then [] else done + [Range(lo, c)]
      invariant c > 0 ==>
        var hi := GroupEnd(rows, n, lo, c);
        done + [Range(lo, hi)] + Greedy(rows, n, hi) == Greedy(rows, n, 0)
    {
      if c > 0 { JoinsIsNoClash(rows, n, lo, c); }
      if groups != [] && Joins(rows, groups[|groups| - 1], c) {
        RangeGrows(lo, c);
        groups := groups[|groups| - 1 := groups[|groups| - 1] + [c]];
      } else {
        assert Range(c, c + 1) == [c];
        done, lo := groups, c;
        groups := groups + [[c]];
      }
    }
    if n > 0 { assert GroupEnd(rows, n, lo, n) == n; }
  }

  /** Whether a group qualifies, read off its columns. */
  method Shaded(rows: seq<Row>, n: nat, headerRows: nat, ghost lo: nat, ghost hi: nat, grp: seq<nat>)
    returns (kept: bool)
    requires Rectangular(rows, n) && lo <= hi <= n && grp == Range(lo, hi)
    ensures kept == Qualifies(rows, n, headerRows, lo, hi)
  {
    if |grp| < 2 || headerRows == 0 {
      return false;
    }
    var head, data, both := false, false, false;
    var k := |grp|;
    while k > 0
      invariant 0 <= k <= |grp|
      invariant Signature(head, data, both) == SignatureOf(rows, n, headerRows, lo + k, hi)
    {
      k := k - 1;
      RangeAt(lo, hi, k);
      var h, d := TextIn(rows, n, 0, headerRows, grp[k]), TextIn(rows, n, headerRows, |rows|, grp[k]);
      head, data, both := h || head, d || data, (h && d) || both;
    }
    kept := head && data && !both;
  }

  method CollapseSplitColumns(rows: seq<Row>, headerRows: nat) returns (merged: seq<Row>, groups: seq<seq<nat>>)
    requires Rectangular(rows, Width(rows))
    ensures (merged, groups) == Collapse(rows, headerRows)
  {
    var n := Width(rows);
    var greedy := FindGroups(rows, n);
    groups := [];
    ghost var lo := 0;
    for g := 0 to |greedy|
      invariant lo <= n && greedy[g..] == Greedy(rows, n, lo)
      invariant groups + GroupsFrom(rows, n, headerRows, lo) == Groups(rows, headerRows)
    {
      ghost var hi := GroupEnd(rows, n, lo, lo + 1);
      GreedyStep(rows, n, lo, greedy, g);
      var kept := Shaded(rows, n, headerRows, lo, hi, greedy[g]);
      AloneIsSingles(lo, hi);
      var next := if kept then [greedy[g]] else Alone(greedy[g]);
      assert next + GroupsFrom(rows, n, headerRows, hi) == GroupsFrom(rows, n, headerRows, lo);
      Assoc(groups, next, GroupsFrom(rows, n, headerRows, hi));
      groups := groups + next;
      lo := hi;
    }
    assert lo == n && groups == Groups(rows, headerRows);
    CollapseIs(rows, headerRows);
    merged := if |groups| == n then rows else Merged(rows, n, groups);
  }

  lemma GreedyStep(rows: seq<Row>, n: nat, lo: nat, greedy: seq<seq<nat>>, g: nat)
    requires Rectangular(rows, n) && lo <= n && g < |greedy| && greedy[g..] == Greedy(rows, n, lo)
    ensures lo < n && greedy[g] == Range(lo, GroupEnd(rows, n, lo, lo + 1))
    ensures greedy[g + 1..] == Greedy(rows, n, GroupEnd(rows, n, lo, lo + 1))
  {
    assert greedy[g] == greedy[g..][0] && greedy[g + 1..] == greedy[g..][1..];
  }

  function Alone(grp: seq<nat>): seq<seq<nat>> { if grp == [] then [] else [[grp[0]]] + Alone(grp[1..]) }

  lemma {:induction false} AloneIsSingles(lo: nat, hi: nat)
    requires lo <= hi
    ensures Alone(Range(lo, hi)) == Singles(lo, hi)
    decreases hi - lo
  {
    if lo < hi {
      AloneIsSingles(lo + 1, hi);
      assert Range(lo, hi)[1..] == Range(lo + 1, hi);
    }
  }

  // ------------------------------------------------------------------ header paths

  /** The heading over column c in a header row: the nearest text at c or to its left. */
  function HeaderText(row: Row, c: nat): string
    requires c < |row|
  {
    if row[c] != "" || c == 0 then row[c] else HeaderText(row, c - 1)
  }

  /** The headings over column c in the first h rows, without immediate repeats. */
  function PathOf(rows: seq<Row>, n: nat, h: nat, c: nat): seq<string>
    requires Rectangular(rows, n) && h <= |rows| && c < n
  {
    if h == 0 then [] else Extend(PathOf(rows, n, h - 1, c), HeaderText(rows[h - 1], c))
  }

  function Extend(path: seq<string>, t: string): seq<string> {
    if t != "" && (path == [] || path[|path| - 1] != t) then path + [t] else path
  }

  /** Some heading over column c came from a column to its left. */
  predicate Inherits(rows: seq<Row>, n: nat, h: nat, c: nat)
    requires Rectangular(rows, n) && h <= |rows| && c < n
  {
    h > 0 && (Inherits(rows, n, h - 1, c) || (rows[h - 1][c] == "" && HeaderText(rows[h - 1], c) != ""))
  }

  /** The paths and marks that the first h header rows give. */
  ghost predicate PathsUpTo(rows: seq<Row>, n: nat, h: nat, paths: seq<seq<string>>, inherited: seq<bool>, lo: nat,
        hi: nat)
    requires Rectangular(rows, n) && h <= |rows| && hi <= n
  {
    && |paths| == |inherited| == n
    && forall c :: lo <= c < hi ==> paths[c] == PathOf(rows, n, h, c) && inherited[c] == Inherits(rows, n, h, c)
  }

  lemma PathsStep(rows: seq<Row>, n: nat, r: nat, c: nat, paths: seq<seq<string>>, inherited: seq<bool>)
    requires Rectangular(rows, n) && r < |rows| && c < n
    requires PathsUpTo(rows, n, r + 1, paths, inherited, 0, c) && PathsUpTo(rows, n, r, paths, inherited, c, n)
    ensures var t := HeaderText(rows[r], c);
      var paths', inherited' := paths[c := Extend(paths[c], t)],
        inherited[c := inherited[c] || (rows[r][c] == "" && t != "")];
      PathsUpTo(rows, n, r + 1, paths', inherited', 0, c + 1) && PathsUpTo(rows, n, r, paths', inherited', c + 1, n)
  {
  }

  /** The headings of one row are added to the paths of all columns. */
  method HeaderRow(rows: seq<Row>, n: nat, r: nat, before: seq<seq<string>>, marked: seq<bool>)
    returns (paths: seq<seq<string>>, inherited: seq<bool>)
    requires Rectangular(rows, n) && r < |rows| && PathsUpTo(rows, n, r, before, marked, 0, n)
    ensures PathsUpTo(rows, n, r + 1, paths, inherited, 0, n)
  {
    var last := "";
    paths, inherited := before, marked;
    for c := 0 to n
      invariant last == if c == 0 then "" else HeaderText(rows[r], c - 1)
      invariant PathsUpTo(rows, n, r + 1, paths, inherited, 0, c) && PathsUpTo(rows, n, r, paths, inherited, c, n)
    {
      PathsStep(rows, n, r, c, paths, inherited);
      var t := rows[r][c];
      if t != "" {
        last := t;
      } else if last != "" {
        t := last;
        inherited := inherited[c := true];
      }
      if t != "" && (paths[c] == [] || paths[c][|paths[c]| - 1] != t) {
        paths := paths[c := paths[c] + [t]];
      }
    }
  }

  method HeaderPaths(rows: seq<Row>, n: nat, headerRows: nat) returns (paths: seq<seq<string>>, inherited: seq<bool>)
    requires Rectangular(rows, n)
    ensures PathsUpTo(rows, n, if headerRows < |rows| then headerRows else |rows|, paths, inherited, 0, n)
  {
    var h := if headerRows < |rows| then headerRows else |rows|;
    paths, inherited := seq(n, _ => []), seq(n, _ => false);
    for r := 0 to h
      invariant PathsUpTo(rows, n, r, paths, inherited, 0, n)
    {
      paths, inherited := HeaderRow(rows, n, r, paths, inherited);
    }
  }

  /** A header path holds exactly the headings over its column. */
  lemma {:induction false} PathHolds(rows: seq<Row>, n: nat, h: nat, c: nat, t: string)
    requires Rectangular(rows, n) && h <= |rows| && c < n
    ensures t in PathOf(rows, n, h, c) <==> t != "" && exists r :: 0 <= r < h && HeaderText(rows[r], c) == t
  {
    if h > 0 { PathHolds(rows, n, h - 1, c, t); }
  }

  /** None is repeated at once. */
  lemma {:induction false} PathHasNoRepeats(rows: seq<Row>, n: nat, h: nat, c: nat, k: nat)
    requires Rectangular(rows, n) && h <= |rows| && c < n && 0 < k < |PathOf(rows, n, h, c)|
    ensures PathOf(rows, n, h, c)[k] != PathOf(rows, n, h, c)[k - 1]
  {
    if k < |PathOf(rows, n, h - 1, c)| { PathHasNoRepeats(rows, n, h - 1, c, k); }
  }

  /** A heading stems from the nearest column at or left of c that has text in the row. */
  lemma {:induction false} HeaderTextNearest(row: Row, c: nat) returns (p: nat)
    requires c < |row| && HeaderText(row, c) != ""
    ensures p <= c && row[p] == HeaderText(row, c) && forall k :: p < k <= c ==> row[k] == ""
  {
    p := c;
    if row[c] == "" { p := HeaderTextNearest(row, c - 1); }
  }
}
