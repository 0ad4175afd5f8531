/** Which reader columns are merged, and how a header path follows the header rows. */
module ColumnLaws {
  import opened Basics
  import opened Readers
  import opened GridColumns

  // ------------------------------------------------------------------ the texts of a row

  /** The columns from i on that hold text. */
  function TextColumns(row: Row, i: nat): (ks: seq<nat>)
    ensures Below(ks, |row|)
    decreases |row| - i
  {
    if i >= |row| then [] else (if row[i] != "" then [i] else []) + TextColumns(row, i + 1)
  }

  lemma {:induction false} TextColumnsExact(row: Row, i: nat, k: nat)
    ensures k in TextColumns(row, i) <==> i <= k < |row| && row[k] != ""
    decreases |row| - i
  {
    if i < |row| { TextColumnsExact(row, i + 1, k); }
  }

  lemma {:induction false} TextColumnsRise(row: Row, i: nat)
    ensures RisingNats(TextColumns(row, i))
    decreases |row| - i
  {
    if i < |row| {
      var rest := TextColumns(row, i + 1);
      TextColumnsRise(row, i + 1);
      forall j | 0 <= j < |rest| ensures rest[j] > i {
        assert rest[j] in rest;
        TextColumnsExact(row, i + 1, rest[j]);
      }
    }
  }

  lemma {:induction false} TextColumnsTexts(row: Row, i: nat)
    ensures var ks := TextColumns(row, i);
      |ks| == |TextsFrom(row, i)| && forall j :: 0 <= j < |ks| ==> TextsFrom(row, i)[j] == row[ks[j]]
    decreases |row| - i
  {
    if i < |row| { TextColumnsTexts(row, i + 1); }
  }

  /** The texts of a row are those of its columns that hold text, left to right. */
  lemma TextsAre(row: Row, i: nat) returns (ks: seq<nat>)
    ensures RisingNats(ks) && Below(ks, |row|) && forall k: nat :: k in ks <==> i <= k < |row| && row[k] != ""
    ensures |ks| == |TextsFrom(row, i)| && forall j :: 0 <= j < |ks| ==> TextsFrom(row, i)[j] == row[ks[j]]
  {
    ks := TextColumns(row, i);
    TextColumnsRise(row, i);
    TextColumnsTexts(row, i);
    forall k: nat ensures k in ks <==> i <= k < |row| && row[k] != "" { TextColumnsExact(row, i, k); }
  }

  // ------------------------------------------------------------------ the runs of the greedy loop

  /** No row has text in two columns of the run. */
  ghost predicate OneEach(rows: seq<Row>, run: seq<nat>) {
    forall r, a, b :: 0 <= r < |rows| && a in run && b in run && a < b < |rows[r]| ==>
      rows[r][a] == "" || rows[r][b] == ""
  }

  /** Some row has text in column c and in a column of the run. */
  ghost predicate Stops(rows: seq<Row>, run: seq<nat>, c: nat) {
    exists r, a :: 0 <= r < |rows| && a in run && a < |rows[r]| && c < |rows[r]| && rows[r][a] != "" && rows[r][c] != ""
  }

  lemma {:induction false} InRun(lo: nat, hi: nat, c: nat)
    ensures c in Range(lo, hi) <==> lo <= c < hi
    decreases hi - lo
  {
    if lo < hi { InRun(lo + 1, hi, c); }
  }

  lemma RunIsMaximal(rows: seq<Row>, n: nat, lo: nat)
    requires Rectangular(rows, n) && lo < n
    ensures var hi := GroupEnd(rows, n, lo, lo + 1);
      OneEach(rows, Range(lo, hi)) && (hi < n ==> Stops(rows, Range(lo, hi), hi))
  {
    var hi := GroupEnd(rows, n, lo, lo + 1);
    assert Free(rows, n, lo, lo + 1);
    GroupEndFree(rows, n, lo, lo + 1);
    forall c ensures c in Range(lo, hi) <==> lo <= c < hi { if c >= 0 { InRun(lo, hi, c); } }
    GroupEndClash(rows, n, lo, lo + 1);
    if hi < n {
      var r, a := ClashFound(rows, n, lo, hi, 0);
      InRun(lo, hi, a);
    }
  }

  /** Each run has one text at most in a row, and ends only where the next column would give it two. */
  lemma {:induction false} RunsAreMaximal(rows: seq<Row>, n: nat, lo: nat, k: nat)
    requires Rectangular(rows, n) && lo <= n && k < |Greedy(rows, n, lo)|
    ensures Tiles(Greedy(rows, n, lo), lo, n)
    ensures var gs := Greedy(rows, n, lo);
      OneEach(rows, gs[k]) && gs[k] != [] && (k + 1 < |gs| ==> gs[k + 1] != [] && Stops(rows, gs[k], gs[k + 1][0]))
    decreases n - lo
  {
    var hi := GroupEnd(rows, n, lo, lo + 1);
    RunIsMaximal(rows, n, lo);
    if hi < n {
      RunsAreMaximal(rows, n, hi, if k > 0 then k - 1 else 0);
    } else {
      assert Greedy(rows, n, hi) == [];
    }
    assert Greedy(rows, n, lo)[1..] == Greedy(rows, n, hi);
  }

  // ------------------------------------------------------------------ which runs are merged

  /** Some of the rows from a to b has text in column c. */
  ghost predicate TextAmong(rows: seq<Row>, a: nat, b: nat, c: nat) {
    exists r :: a <= r < b && r < |rows| && c < |rows[r]| && rows[r][c] != ""
  }

  ghost predicate Headed(rows: seq<Row>, headerRows: nat, c: nat) { TextAmong(rows, 0, headerRows, c) }

  ghost predicate HasData(rows: seq<Row>, headerRows: nat, c: nat) { TextAmong(rows, headerRows, |rows|, c) }

  /** The run has headings and data, and they stand in different columns. */
  ghost predicate ShadedHeading(rows: seq<Row>, headerRows: nat, run: seq<nat>) {
    && (exists c :: c in run && Headed(rows, headerRows, c))
    && (exists c :: c in run && HasData(rows, headerRows, c))
    && (forall c :: c in run ==> !Headed(rows, headerRows, c) || !HasData(rows, headerRows, c))
  }

  lemma {:induction false} TextInIs(rows: seq<Row>, n: nat, a: nat, b: nat, c: nat)
    requires Rectangular(rows, n) && c < n
    ensures TextIn(rows, n, a, b, c) <==> TextAmong(rows, a, b, c)
    decreases b - a
  {
    if a < b && a < |rows| { TextInIs(rows, n, a + 1, b, c); }
  }

  lemma {:induction false} SignatureIs(rows: seq<Row>, n: nat, h: nat, lo: nat, hi: nat)
    requires Rectangular(rows, n) && hi <= n
    ensures var s := SignatureOf(rows, n, h, lo, hi);
      && (s.head <==> exists c: nat :: lo <= c < hi && Headed(rows, h, c))
      && (s.data <==> exists c: nat :: lo <= c < hi && HasData(rows, h, c))
      && (s.both <==> exists c: nat :: lo <= c < hi && Headed(rows, h, c) && HasData(rows, h, c))
    decreases hi - lo
  {
    if lo < hi {
      SignatureIs(rows, n, h, lo + 1, hi);
      TextInIs(rows, n, 0, h, lo);
      TextInIs(rows, n, h, |rows|, lo);
      assert Headed(rows, h, lo) == TextIn(rows, n, 0, h, lo) && HasData(rows, h, lo) == TextIn(rows, n, h, |rows|, lo);
    }
  }

  lemma QualifiesIs(rows: seq<Row>, n: nat, h: nat, lo: nat, hi: nat)
    requires Rectangular(rows, n) && lo <= hi <= n
    ensures Qualifies(rows, n, h, lo, hi) <==> ShadedHeading(rows, h, Range(lo, hi))
  {
    var run := Range(lo, hi);
    forall c: nat ensures c in run <==> lo <= c < hi { InRun(lo, hi, c); }
    SignatureIs(rows, n, h, lo, hi);
    if ShadedHeading(rows, h, run) {
      var c :| c in run && Headed(rows, h, c);
      var d :| d in run && HasData(rows, h, d);
      assert c != d;
    }
  }

  /** Columns o and p lie in one of the groups. */
  ghost predicate Together(gs: seq<seq<nat>>, o: nat, p: nat) { exists g :: 0 <= g < |gs| && o in gs[g] && p in gs[g] }

  /** They lie in one run with a shaded heading. */
  ghost predicate TogetherShaded(rows: seq<Row>, h: nat, runs: seq<seq<nat>>, o: nat, p: nat) {
    exists k :: 0 <= k < |runs| && o in runs[k] && p in runs[k] && ShadedHeading(rows, h, runs[k])
  }

  lemma TogetherConcat(a: seq<seq<nat>>, b: seq<seq<nat>>, o: nat, p: nat)
    ensures Together(a + b, o, p) <==> Together(a, o, p) || Together(b, o, p)
  {
    if g :| 0 <= g < |a| && o in a[g] && p in a[g] { assert (a + b)[g] == a[g]; }
    if g :| 0 <= g < |b| && o in b[g] && p in b[g] { assert (a + b)[|a| + g] == b[g]; }
  }

  lemma KeptTogether(whole: bool, lo: nat, hi: nat, o: nat, p: nat)
    requires lo <= hi && o < p
    ensures Together(Kept(whole, lo, hi), o, p) <==> whole && lo <= o && p < hi
  {
    InRun(lo, hi, o);
    InRun(lo, hi, p);
    if whole {
      assert Kept(whole, lo, hi)[0] == Range(lo, hi);
    } else if g :| 0 <= g < |Kept(whole, lo, hi)| && o in Kept(whole, lo, hi)[g] && p in Kept(whole, lo, hi)[g] {
      RangeAt(lo, hi, g);
    }
  }

  lemma TogetherShadedCons(rows: seq<Row>, h: nat, run: seq<nat>, rest: seq<seq<nat>>, o: nat, p: nat)
    ensures TogetherShaded(rows, h, [run] + rest, o, p) <==>
      (o in run && p in run && ShadedHeading(rows, h, run)) || TogetherShaded(rows, h, rest, o, p)
  {
    var all := [run] + rest;
    if o in run && p in run && ShadedHeading(rows, h, run) { assert all[0] == run; }
    if k :| 0 <= k < |rest| && o in rest[k] && p in rest[k] && ShadedHeading(rows, h, rest[k]) {
      assert all[k + 1] == rest[k];
    }
    if k :| 0 <= k < |all| && o in all[k] && p in all[k] && ShadedHeading(rows, h, all[k]) {
      if k > 0 { assert all[k] == rest[k - 1]; }
    }
  }

  lemma {:induction false} SharedFrom(rows: seq<Row>, n: nat, h: nat, lo: nat, o: nat, p: nat)
    requires Rectangular(rows, n) && lo <= n && o < p
    ensures Together(GroupsFrom(rows, n, h, lo), o, p) <==> TogetherShaded(rows, h, Greedy(rows, n, lo), o, p)
    decreases n - lo
  {
    if lo < n {
      var hi := GroupEnd(rows, n, lo, lo + 1);
      var whole, rest := Qualifies(rows, n, h, lo, hi), GroupsFrom(rows, n, h, hi);
      SharedFrom(rows, n, h, hi, o, p);
      QualifiesIs(rows, n, h, lo, hi);
      TogetherConcat(Kept(whole, lo, hi), rest, o, p);
      KeptTogether(whole, lo, hi, o, p);
      InRun(lo, hi, o);
      InRun(lo, hi, p);
      TogetherShadedCons(rows, h, Range(lo, hi), Greedy(rows, n, hi), o, p);
    }
  }

  /** Two reader columns become one exactly when one run of the greedy loop holds both and has its headings
      and its data in different columns. */
  lemma MergedExactly(rows: seq<Row>, headerRows: nat, o: nat, p: nat)
    requires Rectangular(rows, Width(rows)) && o < p
    ensures Together(Collapse(rows, headerRows).1, o, p)
        <==> TogetherShaded(rows, headerRows, Greedy(rows, Width(rows), 0), o, p)
  {
    SharedFrom(rows, Width(rows), headerRows, 0, o, p);
  }

  // ------------------------------------------------------------------ a path follows the header rows

  /** The headings over column c in the first h rows, one a row. */
  function HeadingsOver(rows: seq<Row>, n: nat, h: nat, c: nat): (hs: seq<string>)
    requires Rectangular(rows, n) && h <= |rows| && c < n
    ensures |hs| == h
  {
    seq(h, r requires 0 <= r < h => HeaderText(rows[r], c))
  }

  /** Row r gave text k of the path, or repeats it. */
  ghost predicate Gives(hs: seq<string>, path: seq<string>, rs: seq<nat>, k: nat, r: nat)
    requires |rs| == |path| && r < |hs|
  {
    k < |path| && rs[k] <= r && (k + 1 < |path| ==> r < rs[k + 1]) && path[k] == hs[r]
  }

  /** The path lists the headings of the rows rs, top to bottom, and every row with a heading gives or
      repeats the one that the path is at. */
  ghost predicate Lists(hs: seq<string>, path: seq<string>, rs: seq<nat>) {
    && |rs| == |path| && RisingNats(rs) && Below(rs, |hs|)
    && (forall k :: 0 <= k < |rs| ==> path[k] == hs[rs[k]] != "")
    && (forall r :: 0 <= r < |hs| && hs[r] != "" ==> exists k: nat :: Gives(hs, path, rs, k, r))
  }

  lemma SamePath(hs: seq<string>, t: string, path: seq<string>, rs: seq<nat>)
    requires Lists(hs, path, rs) && (t == "" || (path != [] && path[|path| - 1] == t))
    ensures Lists(hs + [t], path, rs)
  {
    var more := hs + [t];
    forall r | 0 <= r < |more| && more[r] != "" ensures exists k: nat :: Gives(more, path, rs, k, r) {
      if r < |hs| {
        var k: nat :| Gives(hs, path, rs, k, r);
        assert Gives(more, path, rs, k, r);
      } else {
        assert Gives(more, path, rs, |path| - 1, r);
      }
    }
  }

  lemma LongerPath(hs: seq<string>, t: string, path: seq<string>, rs: seq<nat>)
    requires Lists(hs, path, rs) && t != ""
    ensures Lists(hs + [t], path + [t], rs + [|hs|])
  {
    var more, longer, ss := hs + [t], path + [t], rs + [|hs|];
    forall r | 0 <= r < |more| && more[r] != "" ensures exists k: nat :: Gives(more, longer, ss, k, r) {
      if r < |hs| {
        var k: nat :| Gives(hs, path, rs, k, r);
        assert Gives(more, longer, ss, k, r);
      } else {
        assert Gives(more, longer, ss, |path|, r);
      }
    }
  }

  lemma NextHeading(hs: seq<string>, t: string, path: seq<string>, rs: seq<nat>) returns (ss: seq<nat>)
    requires Lists(hs, path, rs)
    ensures Lists(hs + [t], Extend(path, t), ss)
  {
    if t == "" || (path != [] && path[|path| - 1] == t) {
      SamePath(hs, t, path, rs);
      ss := rs;
    } else {
      LongerPath(hs, t, path, rs);
      ss := rs + [|hs|];
    }
  }

  lemma HeadingsSnoc(rows: seq<Row>, n: nat, h: nat, c: nat)
    requires Rectangular(rows, n) && h < |rows| && c < n
    ensures HeadingsOver(rows, n, h + 1, c) == HeadingsOver(rows, n, h, c) + [HeaderText(rows[h], c)]
  {
  }

  /** The path over a column lists its headings top to bottom, without the immediate repeats. */
  lemma {:induction false} PathInOrder(rows: seq<Row>, n: nat, h: nat, c: nat) returns (rs: seq<nat>)
    requires Rectangular(rows, n) && h <= |rows| && c < n
    ensures Lists(HeadingsOver(rows, n, h, c), PathOf(rows, n, h, c), rs)
  {
    if h == 0 {
      rs := [];
    } else {
      var before := PathInOrder(rows, n, h - 1, c);
      HeadingsSnoc(rows, n, h - 1, c);
      rs := NextHeading(HeadingsOver(rows, n, h - 1, c), HeaderText(rows[h - 1], c), PathOf(rows, n, h - 1, c), before);
    }
  }
}
