/** When the third pairing pass pairs only rows that one reading on each side names. */
module LoneRowLaws {
  import opened Basics
  import opened Facts
  import opened Sorting
  import opened Channels
  import opened Comparison
  import opened ComparisonLaws
  import opened PairingLaws

  // ------------------------------------------------------------------ one reading on each side

  /** The structure readings whose row the image reading names. */
  function Namers(rules: Rules, i: Fact): Fact -> bool { s => GroupTest(rules, s)(i) }

  /** Of the readings left over, one structure reading names the image's row and one image reading the structure's. */
  ghost predicate OneOnEachSide(rules: Rules, ss: seq<Fact>, images: seq<Fact>, p: Pair) {
    Count(ss, Namers(rules, p.image)) == 1 && Count(images, GroupTest(rules, p.structure)) == 1
  }

  ghost predicate Unambiguous(rules: Rules, ss: seq<Fact>, images: seq<Fact>, pairs: seq<Pair>) {
    pairs == [] ||
    (OneOnEachSide(rules, ss, images, pairs[|pairs| - 1]) && Unambiguous(rules, ss, images, pairs[..|pairs| - 1]))
  }

  /** Every pair in the list is one of them. */
  lemma {:induction false} UnambiguousPair(rules: Rules, ss: seq<Fact>, images: seq<Fact>, pairs: seq<Pair>, p: Pair)
    requires Unambiguous(rules, ss, images, pairs) && p in pairs
    ensures OneOnEachSide(rules, ss, images, p)
  {
    if p != pairs[|pairs| - 1] { UnambiguousPair(rules, ss, images, pairs[..|pairs| - 1], p); }
  }

  lemma {:induction false} UnambiguousPrefix(rules: Rules, ss: seq<Fact>, images: seq<Fact>, pairs: seq<Pair>, m: nat)
    requires Unambiguous(rules, ss, images, pairs) && m <= |pairs|
    ensures Unambiguous(rules, ss, images, pairs[..m])
    decreases |pairs|
  {
    if m < |pairs| {
      UnambiguousPrefix(rules, ss, images, pairs[..|pairs| - 1], m);
      assert pairs[..|pairs| - 1][..m] == pairs[..m];
    } else {
      assert pairs[..m] == pairs;
    }
  }

  /** The guard of the pass, on all that is left over: s has one rival and one match, which is i. */
  ghost predicate LoneMatch(rules: Rules, ss: seq<Fact>, images: seq<Fact>, s: Fact, i: Fact) {
    && s in ss && i in images && GroupTest(rules, s)(i)
    && Count(ss, GroupTest(rules, s)) == 1 && Count(images, GroupTest(rules, s)) == 1
  }

  /** No image reading that is the lone match of one structure reading is a match of another. */
  ghost predicate MatchesApart(rules: Rules, ss: seq<Fact>, images: seq<Fact>) {
    forall s, i :: LoneMatch(rules, ss, images, s, i) ==> Count(ss, Namers(rules, i)) == 1
  }

  // ------------------------------------------------------------------ counting

  function OnImage(test: Fact -> bool): Pair -> bool { (p: Pair) => test(p.image) }

  lemma CountOf<T>(x: T, test: T -> bool)
    ensures Count([x], test) == if test(x) then 1 else 0
  {
    assert Count([x][1..], test) == 0;
  }

  lemma {:induction false} CountFound<T>(xs: seq<T>, test: T -> bool) returns (k: nat)
    requires Count(xs, test) > 0
    ensures k < |xs| && test(xs[k])
  {
    if test(xs[0]) {
      k := 0;
    } else {
      var j := CountFound(xs[1..], test);
      k := j + 1;
    }
  }

  lemma {:induction false} CountAt<T>(xs: seq<T>, test: T -> bool, k: nat)
    requires k < |xs| && test(xs[k])
    ensures Count(xs, test) > 0
  {
    if k > 0 { CountAt(xs[1..], test, k - 1); }
  }

  lemma CountOut(xs: seq<Fact>, k: nat, test: Fact -> bool)
    requires k < |xs|
    ensures Count(xs, test) == Count(xs[..k] + xs[k + 1..], test) + (if test(xs[k]) then 1 else 0)
  {
    CountConcat(xs[..k], xs[k + 1..], test);
    CountConcat(xs[..k], xs[k..], test);
    assert xs[..k] + xs[k..] == xs && xs[k..][1..] == xs[k + 1..];
  }

  /** What is left and what is taken make up what there was. */
  lemma {:induction false} PassCounts(choose: Choice, ss: seq<Fact>, n: nat, images: seq<Fact>, test: Fact -> bool)
    requires n <= |ss|
    ensures var p := Pass(choose, ss, n, images);
      Count(images, test) == Count(p.left, test) + Count(p.pairs, OnImage(test))
  {
    if n > 0 {
      PassCounts(choose, ss, n - 1, images, test);
      var p := Pass(choose, ss, n - 1, images);
      TakeCounts(p, ss[n - 1], choose(ss[n - 1], p.left), test);
    }
  }

  lemma TakeCounts(p: Split, s: Fact, k: nat, test: Fact -> bool)
    ensures var q := Take(p, s, k);
      Count(q.left, test) + Count(q.pairs, OnImage(test)) == Count(p.left, test) + Count(p.pairs, OnImage(test))
  {
    if k < |p.left| {
      CountOut(p.left, k, test);
      CountConcat(p.pairs, [Pair(s, p.left[k])], OnImage(test));
      CountOf(Pair(s, p.left[k]), OnImage(test));
    }
  }

  /** Two different positions cannot both pass a test that one passes. */
  lemma OnePlace(xs: seq<Fact>, test: Fact -> bool, j: nat, k: nat)
    requires j < |xs| && k < |xs| && Count(xs, test) == 1 && test(xs[j]) && test(xs[k])
    ensures j == k
  {
    if j != k { CountOne(xs, test, k, j); }
  }

  // ------------------------------------------------------------------ the pairs of the pass

  /** What one step of the pass pairs: the one match left of a reading with one rival. */
  lemma LoneStep(rules: Rules, ss: seq<Fact>, q: Split, s: Fact) returns (i: Option<Fact>)
    ensures Take(q, s, ByLoneRow(rules, ss)(s, q.left)).pairs
      == if i.Some? then q.pairs + [Pair(s, i.value)] else q.pairs
    ensures i.Some? <==> Count(ss, GroupTest(rules, s)) == 1 && Count(q.left, GroupTest(rules, s)) == 1
    ensures i.Some? ==> i.value in q.left && GroupTest(rules, s)(i.value)
  {
    var test := GroupTest(rules, s);
    var f := FirstWhere(q.left, test, 0);
    FirstWhereIs(q.left, test, 0);
    i := None;
    if Count(ss, test) == 1 && Count(q.left, test) == 1 {
      var c := CountFound(q.left, test);
      if f == |q.left| { NoneWhere(q.left, test, 0, c); }
      i := Some(q.left[f]);
    }
  }

  /** A pair was made by a reading before n, from an image reading that names its row. */
  lemma {:induction false} PairStems(rules: Rules, ss: seq<Fact>, choose: Choice, n: nat, images: seq<Fact>, p: Pair)
    returns (a: nat)
    requires choose == ByLoneRow(rules, ss)
    requires n <= |ss| && p in Pass(choose, ss, n, images).pairs
    ensures a < n && p.structure == ss[a] && GroupTest(rules, ss[a])(p.image) && p.image in images
    ensures Count(ss, GroupTest(rules, ss[a])) == 1
  {
    var q := Pass(choose, ss, n - 1, images);
    if p in q.pairs {
      a := PairStems(rules, ss, choose, n - 1, images, p);
    } else {
      a := n - 1;
      var i := LoneStep(rules, ss, q, ss[a]);
      PassWithin(choose, ss, n - 1, images);
    }
  }

  lemma {:induction false} PairsGrow(choose: Choice, ss: seq<Fact>, m: nat, n: nat, images: seq<Fact>)
    requires m <= n <= |ss|
    ensures Pass(choose, ss, m, images).pairs <= Pass(choose, ss, n, images).pairs
    decreases n
  {
    if m < n { PairsGrow(choose, ss, m, n - 1, images); }
  }

  /** An unambiguous pair's image matches no other reading. */
  lemma TakenByOne(rules: Rules, ss: seq<Fact>, choose: Choice, n: nat, images: seq<Fact>, p: Pair, k: nat)
    requires choose == ByLoneRow(rules, ss)
    requires n <= |ss| && p in Pass(choose, ss, n, images).pairs && n <= k < |ss|
    requires Count(ss, Namers(rules, p.image)) == 1
    ensures !GroupTest(rules, ss[k])(p.image)
  {
    var a := PairStems(rules, ss, choose, n, images, p);
    if Namers(rules, p.image)(ss[k]) { OnePlace(ss, Namers(rules, p.image), a, k); }
  }

  /** Among unambiguous pairs, whatever matches the next reading is still left. */
  lemma MatchesLeft(rules: Rules, ss: seq<Fact>, choose: Choice, n: nat, images: seq<Fact>)
    requires choose == ByLoneRow(rules, ss)
    requires n < |ss| && Unambiguous(rules, ss, images, Pass(choose, ss, n, images).pairs)
    ensures Count(images, GroupTest(rules, ss[n])) == Count(Pass(choose, ss, n, images).left, GroupTest(rules, ss[n]))
  {
    var q, test := Pass(choose, ss, n, images), GroupTest(rules, ss[n]);
    PassCounts(choose, ss, n, images, test);
    if Count(q.pairs, OnImage(test)) > 0 {
      var k := CountFound(q.pairs, OnImage(test));
      UnambiguousPair(rules, ss, images, q.pairs, q.pairs[k]);
      TakenByOne(rules, ss, choose, n, images, q.pairs[k], n);
    }
  }

  lemma {:induction false} ApartIsSafe(rules: Rules, ss: seq<Fact>, choose: Choice, n: nat, images: seq<Fact>)
    requires choose == ByLoneRow(rules, ss)
    requires n <= |ss| && MatchesApart(rules, ss, images)
    ensures Unambiguous(rules, ss, images, Pass(choose, ss, n, images).pairs)
  {
    if n > 0 {
      ApartIsSafe(rules, ss, choose, n - 1, images);
      SafeStep(rules, ss, choose, n - 1, images, Pass(choose, ss, n - 1, images));
    }
  }

  lemma SafeStep(rules: Rules, ss: seq<Fact>, choose: Choice, n: nat, images: seq<Fact>, q: Split)
    requires choose == ByLoneRow(rules, ss)
    requires n < |ss| && MatchesApart(rules, ss, images) && q == Pass(choose, ss, n, images)
    requires Unambiguous(rules, ss, images, q.pairs)
    ensures Unambiguous(rules, ss, images, Take(q, ss[n], choose(ss[n], q.left)).pairs)
  {
    var i := LoneStep(rules, ss, q, ss[n]);
    if i.Some? {
      NextIsSafe(rules, ss, choose, n, images, i.value);
      var more := q.pairs + [Pair(ss[n], i.value)];
      assert more[..|more| - 1] == q.pairs;
    }
  }

  lemma NextIsSafe(rules: Rules, ss: seq<Fact>, choose: Choice, n: nat, images: seq<Fact>, i: Fact)
    requires choose == ByLoneRow(rules, ss)
    requires n < |ss| && MatchesApart(rules, ss, images)
    requires Unambiguous(rules, ss, images, Pass(choose, ss, n, images).pairs)
    requires var left, test := Pass(choose, ss, n, images).left, GroupTest(rules, ss[n]);
      i in left && test(i) && Count(ss, test) == 1 && Count(left, test) == 1
    ensures OneOnEachSide(rules, ss, images, Pair(ss[n], i))
  {
    MatchesLeft(rules, ss, choose, n, images);
    PassWithin(choose, ss, n, images);
    assert LoneMatch(rules, ss, images, ss[n], i);
  }

  lemma StepTakes(rules: Rules, ss: seq<Fact>, choose: Choice, q: Split, s: Fact, images: seq<Fact>, i: Fact)
    requires choose == ByLoneRow(rules, ss)
    requires LoneMatch(rules, ss, images, s, i) && Count(q.left, GroupTest(rules, s)) == 1
    requires forall x :: x in q.left ==> x in images
    ensures Pair(s, i) in Take(q, s, choose(s, q.left)).pairs
  {
    var j := LoneStep(rules, ss, q, s);
    OneValue(images, GroupTest(rules, s), j.value, i);
  }

  /** Among unambiguous pairs, a lone match is paired when its reading comes. */
  lemma LoneMatchTaken(rules: Rules, ss: seq<Fact>, choose: Choice, images: seq<Fact>, k: nat, i: Fact, q: Split)
    requires choose == ByLoneRow(rules, ss)
    requires k < |ss| && LoneMatch(rules, ss, images, ss[k], i) && q == Pass(choose, ss, k, images)
    requires Unambiguous(rules, ss, images, q.pairs)
    ensures Pair(ss[k], i) in Pass(choose, ss, k + 1, images).pairs
  {
    MatchesLeft(rules, ss, choose, k, images);
    PassWithin(choose, ss, k, images);
    StepTakes(rules, ss, choose, q, ss[k], images, i);
  }

  lemma PairStays(choose: Choice, ss: seq<Fact>, m: nat, n: nat, images: seq<Fact>, p: Pair)
    requires m <= n <= |ss| && p in Pass(choose, ss, m, images).pairs
    ensures p in Pass(choose, ss, n, images).pairs
  {
    PairsGrow(choose, ss, m, n, images);
  }

  lemma PairIsUnambiguous(rules: Rules, ss: seq<Fact>, choose: Choice, images: seq<Fact>, m: nat, p: Pair)
    requires m <= |ss| && p in Pass(choose, ss, m, images).pairs
    requires Unambiguous(rules, ss, images, Pass(choose, ss, |ss|, images).pairs)
    ensures OneOnEachSide(rules, ss, images, p)
  {
    PairStays(choose, ss, m, |ss|, images, p);
    UnambiguousPair(rules, ss, images, Pass(choose, ss, |ss|, images).pairs, p);
  }

  lemma LonePairMade(rules: Rules, ss: seq<Fact>, choose: Choice, images: seq<Fact>, k: nat, i: Fact)
    requires choose == ByLoneRow(rules, ss)
    requires k < |ss| && LoneMatch(rules, ss, images, ss[k], i)
    requires Unambiguous(rules, ss, images, Pass(choose, ss, |ss|, images).pairs)
    ensures Pair(ss[k], i) in Pass(choose, ss, k + 1, images).pairs
  {
    EarlierUnambiguous(rules, ss, choose, images, k);
    LoneMatchTaken(rules, ss, choose, images, k, i, Pass(choose, ss, k, images));
  }

  lemma EarlierUnambiguous(rules: Rules, ss: seq<Fact>, choose: Choice, images: seq<Fact>, k: nat)
    requires k <= |ss| && Unambiguous(rules, ss, images, Pass(choose, ss, |ss|, images).pairs)
    ensures Unambiguous(rules, ss, images, Pass(choose, ss, k, images).pairs)
  {
    var pairs := Pass(choose, ss, |ss|, images).pairs;
    var first := Pass(choose, ss, k, images).pairs;
    PairsGrow(choose, ss, k, |ss|, images);
    UnambiguousPrefix(rules, ss, images, pairs, |first|);
    assert pairs[..|first|] == first;
  }

  lemma OneValue(xs: seq<Fact>, test: Fact -> bool, x: Fact, y: Fact)
    requires x in xs && y in xs && test(x) && test(y) && Count(xs, test) == 1
    ensures x == y
  {
    var j :| 0 <= j < |xs| && xs[j] == x;
    var k :| 0 <= k < |xs| && xs[k] == y;
    OnePlace(xs, test, j, k);
  }

  /** The third pass pairs only rows that one reading on each side names exactly when, among the readings left
      over, no lone match of one structure reading is a match of another. */
  lemma ThirdPassIsExact(rules: Rules, b: Split)
    ensures Unambiguous(rules, b.single, b.left, ThirdPass(rules, b).pairs) <==> MatchesApart(rules, b.single, b.left)
  {
    var ss, images := b.single, b.left;
    if MatchesApart(rules, ss, images) { ApartIsSafe(rules, ss, ByLoneRow(rules, ss), |ss|, images); }
    if Unambiguous(rules, ss, images, ThirdPass(rules, b).pairs) {
      forall s, i | LoneMatch(rules, ss, images, s, i) ensures Count(ss, Namers(rules, i)) == 1 {
        var k :| 0 <= k < |ss| && ss[k] == s;
        LonePairMade(rules, ss, ByLoneRow(rules, ss), images, k, i);
        PairIsUnambiguous(rules, ss, ByLoneRow(rules, ss), images, k + 1, Pair(ss[k], i));
      }
    }
  }

  // ------------------------------------------------------------------ the two ways to fail

  lemma OneMore(xs: seq<Fact>, test: Fact -> bool, k: nat) returns (j: nat)
    requires k < |xs| && test(xs[k]) && Count(xs, test) != 1
    ensures j < |xs| && j != k && test(xs[j])
  {
    CountOut(xs, k, test);
    CountAt(xs, test, k);
    var a := CountFound(xs[..k] + xs[k + 1..], test);
    j := if a < k then a else a + 1;
  }

  /** Where a lone match is a match of another reading too, the reading either names no row, and so is not its own
      rival, or names one that the other does not share. */
  lemma TwoWaysToFail(rules: Rules, ss: seq<Fact>, images: seq<Fact>, k: nat, i: Fact) returns (j: nat)
    requires NothingFromNothing(rules) && k < |ss| && LoneMatch(rules, ss, images, ss[k], i)
    requires Count(ss, Namers(rules, i)) != 1
    ensures j < |ss| && j != k && GroupTest(rules, ss[j])(i)
    ensures RowParts(rules, ss[k]) == {} ==> !GroupTest(rules, ss[k])(ss[k])
    ensures RowParts(rules, ss[k]) != {} ==> GroupTest(rules, ss[k])(ss[k]) && !GroupTest(rules, ss[k])(ss[j])
  {
    j := OneMore(ss, Namers(rules, i), k);
    LoneRowIsItsOwn(rules, ss, k);
    SelfRow(rules, ss[k]);
  }

  const PART_A := Sample(Some("a"), Some("p"))
  const PART_C := Sample(Some("c"), Some("p"))
  const WHOLE := Sample(Some("abc"), Some("q"))

  lemma PartsNamed()
    ensures RowParts(PLAIN, PART_A) == {"a"} && RowParts(PLAIN, PART_C) == {"c"}
    ensures RowTexts(PLAIN, PART_A) == {"a", "p"} && RowTexts(PLAIN, PART_C) == {"c", "p"}
    ensures RowTexts(PLAIN, WHOLE) == {"abc", "q"}
  {
  }

  lemma PartsContained()
    ensures Contains("a", "a") && !Contains("a", "c") && !Contains("a", "p") && !Contains("c", "a")
      && !Contains("c", "p")
    ensures Contains("a", "abc") && Contains("c", "abc")
  {
    assert "a"[1..] == "" && "c"[1..] == "" && "p"[1..] == "";
    assert "abc"[1..] == "bc" && "bc"[1..] == "c" && Contains("c", "c") && Contains("c", "bc");
  }

  lemma PartRivals()
    ensures GroupTest(PLAIN, PART_A)(PART_A) && !GroupTest(PLAIN, PART_A)(PART_C)
    ensures GroupTest(PLAIN, PART_A)(WHOLE) && GroupTest(PLAIN, PART_C)(WHOLE)
  {
    PartsNamed();
    PartsContained();
  }

  lemma PartNotEarlier(c: Fact)
    requires c == PART_A || c == PART_C
    ensures !KeyTest(PLAIN, c)(WHOLE) && !RowTest(PLAIN, c)(WHOLE)
  {
    assert PLAIN.key(PART_A) == "a|p" && PLAIN.key(PART_C) == "c|p" && PLAIN.key(WHOLE) == "abc|q";
    assert LooseKey(PLAIN, WHOLE).letter == "q" && LooseKey(PLAIN, c).letter == "p";
  }

  lemma OwnRivalTaken(rules: Rules, x: Fact, y: Fact, i: Fact)
    requires GroupTest(rules, x)(x) && !GroupTest(rules, x)(y) && GroupTest(rules, x)(i)
    ensures Pass(ByLoneRow(rules, [x, y]), [x, y], 2, [i]).pairs == [Pair(x, i)]
  {
    var g := GroupTest(rules, x);
    assert Count([y][1..], g) == 0 && Count([y], g) == 0 && [x, y][1..] == [y];
    assert Count([i][1..], g) == 0 && Count([i], g) == 1 && Count([x, y], g) == 1;
    assert FirstWhere([i], g, 0) == 0 && Count([], GroupTest(rules, y)) == 0;
    FirstTaken(ByLoneRow(rules, [x, y]), x, y, i);
  }

  lemma TwoNamers(rules: Rules, x: Fact, y: Fact, i: Fact)
    requires GroupTest(rules, x)(i) && GroupTest(rules, y)(i)
    ensures Count([x, y], Namers(rules, i)) == 2
  {
    assert [x, y][1..] == [y];
    CountOf(y, Namers(rules, i));
  }

  /** Finding: two readings that name different rows both match an image reading whose name holds both their
      names.  The first one takes it, although it names its row and no other reading shares that row. */
  lemma NamedReadingTakesTheRow()
    ensures var a := FirstPass(PLAIN, [PART_A, PART_C], [WHOLE]);
      SecondPass(PLAIN, a) == a && ThirdPass(PLAIN, a).pairs == [Pair(PART_A, WHOLE)]
    ensures RowParts(PLAIN, PART_A) != {} && RowParts(PLAIN, PART_C) != {}
    ensures !OneOnEachSide(PLAIN, [PART_A, PART_C], [WHOLE], Pair(PART_A, WHOLE))
  {
    PartsNamed();
    PartRivals();
    PartNotEarlier(PART_A);
    PartNotEarlier(PART_C);
    Missed(PLAIN, PART_A, PART_C, WHOLE);
    OwnRivalTaken(PLAIN, PART_A, PART_C, WHOLE);
    TwoNamers(PLAIN, PART_A, PART_C, WHOLE);
  }

  /** Nor is one reading on each side named where a nameless reading takes a row. */
  lemma NamelessIsAmbiguous()
    ensures !OneOnEachSide(PLAIN, [NAMELESS, NAMED], [IMAGE], Pair(NAMELESS, IMAGE))
  {
    NamelessRivals();
    TwoNamers(PLAIN, NAMELESS, NAMED, IMAGE);
  }
}
