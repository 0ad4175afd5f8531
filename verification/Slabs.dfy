/** Adjacent slabs of a tariff: when a boundary is claimed twice or a gap is left, both sides are
    marked; a sequence left unmarked covers its range exactly once. */
module Slabs {
  import opened Basics

  datatype Inclusivity = Explicit | Inferred | Ambiguous | NoInclusivity

  datatype Rule = BoundaryClaimedTwice | GapBetweenSlabs | ParseRule(id: string)

  /** A slab as a value. */
  datatype Slab = Slab(
    lower: Option<real>,
    upper: Option<real>,
    lowerInclusive: bool,
    upperInclusive: bool,
    inclusivity: Inclusivity,
    rules: seq<Rule>)

  // ------------------------------------------------------------------ judging two adjacent slabs

  datatype Verdict = Fine | Flagged(reason: Rule)

  predicate Integral(x: real) { x == x.Floor as real }

  /** What two adjacent slabs make of the boundary between them. */
  function Judge(prev: Slab, cur: Slab): Verdict {
    if prev.upper.None? || cur.lower.None? then Fine
    else
      var pu, cl := prev.upper.value, cur.lower.value;
      var integral := Integral(pu) && Integral(cl);
      var step := if integral then 1.0 else 0.0;
      var lastCovered := if prev.upperInclusive then pu else pu - step;
      var firstCovered := if cur.lowerInclusive then cl else cl + step;
      if firstCovered <= lastCovered then Flagged(BoundaryClaimedTwice)
      else if (if integral then firstCovered > lastCovered + step else firstCovered > lastCovered)
        then Flagged(GapBetweenSlabs)
      else Fine
  }

  /** A verdict noted on a slab. */
  function Mark(s: Slab, v: Verdict): Slab {
    match v
    case Fine => s
    case Flagged(reason) =>
      s.(inclusivity := if s.inclusivity == Explicit then Explicit else Ambiguous,
         rules := if reason in s.rules then s.rules else s.rules + [reason])
  }

  /** The slabs after the first k boundaries are judged, first to last. */
  function Checked(slabs: seq<Slab>, k: nat): (out: seq<Slab>)
    requires k < |slabs| || k == |slabs| == 0
    ensures |out| == |slabs|
  {
    if k == 0 then slabs
    else
      var s := Checked(slabs, k - 1);
      var v := Judge(s[k - 1], s[k]);
      s[k - 1 := Mark(s[k - 1], v)][k := Mark(s[k], v)]
  }

  // ------------------------------------------------------------------ the records, changed in place

  class SlabBound {
    const lower: Option<real>
    const upper: Option<real>
    const lowerInclusive: bool
    const upperInclusive: bool
    var inclusivity: Inclusivity
    var rules: seq<Rule>

    constructor (lower: Option<real>, upper: Option<real>, lowerInclusive: bool, upperInclusive: bool,
        inclusivity: Inclusivity, rules: seq<Rule>)
      ensures View() == Slab(lower, upper, lowerInclusive, upperInclusive, inclusivity, rules)
    {
      this.lower, this.upper := lower, upper;
      this.lowerInclusive, this.upperInclusive := lowerInclusive, upperInclusive;
      this.inclusivity, this.rules := inclusivity, rules;
    }

    function View(): Slab
      reads this
    {
      Slab(lower, upper, lowerInclusive, upperInclusive, inclusivity, rules)
    }

    /** Notes a reason on the record. */
    method Note(reason: Rule)
      modifies this
      ensures View() == Mark(old(View()), Flagged(reason))
    {
      if inclusivity != Explicit { inclusivity := Ambiguous; }
      if reason !in rules { rules := rules + [reason]; }
    }
  }

  function Views(bounds: seq<SlabBound>): (vs: seq<Slab>)
    reads bounds
    ensures |vs| == |bounds|
  {
    seq(|bounds|, k requires 0 <= k < |bounds| reads bounds => bounds[k].View())
  }

  ghost predicate AllDifferent(bounds: seq<SlabBound>) {
    forall i, j :: 0 <= i < j < |bounds| ==> bounds[i] != bounds[j]
  }

  /** Every boundary is judged once, in order; each record is changed in place. */
  method CheckSlabSequence(bounds: seq<SlabBound>)
    requires AllDifferent(bounds)
    modifies bounds
    ensures bounds == [] || Views(bounds) == Checked(old(Views(bounds)), |bounds| - 1)
  {
    ghost var before := Views(bounds);
    var k := 1;
    while k < |bounds|
      invariant 1 <= k && (bounds != [] ==> k <= |bounds| && Views(bounds) == Checked(before, k - 1))
    {
      var prev, cur := bounds[k - 1], bounds[k];
      assert Views(bounds)[k - 1] == prev.View() && Views(bounds)[k] == cur.View();
      ghost var now := Views(bounds);
      var verdict := Judge(prev.View(), cur.View());
      if verdict.Flagged? {
        prev.Note(verdict.reason);
        cur.Note(verdict.reason);
      }
      assert Views(bounds) == now[k - 1 := Mark(now[k - 1], verdict)][k := Mark(now[k], verdict)];
      k := k + 1;
    }
  }

  // ------------------------------------------------------------------ what an unmarked boundary means

  /** The least and the greatest integer covered next to a printed integral bound. */
  function First(s: Slab): real
    requires s.lower.Some?
  {
    if s.lowerInclusive then s.lower.value else s.lower.value + 1.0
  }

  function Last(s: Slab): real
    requires s.upper.Some?
  {
    if s.upperInclusive then s.upper.value else s.upper.value - 1.0
  }

  lemma FractionsFail(prev: Slab, cur: Slab)
    requires prev.upper.Some? && cur.lower.Some?
    requires !(Integral(prev.upper.value) && Integral(cur.lower.value))
    ensures Judge(prev, cur) != Fine
  {
  }

  lemma WholePasses(pu: real, cl: real, prev: Slab, cur: Slab)
    requires prev.upper == Some(pu) && cur.lower == Some(cl) && Integral(pu) && Integral(cl)
    ensures Judge(prev, cur) == Fine <==> First(cur) == Last(prev) + 1.0
  {
    var a, b := pu.Floor, cl.Floor;
    var last := if prev.upperInclusive then a else a - 1;
    var first := if cur.lowerInclusive then b else b + 1;
    assert Last(prev) == last as real && First(cur) == first as real;
    if first == last + 1 {
    } else if first <= last {
      assert first as real <= last as real;
    } else {
      assert first as real > last as real + 1.0;
    }
  }

  /** A printed boundary passes exactly when both bounds are whole numbers and the second slab
      starts one above where the first ends.  A fractional boundary never passes. */
  lemma PassesExactly(prev: Slab, cur: Slab)
    requires prev.upper.Some? && cur.lower.Some?
    ensures Judge(prev, cur) == Fine
       <==> Integral(prev.upper.value) && Integral(cur.lower.value) && First(cur) == Last(prev) + 1.0
  {
    if Integral(prev.upper.value) && Integral(cur.lower.value) {
      WholePasses(prev.upper.value, cur.lower.value, prev, cur);
    } else {
      FractionsFail(prev, cur);
    }
  }

  // ------------------------------------------------------------------ fractional boundaries

  /** x is not beyond the slab's upper bound, and not before its lower one. */
  predicate UpTo(s: Slab, x: real)
    requires s.upper.Some?
  {
    if s.upperInclusive then x <= s.upper.value else x < s.upper.value
  }

  predicate From(s: Slab, x: real)
    requires s.lower.Some?
  {
    if s.lowerInclusive then x >= s.lower.value else x > s.lower.value
  }

  /** No amount is claimed by both slabs, and none falls between them. */
  ghost predicate SplitsAmounts(prev: Slab, cur: Slab)
    requires prev.upper.Some? && cur.lower.Some?
  {
    forall x: real :: UpTo(prev, x) != From(cur, x)
  }

  predicate Meet(prev: Slab, cur: Slab)
    requires prev.upper.Some? && cur.lower.Some?
  {
    prev.upper.value == cur.lower.value && prev.upperInclusive != cur.lowerInclusive
  }

  lemma SplitsExactly(prev: Slab, cur: Slab)
    requires prev.upper.Some? && cur.lower.Some?
    ensures SplitsAmounts(prev, cur) <==> Meet(prev, cur)
  {
    var pu, cl := prev.upper.value, cur.lower.value;
    var x := (pu + cl) / 2.0;
    if !Meet(prev, cur) { assert UpTo(prev, x) == From(cur, x); }
  }

  /** At a boundary that is not whole the mark tells the truth, that is, it is left off exactly when the two slabs
      split all amounts between them, if and only if the slabs do not meet; where they meet it is left all the same. */
  lemma FractionsAreMarked(prev: Slab, cur: Slab)
    requires prev.upper.Some? && cur.lower.Some?
    requires !(Integral(prev.upper.value) && Integral(cur.lower.value))
    ensures (Judge(prev, cur) == Fine <==> SplitsAmounts(prev, cur)) <==> !Meet(prev, cur)
  {
    FractionsFail(prev, cur);
    SplitsExactly(prev, cur);
  }

  /** Finding: "up to 2.5" and "above 2.5" share no amount and leave none out, but are marked as claiming one twice. */
  lemma HalfIsMarked()
    ensures var upTo := Slab(None, Some(2.5), true, true, Inferred, []);
      var above := Slab(Some(2.5), None, false, true, Inferred, []);
      SplitsAmounts(upTo, above) && Judge(upTo, above) == Flagged(BoundaryClaimedTwice)
  {
    var upTo, above := Slab(None, Some(2.5), true, true, Inferred, []),
      Slab(Some(2.5), None, false, true, Inferred, []);
    SplitsExactly(upTo, above);
    assert (2.5).Floor == 2;
  }

  // ------------------------------------------------------------------ marks are left exactly by bad boundaries

  ghost predicate Unmarked(s: Slab) { BoundaryClaimedTwice !in s.rules && GapBetweenSlabs !in s.rules }

  /** Judging looks at the bounds only, which no mark changes. */
  ghost predicate SameBounds(a: Slab, b: Slab) {
    a.lower == b.lower && a.upper == b.upper && a.lowerInclusive == b.lowerInclusive
      && a.upperInclusive == b.upperInclusive
  }

  lemma {:induction false} BoundsStay(slabs: seq<Slab>, k: nat, i: nat)
    requires k < |slabs| && i < |slabs|
    ensures SameBounds(Checked(slabs, k)[i], slabs[i])
  {
    if k > 0 { BoundsStay(slabs, k - 1, i); }
  }

  /** The boundary between slabs i and i + 1 passes. */
  ghost predicate Passes(slabs: seq<Slab>, i: nat)
    requires i + 1 < |slabs|
  {
    Judge(slabs[i], slabs[i + 1]) == Fine
  }

  ghost predicate AllUnmarked(slabs: seq<Slab>) { forall i :: 0 <= i < |slabs| ==> Unmarked(slabs[i]) }

  /** The first k boundaries pass. */
  ghost predicate PassUpTo(slabs: seq<Slab>, k: nat)
    requires k < |slabs| || k == 0
  {
    forall i :: 0 <= i < k ==> Passes(slabs, i)
  }

  lemma MarkStays(s: Slab, v: Verdict, r: Rule)
    requires r in s.rules
    ensures r in Mark(s, v).rules
  {
  }

  /** A mark once left stays. */
  lemma StaysMarked(s: seq<Slab>, v: Verdict, a: nat, b: nat)
    requires a < b < |s| && !AllUnmarked(s)
    ensures !AllUnmarked(s[a := Mark(s[a], v)][b := Mark(s[b], v)])
  {
    var i :| 0 <= i < |s| && !Unmarked(s[i]);
    var out := s[a := Mark(s[a], v)][b := Mark(s[b], v)];
    var r := if BoundaryClaimedTwice in s[i].rules then BoundaryClaimedTwice else GapBetweenSlabs;
    MarkStays(s[i], v, r);
    assert r in out[i].rules && !Unmarked(out[i]);
  }

  /** The check leaves no mark exactly when every boundary passes. */
  lemma {:induction false} MarksAreExact(slabs: seq<Slab>, k: nat)
    requires k < |slabs| && AllUnmarked(slabs)
    ensures AllUnmarked(Checked(slabs, k)) <==> PassUpTo(slabs, k)
  {
    if k > 0 {
      MarksAreExact(slabs, k - 1);
      BoundsStay(slabs, k - 1, k - 1);
      BoundsStay(slabs, k - 1, k);
      OneMore(slabs, k, Checked(slabs, k - 1), Checked(slabs, k));
    }
  }

  lemma OneMore(slabs: seq<Slab>, k: nat, s: seq<Slab>, out: seq<Slab>)
    requires 0 < k < |slabs| == |s| && SameBounds(s[k - 1], slabs[k - 1]) && SameBounds(s[k], slabs[k])
    requires var v := Judge(s[k - 1], s[k]); out == s[k - 1 := Mark(s[k - 1], v)][k := Mark(s[k], v)]
    requires AllUnmarked(s) <==> PassUpTo(slabs, k - 1)
    ensures AllUnmarked(out) <==> PassUpTo(slabs, k)
  {
    var v := Judge(s[k - 1], s[k]);
    assert v == Judge(slabs[k - 1], slabs[k]);
    if v == Fine {
      assert out == s && Passes(slabs, k - 1);
    } else {
      assert !Passes(slabs, k - 1) && v.reason in out[k].rules && !Unmarked(out[k]);
    }
    if !AllUnmarked(s) { StaysMarked(s, v, k - 1, k); }
  }

  // ------------------------------------------------------------------ the range is covered once

  predicate Above(s: Slab, z: int) {
    s.lower.None? || (if s.lowerInclusive then s.lower.value <= z as real else s.lower.value < z as real)
  }

  predicate Below(s: Slab, z: int) {
    s.upper.None? || (if s.upperInclusive then z as real <= s.upper.value else z as real < s.upper.value)
  }

  predicate Covers(s: Slab, z: int) { Above(s, z) && Below(s, z) }

  ghost predicate NonEmpty(s: Slab) { exists z: int :: Covers(s, z) }

  /** The bounds between slabs i and i + 1 are printed. */
  ghost predicate Printed(slabs: seq<Slab>, i: nat)
    requires i + 1 < |slabs|
  {
    slabs[i].upper.Some? && slabs[i + 1].lower.Some?
  }

  /** Every slab covers some integer, and all bounds between slabs are printed. */
  ghost predicate Proper(slabs: seq<Slab>) {
    && slabs != []
    && (forall i :: 0 <= i < |slabs| ==> NonEmpty(slabs[i]))
    && (forall i :: 0 <= i < |slabs| - 1 ==> Printed(slabs, i))
  }

  ghost predicate AllPass(slabs: seq<Slab>)
    requires slabs != []
  {
    PassUpTo(slabs, |slabs| - 1)
  }

  /** Bounds that meet split the integers in two. */
  lemma MeetingBounds(prev: Slab, cur: Slab, z: int)
    requires prev.upper.Some? && cur.lower.Some? && Integral(prev.upper.value) && Integral(cur.lower.value)
    requires First(cur) == Last(prev) + 1.0
    ensures Above(cur, z) <==> !Below(prev, z)
  {
    var a, b := prev.upper.value.Floor, cur.lower.value.Floor;
    var last := if prev.upperInclusive then a else a - 1;
    var first := if cur.lowerInclusive then b else b + 1;
    assert Last(prev) == last as real && First(cur) == first as real;
    assert first == last + 1;
    assert Above(cur, z) <==> first <= z by { AboveWhole(cur, b, z); }
    assert Below(prev, z) <==> z <= last by { BelowWhole(prev, a, z); }
  }

  lemma AboveWhole(s: Slab, b: int, z: int)
    requires s.lower == Some(b as real)
    ensures Above(s, z) <==> (if s.lowerInclusive then b else b + 1) <= z
  {
  }

  lemma BelowWhole(s: Slab, a: int, z: int)
    requires s.upper == Some(a as real)
    ensures Below(s, z) <==> z <= (if s.upperInclusive then a else a - 1)
  {
  }

  /** Across a boundary that passes, an integer is above the second slab's start exactly when it is
      not below the first slab's end. */
  lemma BoundarySplits(slabs: seq<Slab>, i: nat, z: int)
    requires Proper(slabs) && AllPass(slabs) && i + 1 < |slabs|
    ensures Above(slabs[i + 1], z) <==> !Below(slabs[i], z)
  {
    assert Passes(slabs, i) && Printed(slabs, i);
    PassesExactly(slabs[i], slabs[i + 1]);
    MeetingBounds(slabs[i], slabs[i + 1], z);
  }

  /** What is not beyond slab i is not beyond any later one; what is not before it, not before any earlier one. */
  lemma {:induction false} StaysBelow(slabs: seq<Slab>, i: nat, j: nat, z: int)
    requires Proper(slabs) && AllPass(slabs) && i <= j < |slabs| && Below(slabs[i], z)
    ensures Below(slabs[j], z)
    decreases j - i
  {
    if i < j {
      BoundarySplits(slabs, i, z);
      assert NonEmpty(slabs[i + 1]);
      var w: int :| Covers(slabs[i + 1], w);
      assert !Above(slabs[i + 1], z) && Above(slabs[i + 1], w) && z < w;
      StaysBelow(slabs, i + 1, j, z);
    }
  }

  /** Some slab from i on covers z when z is above slab i's start and below the last slab's end. */
  lemma {:induction false} SomeCovers(slabs: seq<Slab>, i: nat, z: int) returns (k: nat)
    requires Proper(slabs) && AllPass(slabs) && i < |slabs|
    requires Above(slabs[i], z) && Below(slabs[|slabs| - 1], z)
    ensures i <= k < |slabs| && Covers(slabs[k], z)
    decreases |slabs| - i
  {
    k := i;
    if !Below(slabs[i], z) {
      BoundarySplits(slabs, i, z);
      k := SomeCovers(slabs, i + 1, z);
    }
  }

  /** A sequence of non-empty slabs with all interior bounds printed that the check leaves
      without a mark covers every integer of its range exactly once. */
  lemma CoveredExactlyOnce(slabs: seq<Slab>, z: int) returns (k: nat)
    requires Proper(slabs) && AllUnmarked(slabs) && AllUnmarked(Checked(slabs, |slabs| - 1))
    requires Above(slabs[0], z) && Below(slabs[|slabs| - 1], z)
    ensures k < |slabs| && forall i :: 0 <= i < |slabs| ==> (Covers(slabs[i], z) <==> i == k)
  {
    MarksAreExact(slabs, |slabs| - 1);
    k := SomeCovers(slabs, 0, z);
    forall i | 0 <= i < |slabs| && Covers(slabs[i], z) ensures i == k { OnlyOne(slabs, i, k, z); }
  }

  lemma OnlyOne(slabs: seq<Slab>, i: nat, j: nat, z: int)
    requires Proper(slabs) && AllPass(slabs) && i < |slabs| && j < |slabs|
    requires Covers(slabs[i], z) && Covers(slabs[j], z)
    ensures i == j
  {
    if i < j {
      StaysBelow(slabs, i, j - 1, z);
      BoundarySplits(slabs, j - 1, z);
    } else if j < i {
      StaysBelow(slabs, j, i - 1, z);
      BoundarySplits(slabs, i - 1, z);
    }
  }

  /** Nothing outside the range is covered. */
  lemma OutsideIsFree(slabs: seq<Slab>, z: int, i: nat)
    requires Proper(slabs) && AllPass(slabs) && i < |slabs| && Covers(slabs[i], z)
    ensures Above(slabs[0], z) && Below(slabs[|slabs| - 1], z)
  {
    StaysBelow(slabs, i, |slabs| - 1, z);
    if !Above(slabs[0], z) {
      assert NonEmpty(slabs[0]);
      var w: int :| Covers(slabs[0], w);
      StaysBelow(slabs, 0, i, z);
      if i > 0 {
        StaysBelow(slabs, 0, i - 1, z);
        BoundarySplits(slabs, i - 1, z);
      }
    }
  }
}
