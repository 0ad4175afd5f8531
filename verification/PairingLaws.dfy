/** Which readings the comparison pairs, and which results it calls agreed. */
module PairingLaws {
  import opened Basics
  import opened Facts
  import opened Merging
  import opened Sorting
  import opened Channels
  import opened Comparison
  import opened ComparisonLaws

  // ------------------------------------------------------------------ one result for each key, in order

  lemma {:induction false} KeyAbsent(rules: Rules, d: seq<Fact>, k: string)
    requires forall j :: 0 <= j < |d| ==> rules.key(d[j]) != k
    ensures Gather(d, KeyOf(rules))[k] == 0
  {
    if d != [] {
      assert forall j :: 0 <= j < |d[1..]| ==> d[1..][j] == d[j + 1];
      KeyAbsent(rules, d[1..], k);
    }
  }

  lemma {:induction false} KeyOnce(rules: Rules, d: seq<Fact>, k: string)
    requires KeysDiffer(rules, d)
    ensures Gather(d, KeyOf(rules))[k] <= 1
  {
    if d != [] {
      assert forall j :: 0 <= j < |d[1..]| ==> d[1..][j] == d[j + 1];
      KeyOnce(rules, d[1..], k);
      if rules.key(d[0]) == k { KeyAbsent(rules, d[1..], k); }
    }
  }

  function KeyTests(rules: Rules): Fact -> (Fact -> bool) { s => KeyTest(rules, s) }

  function RowTests(rules: Rules): Fact -> (Fact -> bool) { s => RowTest(rules, s) }

  lemma {:induction false} SameKeyPairs(rules: Rules, ps: seq<Pair>)
    requires forall p :: p in ps ==> KeyTest(rules, p.structure)(p.image)
    ensures Gather(ps, OfStructure(KeyOf(rules))) == Gather(ps, OfImage(KeyOf(rules)))
  {
    if ps != [] { SameKeyPairs(rules, ps[1..]); }
  }

  lemma FirstPassPairs(rules: Rules, ss: seq<Fact>, images: seq<Fact>)
    ensures forall p :: p in FirstPass(rules, ss, images).pairs ==> KeyTest(rules, p.structure)(p.image)
  {
    var law := (p: Pair) => KeyTest(rules, p.structure)(p.image);
    forall s, left | ByKey(rules)(s, left) < |left| ensures law(Pair(s, left[ByKey(rules)(s, left)])) {
      FirstWhereIs(left, KeyTest(rules, s), 0);
    }
    PassObeys(ByKey(rules), ss, |ss|, images, law);
  }

  /** After the first pass no key is left on both sides. */
  lemma FirstPassParts(rules: Rules, ss: seq<Fact>, images: seq<Fact>, k: string)
    ensures var a := FirstPass(rules, ss, images);
      Gather(a.single, KeyOf(rules))[k] == 0 || Gather(a.left, KeyOf(rules))[k] == 0
  {
    PassUnmatched(ByKey(rules), ss, |ss|, images, KeyTests(rules));
    var a := FirstPass(rules, ss, images);
    assert Unmatched(a.single, a.left, KeyTests(rules));
    if s :| s in a.single && rules.key(s) == k {
      forall j | 0 <= j < |a.left| ensures rules.key(a.left[j]) != k {
        var i := a.left[j];
        assert i in a.left && !KeyTests(rules)(s)(i);
      }
      KeyAbsent(rules, a.left, k);
    } else {
      KeyAbsent(rules, a.single, k);
    }
  }

  lemma KeysListed(rules: Rules, ss: seq<Fact>, images: seq<Fact>, a: Split, b: Split, c: Split)
    requires a == FirstPass(rules, ss, images) && b == SecondPass(rules, a) && c == ThirdPass(rules, b)
    ensures Gather(ThreePasses(rules, ss, images), KeyIn()) == Gather(ss, KeyOf(rules)) + Gather(c.left, KeyOf(rules))
  {
    var f, g := KeyOf(rules), OfStructure(KeyOf(rules));
    ListedHolds(rules, a, b, c, KeyIn(), g, f, f);
    PassesHold(rules, ss, images, a, b, c, f);
    Telescope(Gather(ss, f), Gather(a.pairs, g), Gather(a.single, f), Gather(b.pairs, g), Gather(b.single, f),
      Gather(c.pairs, g), Gather(c.single, f));
  }

  lemma ThreePassesKeys(rules: Rules, ss: seq<Fact>, images: seq<Fact>, k: string)
    requires KeysDiffer(rules, ss) && KeysDiffer(rules, images)
    ensures Gather(ThreePasses(rules, ss, images), KeyIn())[k] <= 1
  {
    var a := FirstPass(rules, ss, images);
    var b := SecondPass(rules, a);
    var c := ThirdPass(rules, b);
    KeysListed(rules, ss, images, a, b, c);
    PassesHold(rules, ss, images, a, b, c, KeyOf(rules));
    FirstPassPairs(rules, ss, images);
    SameKeyPairs(rules, a.pairs);
    FirstPassParts(rules, ss, images, k);
    KeyOnce(rules, ss, k);
    KeyOnce(rules, images, k);
  }

  /** Both channels read: the results come in key order and no key has two of them. */
  lemma KeysAreUnique(rules: Rules, structure: seq<Fact>, image: seq<Fact>, k: string)
    ensures var out := Compare(rules, Some(structure), Some(image));
      Sorted(out, Ordering()) && Gather(out, KeyIn())[k] <= 1
  {
    var ss, images := Dict(rules, structure), Dict(rules, image);
    DictIsLast(rules, structure, k);
    DictIsLast(rules, image, k);
    ThreePassesKeys(rules, ss, images, k);
    forall x: Compared, y: Compared ensures Ordering()(x, y) || Ordering()(y, x) { TextTotal(x.key, y.key); }
    SortSorted(ThreePasses(rules, ss, images), Ordering());
    GatherSort(ThreePasses(rules, ss, images), Ordering(), KeyIn());
  }

  // ------------------------------------------------------------------ what a result says

  lemma {:induction false} DifferingIs(rules: Rules, s: Fact, i: Fact, fs: seq<Field>, f: Field)
    ensures f in Differing(rules, s, i, fs) <==> f in fs && !SameField(rules, f, s, i)
  {
    if fs != [] { DifferingIs(rules, s, i, fs[1..], f); }
  }

  lemma AllFieldsCompared(f: Field)
    ensures f in COMPARE_FIELDS
  {
    var fs := COMPARE_FIELDS;
    assert fs[0] == ValueField && fs[1] == StateField && fs[2] == CurrencyField && fs[3] == UnitField
      && fs[4] == FrequencyField
      && fs[5] == SignField && fs[6] == DecisionField;
  }

  /** A result is filed under its own reading's key; it is agreed or disagreed exactly when both channels
      read the row and mean the same or not, in the fields it lists and no other. */
  ghost predicate WellJudged(rules: Rules, x: Compared) {
    && x.key == rules.key(Primary(x.reading))
    && (x.agreement == Agree <==> x.reading.Both? && SameMeaning(rules, x.reading.structure, x.reading.image))
    && (x.agreement == Disagree <==> x.reading.Both? && !SameMeaning(rules, x.reading.structure, x.reading.image))
    && forall f :: f in x.diff <==> x.reading.Both? && !SameField(rules, f, x.reading.structure, x.reading.image)
  }

  function SignOf(c: Fact): int { if c.core.sign.Some? then c.core.sign.value else 0 }

  /** Both name no value, or both name one and the same number. */
  predicate SameNumber(rules: Rules, s: Fact, i: Fact) {
    match (s.core.value, i.core.value)
    case (None, None) => true
    case (Some(v), Some(w)) => rules.number(v) == rules.number(w)
    case _ => false
  }

  /** The two facts print the same: seven equalities on their own fields. */
  predicate AllSeven(rules: Rules, s: Fact, i: Fact) {
    && SameNumber(rules, s, i) && s.core.state == i.core.state && s.core.currency == i.core.currency
    && rules.unit(OrEmpty(s.perUnit)) == rules.unit(OrEmpty(i.perUnit))
    && s.frequency == i.frequency && SignOf(s) == SignOf(i) && s.core.decision == i.core.decision
  }

  /** The list names each field that differs, on the facts' own fields, and no other. */
  predicate Tells(rules: Rules, diff: seq<Field>, s: Fact, i: Fact) {
    && (ValueField in diff <==> !SameNumber(rules, s, i)) && (StateField in diff <==> s.core.state != i.core.state)
    && (CurrencyField in diff <==> s.core.currency != i.core.currency)
    && (UnitField in diff <==> rules.unit(OrEmpty(s.perUnit)) != rules.unit(OrEmpty(i.perUnit)))
    && (FrequencyField in diff <==> s.frequency != i.frequency) && (SignField in diff <==> SignOf(s) != SignOf(i))
    && (DecisionField in diff <==> s.core.decision != i.core.decision)
  }

  /** Meaning the same is the seven equalities. */
  lemma MeaningIsSeven(rules: Rules, s: Fact, i: Fact)
    ensures SameMeaning(rules, s, i) <==> AllSeven(rules, s, i)
  {
    if SameMeaning(rules, s, i) {
      assert SameField(rules, ValueField, s, i) && SameField(rules, StateField, s, i)
        && SameField(rules, CurrencyField, s, i) && SameField(rules, UnitField, s, i)
        && SameField(rules, FrequencyField, s, i) && SameField(rules, SignField, s, i)
        && SameField(rules, DecisionField, s, i);
    }
  }

  lemma DifferenceIsTold(rules: Rules, x: Compared)
    requires WellJudged(rules, x) && x.reading.Both?
    ensures x.agreement == Agree <==> AllSeven(rules, x.reading.structure, x.reading.image)
    ensures x.agreement != Agree ==> x.agreement == Disagree
    ensures Tells(rules, x.diff, x.reading.structure, x.reading.image)
  {
    MeaningIsSeven(rules, x.reading.structure, x.reading.image);
  }

  lemma JudgeIsTrue(rules: Rules, p: Pair)
    ensures WellJudged(rules, Judge(rules, p))
  {
    var x := Judge(rules, p);
    forall f ensures f in x.diff <==> !SameField(rules, f, p.structure, p.image) {
      DifferingIs(rules, p.structure, p.image, COMPARE_FIELDS, f);
      AllFieldsCompared(f);
    }
    if x.diff != [] { assert x.diff[0] in x.diff; }
  }

  lemma {:induction false} JudgedHas(rules: Rules, ps: seq<Pair>, x: Compared) returns (p: Pair)
    requires x in Judged(rules, ps)
    ensures p in ps && x == Judge(rules, p)
  {
    if x == Judge(rules, ps[0]) { p := ps[0]; } else { p := JudgedHas(rules, ps[1..], x); }
  }

  lemma {:induction false} AloneHas(rules: Rules, cs: seq<Fact>, structure: bool, a: Agreement, x: Compared)
    requires x in Alone(rules, cs, structure, a)
    ensures x == Lone(rules, Primary(x.reading), structure, a) && Primary(x.reading) in cs
  {
    if x != Lone(rules, cs[0], structure, a) { AloneHas(rules, cs[1..], structure, a, x); }
  }

  // ------------------------------------------------------------------ which readings are paired

  /** Two paired readings have one key; or the same block letter and row; or, whatever their block, the same
      row, for which one rival is counted among the structure readings left over. */
  ghost predicate Paired(rules: Rules, rivals: seq<Fact>, p: Pair) {
    || KeyTest(rules, p.structure)(p.image)
    || RowTest(rules, p.structure)(p.image)
    || (GroupTest(rules, p.structure)(p.image) && Count(rivals, GroupTest(rules, p.structure)) == 1)
  }

  lemma SecondPassPairs(rules: Rules, a: Split)
    ensures forall p :: p in SecondPass(rules, a).pairs ==> RowTest(rules, p.structure)(p.image)
  {
    var law := (p: Pair) => RowTest(rules, p.structure)(p.image);
    forall s, left | ByRow(rules)(s, left) < |left| ensures law(Pair(s, left[ByRow(rules)(s, left)])) {
      FirstWhereIs(left, RowTest(rules, s), 0);
    }
    PassObeys(ByRow(rules), a.single, |a.single|, a.left, law);
  }

  lemma ThirdPassPairs(rules: Rules, b: Split)
    ensures forall p :: p in ThirdPass(rules, b).pairs ==>
      GroupTest(rules, p.structure)(p.image) && Count(b.single, GroupTest(rules, p.structure)) == 1
  {
    var law := (p: Pair) => GroupTest(rules, p.structure)(p.image)
      && Count(b.single, GroupTest(rules, p.structure)) == 1;
    var choose := ByLoneRow(rules, b.single);
    forall s, left | choose(s, left) < |left| ensures law(Pair(s, left[choose(s, left)])) {
      FirstWhereIs(left, GroupTest(rules, s), 0);
    }
    PassObeys(choose, b.single, |b.single|, b.left, law);
  }

  /** The structure readings still unpaired when the third pass begins. */
  function Rivals(rules: Rules, structure: seq<Fact>, image: seq<Fact>): seq<Fact> {
    SecondPass(rules, FirstPass(rules, Dict(rules, structure), Dict(rules, image))).single
  }

  lemma WithinChannels(rules: Rules, ss: seq<Fact>, images: seq<Fact>, a: Split, b: Split, c: Split, p: Pair)
    requires a == FirstPass(rules, ss, images) && b == SecondPass(rules, a) && c == ThirdPass(rules, b)
    requires p in a.pairs + b.pairs + c.pairs
    ensures p.structure in ss && p.image in images
  {
    PassWithin(ByKey(rules), ss, |ss|, images);
    PassWithin(ByRow(rules), a.single, |a.single|, a.left);
    PassWithin(ByLoneRow(rules, b.single), b.single, |b.single|, b.left);
  }

  /** Every result of two channels judges truly, and pairs only readings of one row. */
  lemma ResultsAreTrue(rules: Rules, structure: seq<Fact>, image: seq<Fact>, x: Compared)
    requires x in Compare(rules, Some(structure), Some(image))
    ensures WellJudged(rules, x)
    ensures x.reading.Both? ==> Tells(rules, x.diff, x.reading.structure, x.reading.image)
    ensures x.reading.Both? ==>
      x.agreement == if AllSeven(rules, x.reading.structure, x.reading.image) then Agree else Disagree
    ensures x.reading.Both? ==>
      var p := Pair(x.reading.structure, x.reading.image);
      p.structure in Dict(rules, structure) && p.image in Dict(rules, image)
        && Paired(rules, Rivals(rules, structure, image), p)
  {
    var ss, images := Dict(rules, structure), Dict(rules, image);
    var a := FirstPass(rules, ss, images);
    var b := SecondPass(rules, a);
    var c := ThirdPass(rules, b);
    SortHas(ThreePasses(rules, ss, images), Ordering(), x);
    if x in Judged(rules, a.pairs + b.pairs + c.pairs) {
      var p := JudgedHas(rules, a.pairs + b.pairs + c.pairs, x);
      JudgeIsTrue(rules, p);
      DifferenceIsTold(rules, x);
      WithinChannels(rules, ss, images, a, b, c, p);
      FirstPassPairs(rules, ss, images);
      SecondPassPairs(rules, a);
      ThirdPassPairs(rules, b);
    } else if x in Alone(rules, c.single, true, OneMissing) {
      AloneHas(rules, c.single, true, OneMissing, x);
    } else {
      AloneHas(rules, c.left, false, OneMissing, x);
    }
  }

  /** No two lone results of two channels have one key, or one block letter and row. */
  lemma PairingIsMaximal(rules: Rules, structure: seq<Fact>, image: seq<Fact>, x: Compared, y: Compared)
    requires x in Compare(rules, Some(structure), Some(image)) && x.reading.OnlyStructure?
    requires y in Compare(rules, Some(structure), Some(image)) && y.reading.OnlyImage?
    ensures !KeyTest(rules, x.reading.structure)(y.reading.image)
      && !RowTest(rules, x.reading.structure)(y.reading.image)
  {
    var ss, images := Dict(rules, structure), Dict(rules, image);
    var a := FirstPass(rules, ss, images);
    var b := SecondPass(rules, a);
    var c := ThirdPass(rules, b);
    LoneResult(rules, ss, images, a, b, c, x);
    LoneResult(rules, ss, images, a, b, c, y);
    PassUnmatched(ByKey(rules), ss, |ss|, images, KeyTests(rules));
    PassUnmatched(ByRow(rules), a.single, |a.single|, a.left, RowTests(rules));
    PassWithin(ByRow(rules), a.single, |a.single|, a.left);
    PassWithin(ByLoneRow(rules, b.single), b.single, |b.single|, b.left);
    assert Unmatched(a.single, a.left, KeyTests(rules)) && Unmatched(b.single, b.left, RowTests(rules));
    assert !KeyTests(rules)(x.reading.structure)(y.reading.image)
      && !RowTests(rules)(x.reading.structure)(y.reading.image);
  }

  lemma LoneResult(rules: Rules, ss: seq<Fact>, images: seq<Fact>, a: Split, b: Split, c: Split, x: Compared)
    requires a == FirstPass(rules, ss, images) && b == SecondPass(rules, a) && c == ThirdPass(rules, b)
    requires x in Sort(ThreePasses(rules, ss, images), Ordering()) && !x.reading.Both?
    ensures if x.reading.OnlyStructure? then x.reading.structure in c.single else x.reading.image in c.left
  {
    SortHas(ThreePasses(rules, ss, images), Ordering(), x);
    if x in Judged(rules, a.pairs + b.pairs + c.pairs) {
      var p := JudgedHas(rules, a.pairs + b.pairs + c.pairs, x);
    } else if x in Alone(rules, c.single, true, OneMissing) {
      AloneHas(rules, c.single, true, OneMissing, x);
    } else {
      AloneHas(rules, c.left, false, OneMissing, x);
    }
  }

  // ------------------------------------------------------------------ a row that one reading names

  /** The text rules make nothing out of no text. */
  predicate NothingFromNothing(rules: Rules) { rules.norm("") == "" && rules.timeBand("") == "" }

  lemma SelfRow(rules: Rules, s: Fact)
    requires NothingFromNothing(rules)
    ensures SameRow(rules, s, s) <==> RowParts(rules, s) != {}
  {
    var name, band := rules.norm(OrEmpty(s.description)), rules.timeBand(OrEmpty(s.core.timeBand));
    if band != "" {
      assert band in RowParts(rules, s);
    } else if name != "" {
      assert name in RowParts(rules, s) && name in RowTexts(rules, s) && Contains(name, name);
    } else {
      assert Normal(rules, s.description) <= {""};
    }
  }

  lemma {:induction false} CountZero(xs: seq<Fact>, test: Fact -> bool, j: nat)
    requires j < |xs| && Count(xs, test) == 0
    ensures !test(xs[j])
  {
    if j > 0 { CountZero(xs[1..], test, j - 1); }
  }

  lemma {:induction false} CountOne(xs: seq<Fact>, test: Fact -> bool, k: nat, j: nat)
    requires k < |xs| && j < |xs| && j != k && Count(xs, test) == 1 && test(xs[k])
    ensures !test(xs[j])
  {
    if k == 0 {
      CountZero(xs[1..], test, j - 1);
    } else if test(xs[0]) {
      CountZero(xs[1..], test, k - 1);
    } else if j > 0 {
      CountOne(xs[1..], test, k - 1, j - 1);
    }
  }

  /** When one rival names the row of s, that is s itself and no other, exactly when s names its row at all. */
  lemma LoneRowIsItsOwn(rules: Rules, rivals: seq<Fact>, k: nat)
    requires NothingFromNothing(rules) && k < |rivals| && Count(rivals, GroupTest(rules, rivals[k])) == 1
    ensures (forall j :: 0 <= j < |rivals| ==> (GroupTest(rules, rivals[k])(rivals[j]) <==> j == k))
      <==> RowParts(rules, rivals[k]) != {}
  {
    SelfRow(rules, rivals[k]);
    if RowParts(rules, rivals[k]) != {} {
      forall j | 0 <= j < |rivals| && j != k ensures !GroupTest(rules, rivals[k])(rivals[j]) {
        CountOne(rivals, GroupTest(rules, rivals[k]), k, j);
      }
    }
  }

  // ------------------------------------------------------------------ a row that a nameless reading takes

  function PlainText(): string -> string { t => t }

  function NoText(): string -> string { t => "" }

  function LabelAndBlock(): Fact -> string { (c: Fact) => OrEmpty(c.description) + "|" + OrEmpty(c.rateBlock) }

  /** Labels are compared as they are, and no text is a season or a time. */
  const PLAIN := Rules(PlainText(), PlainText(), NoText(), PlainText(), NoText(), PlainText(), PlainText(),
        LabelAndBlock())

  function Sample(description: Option<string>, rateBlock: Option<string>): Fact {
    Fact(
      Core("retail_tariff", None, "energy", None, ValueRead, None, None, None, None, None, None, None, [], []),
      [Evidence(1, ProseEvidence, None, None, None, None, "")], rateBlock, None, description, None, None)
  }

  const NAMELESS := Sample(None, Some("r"))
  const NAMED := Sample(Some("r"), None)
  const IMAGE := Sample(Some("r"), Some("b"))

  /** The keys and the block letters differ. */
  lemma NoEarlierPair(c: Fact)
    requires c == NAMELESS || c == NAMED
    ensures !KeyTest(PLAIN, c)(IMAGE) && !RowTest(PLAIN, c)(IMAGE)
  {
    assert PLAIN.key(NAMELESS) == "|r" && PLAIN.key(NAMED) == "r|" && PLAIN.key(IMAGE) == "r|b";
    assert LooseKey(PLAIN, IMAGE).letter == "b" && LooseKey(PLAIN, c).letter != "b";
  }

  lemma NamelessRivals()
    ensures !GroupTest(PLAIN, NAMELESS)(NAMELESS) && GroupTest(PLAIN, NAMELESS)(NAMED)
      && GroupTest(PLAIN, NAMELESS)(IMAGE)
    ensures GroupTest(PLAIN, NAMED)(IMAGE)
    ensures RowParts(PLAIN, NAMELESS) == {}
  {
    assert RowTexts(PLAIN, NAMELESS) == {"r"} && "r" in RowTexts(PLAIN, IMAGE) && Contains("r", "r");
  }

  lemma TwoMissed(choose: Choice, x: Fact, y: Fact, i: Fact)
    requires choose(x, [i]) == 1 && choose(y, [i]) == 1
    ensures Pass(choose, [x, y], 2, [i]) == Split([], [x, y], [i])
  {
    assert Pass(choose, [x, y], 0, [i]) == Split([], [], [i]);
    assert Pass(choose, [x, y], 1, [i]) == Split([], [x], [i]);
  }

  lemma FirstTaken(choose: Choice, x: Fact, y: Fact, i: Fact)
    requires choose(x, [i]) == 0 && choose(y, []) == 0
    ensures Pass(choose, [x, y], 2, [i]).pairs == [Pair(x, i)]
  {
    assert Pass(choose, [x, y], 0, [i]) == Split([], [], [i]);
    assert [i][..0] + [i][1..] == [];
    assert Pass(choose, [x, y], 1, [i]) == Split([Pair(x, i)], [], []);
  }

  lemma Missed(rules: Rules, x: Fact, y: Fact, i: Fact)
    requires !KeyTest(rules, x)(i) && !RowTest(rules, x)(i) && !KeyTest(rules, y)(i) && !RowTest(rules, y)(i)
    ensures FirstPass(rules, [x, y], [i]) == Split([], [x, y], [i])
    ensures SecondPass(rules, Split([], [x, y], [i])) == Split([], [x, y], [i])
  {
    TwoMissed(ByKey(rules), x, y, i);
    TwoMissed(ByRow(rules), x, y, i);
  }

  /** x is not its own rival, but y is, and i passes: x takes i. */
  lemma RivalTaken(rules: Rules, x: Fact, y: Fact, i: Fact)
    requires !GroupTest(rules, x)(x) && GroupTest(rules, x)(y) && GroupTest(rules, x)(i)
    ensures Pass(ByLoneRow(rules, [x, y]), [x, y], 2, [i]).pairs == [Pair(x, i)]
  {
    var g := GroupTest(rules, x);
    assert Count([y][1..], g) == 0 && Count([y], g) == 1 && [x, y][1..] == [y];
    assert Count([i][1..], g) == 0 && Count([i], g) == 1 && Count([x, y], g) == 1;
    assert FirstWhere([i], g, 0) == 0 && Count([], GroupTest(rules, y)) == 0;
    FirstTaken(ByLoneRow(rules, [x, y]), x, y, i);
  }

  /** Finding: a reading that does not name its row, under a block named like the row, is not its own rival;
      it takes the image reading of a row that another structure reading names. */
  lemma NamelessReadingTakesTheRow()
    ensures var a := FirstPass(PLAIN, [NAMELESS, NAMED], [IMAGE]);
      SecondPass(PLAIN, a) == a && ThirdPass(PLAIN, a).pairs == [Pair(NAMELESS, IMAGE)]
    ensures GroupTest(PLAIN, NAMED)(IMAGE) && RowParts(PLAIN, NAMELESS) == {}
  {
    var x, y, i := NAMELESS, NAMED, IMAGE;
    NoEarlierPair(x);
    NoEarlierPair(y);
    NamelessRivals();
    Missed(PLAIN, x, y, i);
    RivalTaken(PLAIN, x, y, i);
  }
}
