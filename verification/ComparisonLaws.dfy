/** What the comparison of two channels promises: every reading is in exactly one result, and every
    result says truly how the channels agree. */
module ComparisonLaws {
  import opened Basics
  import opened Facts
  import opened Merging
  import opened Sorting
  import opened Channels
  import opened Comparison

  // ------------------------------------------------------------------ readings by key

  /** The last reading with the key. */
  function LastWith(rules: Rules, cs: seq<Fact>, k: string): Option<Fact> {
    if cs == [] then None
    else if rules.key(cs[|cs| - 1]) == k then Some(cs[|cs| - 1]) else LastWith(rules, cs[..|cs| - 1], k)
  }

  ghost predicate KeysDiffer(rules: Rules, d: seq<Fact>) {
    forall i, j :: 0 <= i < j < |d| ==> rules.key(d[i]) != rules.key(d[j])
  }

  ghost predicate AllLast(rules: Rules, d: seq<Fact>, cs: seq<Fact>) {
    forall i :: 0 <= i < |d| ==> LastWith(rules, cs, rules.key(d[i])) == Some(d[i])
  }

  lemma AbsorbKeysDiffer(rules: Rules, d: seq<Fact>, c: Fact)
    requires KeysDiffer(rules, d)
    ensures KeysDiffer(rules, Absorb(DictWay(rules), d, c))
  {
    var w := DictWay(rules);
    TargetIs(w, d, c);
    if Target(w, d, c) == |d| {
      forall j | 0 <= j < |d| ensures rules.key(d[j]) != rules.key(c) { NoneBefore(w, d, c, rules.key(c), 0, j); }
    }
  }

  lemma AbsorbAllLast(rules: Rules, d: seq<Fact>, cs: seq<Fact>, c: Fact)
    requires KeysDiffer(rules, d) && AllLast(rules, d, cs)
    ensures AllLast(rules, Absorb(DictWay(rules), d, c), cs + [c])
  {
    var w := DictWay(rules);
    TargetIs(w, d, c);
    assert (cs + [c])[..|cs|] == cs;
    if Target(w, d, c) == |d| {
      forall j | 0 <= j < |d| ensures rules.key(d[j]) != rules.key(c) { NoneBefore(w, d, c, rules.key(c), 0, j); }
    }
  }

  lemma {:induction false} KeptIsLast(rules: Rules, cs: seq<Fact>, n: nat)
    requires n <= |cs|
    ensures KeysDiffer(rules, Kept(DictWay(rules), cs, n)) && AllLast(rules, Kept(DictWay(rules), cs, n), cs[..n])
  {
    if n > 0 {
      KeptIsLast(rules, cs, n - 1);
      var d := Kept(DictWay(rules), cs, n - 1);
      AbsorbKeysDiffer(rules, d, cs[n - 1]);
      AbsorbAllLast(rules, d, cs[..n - 1], cs[n - 1]);
      assert cs[..n - 1] + [cs[n - 1]] == cs[..n];
    }
  }

  /** A channel's readings by key: one for each key that is read, and it is the last one read. */
  lemma DictIsLast(rules: Rules, cs: seq<Fact>, k: string)
    ensures KeysDiffer(rules, Dict(rules, cs)) && AllLast(rules, Dict(rules, cs), cs)
    ensures HasKey(DictWay(rules), Dict(rules, cs), k) <==> HasKey(DictWay(rules), cs, k)
  {
    KeptIsLast(rules, cs, |cs|);
    KeysKept(DictWay(rules), cs, |cs|, k);
    assert cs[..|cs|] == cs;
  }

  // ------------------------------------------------------------------ what is left unpaired

  ghost predicate Unmatched(single: seq<Fact>, left: seq<Fact>, test: Fact -> (Fact -> bool)) {
    forall s, i :: s in single && i in left ==> !test(s)(i)
  }

  /** Choosing the first that passes the test. */
  ghost predicate Greedy(choose: Choice, test: Fact -> (Fact -> bool)) {
    forall s, left :: choose(s, left) == FirstWhere(left, test(s), 0)
  }

  lemma TakeUnmatched(p: Split, s: Fact, test: Fact -> (Fact -> bool))
    requires Unmatched(p.single, p.left, test)
    ensures var next := Take(p, s, FirstWhere(p.left, test(s), 0)); Unmatched(next.single, next.left, test)
  {
    var k := FirstWhere(p.left, test(s), 0);
    var next := Take(p, s, k);
    forall x, i | x in next.single && i in next.left ensures !test(x)(i) {
      assert i in p.left;
      if x !in p.single {
        assert x == s && k == |p.left|;
        var j :| 0 <= j < |p.left| && p.left[j] == i;
        NoneWhere(p.left, test(s), 0, j);
      }
    }
  }

  lemma {:induction false} PassUnmatched(choose: Choice, ss: seq<Fact>, n: nat, images: seq<Fact>,
        test: Fact -> (Fact -> bool))
    requires n <= |ss| && Greedy(choose, test)
    ensures var p := Pass(choose, ss, n, images); Unmatched(p.single, p.left, test)
  {
    if n > 0 {
      PassUnmatched(choose, ss, n - 1, images, test);
      TakeUnmatched(Pass(choose, ss, n - 1, images), ss[n - 1], test);
    }
  }

  /** Nothing comes in that was not there. */
  lemma {:induction false} PassWithin(choose: Choice, ss: seq<Fact>, n: nat, images: seq<Fact>)
    requires n <= |ss|
    ensures forall x :: x in Pass(choose, ss, n, images).single ==> x in ss
    ensures forall x :: x in Pass(choose, ss, n, images).left ==> x in images
    ensures forall q :: q in Pass(choose, ss, n, images).pairs ==> q.structure in ss && q.image in images
  {
    if n > 0 { PassWithin(choose, ss, n - 1, images); }
  }

  /** Every choice that is made passes the law. */
  ghost predicate Lawful(choose: Choice, law: Pair -> bool) {
    forall s, left :: choose(s, left) < |left| ==> law(Pair(s, left[choose(s, left)]))
  }

  lemma {:induction false} PassObeys(choose: Choice, ss: seq<Fact>, n: nat, images: seq<Fact>, law: Pair -> bool)
    requires n <= |ss| && Lawful(choose, law)
    ensures forall q :: q in Pass(choose, ss, n, images).pairs ==> law(q)
  {
    if n > 0 { PassObeys(choose, ss, n - 1, images, law); }
  }

  // ------------------------------------------------------------------ each reading once

  function StructureIn(): Compared -> multiset<Fact>
  {
    (x: Compared) => if x.reading.OnlyImage? then multiset{} else multiset{x.reading.structure}
  }

  function ImageIn(): Compared -> multiset<Fact>
  {
    (x: Compared) => if x.reading.OnlyStructure? then multiset{} else multiset{x.reading.image}
  }

  function KeyIn(): Compared -> multiset<string> { (x: Compared) => multiset{x.key} }

  lemma {:induction false} JudgedHold<U>(rules: Rules, ps: seq<Pair>, f: Compared -> multiset<U>,
        g: Pair -> multiset<U>)
    requires forall p :: f(Judge(rules, p)) == g(p)
    ensures Gather(Judged(rules, ps), f) == Gather(ps, g)
  {
    if ps != [] {
      JudgedHold(rules, ps[1..], f, g);
      assert Judged(rules, ps)[1..] == Judged(rules, ps[1..]);
    }
  }

  function Lone(rules: Rules, c: Fact, structure: bool, a: Agreement): Compared {
    Compared(rules.key(c), if structure then OnlyStructure(c) else OnlyImage(c), a, [])
  }

  lemma {:induction false} AloneHold<U>(rules: Rules, cs: seq<Fact>, structure: bool, a: Agreement,
        f: Compared -> multiset<U>,
                                        g: Fact -> multiset<U>)
    requires forall c :: f(Lone(rules, c, structure, a)) == g(c)
    ensures Gather(Alone(rules, cs, structure, a), f) == Gather(cs, g)
  {
    if cs != [] {
      AloneHold(rules, cs[1..], structure, a, f, g);
      assert Alone(rules, cs, structure, a)[0] == Lone(rules, cs[0], structure, a);
      assert Alone(rules, cs, structure, a)[1..] == Alone(rules, cs[1..], structure, a);
    }
  }

  lemma {:induction false} GatherNone<T, U>(xs: seq<T>, f: T -> multiset<U>)
    requires forall x :: f(x) == multiset{}
    ensures Gather(xs, f) == multiset{}
  {
    if xs != [] { GatherNone(xs[1..], f); }
  }

  /** What the list of results holds, channel by channel. */
  lemma ListedHolds<U>(rules: Rules, a: Split, b: Split, c: Split, f: Compared -> multiset<U>,
        ofPair: Pair -> multiset<U>,
                       ofSingle: Fact -> multiset<U>, ofLeft: Fact -> multiset<U>)
    requires forall p :: f(Judge(rules, p)) == ofPair(p)
    requires forall x :: f(Lone(rules, x, true, OneMissing)) == ofSingle(x)
    requires forall x :: f(Lone(rules, x, false, OneMissing)) == ofLeft(x)
    ensures Gather(Listed(rules, a, b, c), f)
      == Gather(a.pairs, ofPair) + Gather(b.pairs, ofPair) + Gather(c.pairs, ofPair) + Gather(c.single, ofSingle)
        + Gather(c.left, ofLeft)
  {
    var pairs := Judged(rules, a.pairs + b.pairs + c.pairs);
    var singles, lefts := Alone(rules, c.single, true, OneMissing), Alone(rules, c.left, false, OneMissing);
    GatherConcat(pairs + singles, lefts, f);
    GatherConcat(pairs, singles, f);
    JudgedHold(rules, a.pairs + b.pairs + c.pairs, f, ofPair);
    GatherConcat(a.pairs + b.pairs, c.pairs, ofPair);
    GatherConcat(a.pairs, b.pairs, ofPair);
    AloneHold(rules, c.single, true, OneMissing, f, ofSingle);
    AloneHold(rules, c.left, false, OneMissing, f, ofLeft);
  }

  /** The three passes together keep every reading of both channels. */
  lemma PassesHold<U>(rules: Rules, ss: seq<Fact>, images: seq<Fact>, a: Split, b: Split, c: Split,
        f: Fact -> multiset<U>)
    requires a == FirstPass(rules, ss, images) && b == SecondPass(rules, a) && c == ThirdPass(rules, b)
    ensures Holds(a, ss, images, f) && Holds(b, a.single, a.left, f) && Holds(c, b.single, b.left, f)
  {
    assert ss[..|ss|] == ss && a.single[..|a.single|] == a.single && b.single[..|b.single|] == b.single;
    PassHolds(ByKey(rules), ss, |ss|, images, f);
    PassHolds(ByRow(rules), a.single, |a.single|, a.left, f);
    PassHolds(ByLoneRow(rules, b.single), b.single, |b.single|, b.left, f);
  }

  function Nothing<U>(): Fact -> multiset<U> { x => multiset{} }

  lemma Telescope<U>(whole: multiset<U>, p: multiset<U>, x: multiset<U>, q: multiset<U>, y: multiset<U>, r: multiset<U>,
                     z: multiset<U>)
    requires p + x == whole && q + y == x && r + z == y
    ensures p + q + r + z == whole
  {
    assert p + q + r + z == p + (q + (r + z));
  }

  lemma StructuresHold(rules: Rules, ss: seq<Fact>, images: seq<Fact>)
    ensures Gather(ThreePasses(rules, ss, images), StructureIn()) == Gather(ss, Itself())
  {
    var a := FirstPass(rules, ss, images);
    var b := SecondPass(rules, a);
    var c := ThirdPass(rules, b);
    var f, g := Itself(), OfStructure(Itself());
    ListedHolds(rules, a, b, c, StructureIn(), g, f, Nothing());
    GatherNone(c.left, Nothing<Fact>());
    PassesHold(rules, ss, images, a, b, c, f);
    Telescope(Gather(ss, f), Gather(a.pairs, g), Gather(a.single, f), Gather(b.pairs, g), Gather(b.single, f),
      Gather(c.pairs, g), Gather(c.single, f));
  }

  lemma ImagesHold(rules: Rules, ss: seq<Fact>, images: seq<Fact>)
    ensures Gather(ThreePasses(rules, ss, images), ImageIn()) == Gather(images, Itself())
  {
    var a := FirstPass(rules, ss, images);
    var b := SecondPass(rules, a);
    var c := ThirdPass(rules, b);
    var f, g := Itself(), OfImage(Itself());
    ListedHolds(rules, a, b, c, ImageIn(), g, Nothing(), f);
    GatherNone(c.single, Nothing<Fact>());
    PassesHold(rules, ss, images, a, b, c, f);
    Telescope(Gather(images, f), Gather(a.pairs, g), Gather(a.left, f), Gather(b.pairs, g), Gather(b.left, f),
      Gather(c.pairs, g), Gather(c.left, f));
  }

  lemma {:induction false} GatherItself(cs: seq<Fact>)
    ensures Gather(cs, Itself()) == multiset(cs)
  {
    if cs != [] {
      GatherItself(cs[1..]);
      assert cs == [cs[0]] + cs[1..];
    }
  }

  /** Both channels read: each structure reading is in exactly one result, and so is each image reading. */
  lemma EachReadOnce(rules: Rules, structure: seq<Fact>, image: seq<Fact>)
    ensures var out := Compare(rules, Some(structure), Some(image));
      && Gather(out, StructureIn()) == multiset(Dict(rules, structure))
      && Gather(out, ImageIn()) == multiset(Dict(rules, image))
  {
    var ss, images := Dict(rules, structure), Dict(rules, image);
    GatherSort(ThreePasses(rules, ss, images), Ordering(), StructureIn());
    GatherSort(ThreePasses(rules, ss, images), Ordering(), ImageIn());
    StructuresHold(rules, ss, images);
    ImagesHold(rules, ss, images);
    GatherItself(ss);
    GatherItself(images);
  }
}
