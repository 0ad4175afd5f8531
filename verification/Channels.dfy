/** Two channels read the same rows: which reading of one is which reading of the other. */
module Channels {
  import opened Basics
  import opened Facts
  import opened Merging
  import opened Sorting

  // ------------------------------------------------------------------ readings by key

  /** A later reading with a key takes the place of an earlier one. */
  function DictWay(rules: Rules): Way<Fact, string> { Way(c => Some(rules.key(c)), (x, y) => true, (x, y) => y) }

  function Dict(rules: Rules, cands: seq<Fact>): seq<Fact> { Kept(DictWay(rules), cands, |cands|) }

  function KeyOf(rules: Rules): Fact -> multiset<string> { c => multiset{rules.key(c)} }

  function Itself(): Fact -> multiset<Fact> { c => multiset{c} }

  // ------------------------------------------------------------------ the same row

  datatype Loose = Loose(family: string, category: string, component: string, letter: string, page: int)

  function LooseKey(rules: Rules, c: Fact): Loose {
    Loose(c.core.family, rules.upper(OrEmpty(c.core.category)), c.core.component, rules.letter(OrEmpty(c.rateBlock)),
      c.evidence[0].page)
  }

  /** The texts that may hold the other channel's name for the row. */
  function RowTexts(rules: Rules, c: Fact): set<string> {
    Normal(rules, c.description) + Normal(rules, c.core.voltage) + Normal(rules, c.rateBlock)
  }

  predicate NamedIn(name: string, texts: set<string>) { name != "" && exists t :: t in texts && Contains(name, t) }

  predicate SameRow(rules: Rules, x: Fact, y: Fact) {
    var (xBand, yBand) := (rules.timeBand(OrEmpty(x.core.timeBand)), rules.timeBand(OrEmpty(y.core.timeBand)));
    if SeasonsConflict(rules, x, y) then false
    else if xBand != "" && yBand != "" then xBand == yBand
    else if NamedIn(rules.norm(OrEmpty(x.description)), RowTexts(rules, y)) then true
    else if NamedIn(rules.norm(OrEmpty(y.description)), RowTexts(rules, x)) then true
    else RowParts(rules, x) != {} && RowParts(rules, y) != {} && PartsMatch(RowParts(rules, x), RowParts(rules, y))
  }

  /** What each of the three passes looks for in the other channel. */
  function KeyTest(rules: Rules, s: Fact): Fact -> bool { i => rules.key(i) == rules.key(s) }

  function RowTest(rules: Rules, s: Fact): Fact -> bool
  {
    i => LooseKey(rules, i) == LooseKey(rules, s) && SameRow(rules, s, i)
  }

  function GroupTest(rules: Rules, s: Fact): Fact -> bool {
    i => LooseKey(rules, i).(letter := "") == LooseKey(rules, s).(letter := "") && SameRow(rules, s, i)
  }

  // ------------------------------------------------------------------ one pass

  function FirstWhere(xs: seq<Fact>, test: Fact -> bool, i: nat): (k: nat)
    requires i <= |xs|
    ensures i <= k <= |xs|
    decreases |xs| - i
  {
    if i == |xs| || test(xs[i]) then i else FirstWhere(xs, test, i + 1)
  }

  lemma {:induction false} FirstWhereIs(xs: seq<Fact>, test: Fact -> bool, i: nat)
    requires i <= |xs|
    ensures FirstWhere(xs, test, i) < |xs| ==> test(xs[FirstWhere(xs, test, i)])
    decreases |xs| - i
  {
    if i < |xs| && !test(xs[i]) { FirstWhereIs(xs, test, i + 1); }
  }

  lemma {:induction false} NoneWhere(xs: seq<Fact>, test: Fact -> bool, i: nat, j: nat)
    requires i <= |xs| && i <= j < FirstWhere(xs, test, i)
    ensures !test(xs[j])
    decreases |xs| - i
  {
    if i < j { NoneWhere(xs, test, i + 1, j); }
  }

  datatype Pair = Pair(structure: Fact, image: Fact)

  /** What is paired, what the structure channel has left unpaired, and what the image channel has left. */
  datatype Split = Split(pairs: seq<Pair>, single: seq<Fact>, left: seq<Fact>)

  /** Picks an index among the readings left, or their number when none is to be paired. */
  type Choice = (Fact, seq<Fact>) -> nat

  function Take(p: Split, s: Fact, k: nat): Split {
    if k < |p.left| then Split(p.pairs + [Pair(s, p.left[k])], p.single, p.left[..k] + p.left[k + 1..])
    else Split(p.pairs, p.single + [s], p.left)
  }

  function Pass(choose: Choice, ss: seq<Fact>, n: nat, images: seq<Fact>): Split
    requires n <= |ss|
  {
    if n == 0 then Split([], [], images)
    else
      var p := Pass(choose, ss, n - 1, images);
      Take(p, ss[n - 1], choose(ss[n - 1], p.left))
  }

  function ByKey(rules: Rules): Choice { (s, left) => FirstWhere(left, KeyTest(rules, s), 0) }

  function ByRow(rules: Rules): Choice { (s, left) => FirstWhere(left, RowTest(rules, s), 0) }

  /** Only when one reading on either side names the row. */
  function ByLoneRow(rules: Rules, rivals: seq<Fact>): Choice {
    (s, left) =>
      if Count(rivals, GroupTest(rules, s)) == 1 && Count(left, GroupTest(rules, s)) == 1
      then FirstWhere(left, GroupTest(rules, s), 0) else |left|
  }

  /** The loop of a pass: each reading takes its match out of the other channel. */
  method RunPass(choose: Choice, ss: seq<Fact>, images: seq<Fact>)
    returns (pairs: seq<Pair>, single: seq<Fact>, left: seq<Fact>)
    ensures Split(pairs, single, left) == Pass(choose, ss, |ss|, images)
  {
    pairs, single, left := [], [], images;
    for n := 0 to |ss|
      invariant Split(pairs, single, left) == Pass(choose, ss, n, images)
    {
      var k := choose(ss[n], left);
      if k < |left| {
        pairs := pairs + [Pair(ss[n], left[k])];
        left := left[..k] + left[k + 1..];
      } else {
        single := single + [ss[n]];
      }
    }
  }

  // ------------------------------------------------------------------ what a pass keeps

  function OfStructure<U>(f: Fact -> multiset<U>): Pair -> multiset<U> { (p: Pair) => f(p.structure) }

  function OfImage<U>(f: Fact -> multiset<U>): Pair -> multiset<U> { (p: Pair) => f(p.image) }

  /** The readings of both channels are all there, each once. */
  ghost predicate Holds<U>(p: Split, ss: seq<Fact>, images: seq<Fact>, f: Fact -> multiset<U>) {
    && Gather(p.pairs, OfStructure(f)) + Gather(p.single, f) == Gather(ss, f)
    && Gather(p.pairs, OfImage(f)) + Gather(p.left, f) == Gather(images, f)
  }

  lemma GatherOut<U>(xs: seq<Fact>, k: nat, f: Fact -> multiset<U>)
    requires k < |xs|
    ensures Gather(xs[..k] + xs[k + 1..], f) + f(xs[k]) == Gather(xs, f)
  {
    GatherConcat(xs[..k], xs[k + 1..], f);
    GatherConcat(xs[..k], xs[k..], f);
    assert xs[..k] + xs[k..] == xs && xs[k..][1..] == xs[k + 1..];
  }

  lemma GatherOne<T, U>(xs: seq<T>, x: T, f: T -> multiset<U>)
    ensures Gather(xs + [x], f) == Gather(xs, f) + f(x)
  {
    GatherConcat(xs, [x], f);
    assert Gather([x][1..], f) == multiset{};
  }

  lemma TakeHolds<U>(p: Split, s: Fact, k: nat, ss: seq<Fact>, images: seq<Fact>, f: Fact -> multiset<U>)
    requires Holds(p, ss, images, f)
    ensures Holds(Take(p, s, k), ss + [s], images, f)
  {
    GatherOne(ss, s, f);
    if k < |p.left| {
      GatherOne(p.pairs, Pair(s, p.left[k]), OfStructure(f));
      GatherOne(p.pairs, Pair(s, p.left[k]), OfImage(f));
      GatherOut(p.left, k, f);
    } else {
      GatherOne(p.single, s, f);
    }
  }

  lemma {:induction false} PassHolds<U>(choose: Choice, ss: seq<Fact>, n: nat, images: seq<Fact>,
        f: Fact -> multiset<U>)
    requires n <= |ss|
    ensures Holds(Pass(choose, ss, n, images), ss[..n], images, f)
  {
    if n > 0 {
      PassHolds(choose, ss, n - 1, images, f);
      var p := Pass(choose, ss, n - 1, images);
      TakeHolds(p, ss[n - 1], choose(ss[n - 1], p.left), ss[..n - 1], images, f);
      assert ss[..n] == ss[..n - 1] + [ss[n - 1]];
    }
  }
}
