/** The same printed fact read twice becomes one candidate that cites both places. */
module Extraction {
  import opened Basics
  import opened Facts
  import opened Merging

  // ------------------------------------------------------------------ one merge, on values

  /** A cell reading is preferred; between two of a kind, one with a block. */
  predicate PreferNew(other: Fact, c: Fact) {
    if IsCell(c) != IsCell(other) then IsCell(c) else Given(c.rateBlock) && !Given(other.rateBlock)
  }

  function Fill(own: Option<string>, other: Option<string>): Option<string> {
    if !Given(own) && Given(other) then other else own
  }

  /** The winner with the loser's places, and with what only the loser names. */
  function Filled(winner: Fact, loser: Fact): Fact {
    Fact(
      winner.core,
      AddPlaces(winner.evidence, loser.evidence),
      Fill(winner.rateBlock, loser.rateBlock),
      if winner.slab.None? && loser.slab.Some? then loser.slab else winner.slab,
      Fill(winner.description, loser.description),
      Fill(winner.frequency, loser.frequency),
      Fill(winner.perUnit, loser.perUnit))
  }

  function MergeFacts(other: Fact, c: Fact): Fact { if PreferNew(other, c) then Filled(c, other) else Filled(other, c) }

  function FactWay(rules: Rules): Way<Fact, Key> {
    Way(c => DupKey(rules, c), (x, y) => Fits(rules, x, y), (x, y) => MergeFacts(x, y))
  }

  // ------------------------------------------------------------------ the records, changed in place

  class Candidate {
    const core: Core
    var evidence: Places
    var rateBlock: Option<string>
    var slab: Option<Slab>
    var description: Option<string>
    var frequency: Option<string>
    var perUnit: Option<string>

    constructor (fact: Fact)
      ensures View() == fact
    {
      core, evidence, rateBlock := fact.core, fact.evidence, fact.rateBlock;
      slab, description, frequency, perUnit := fact.slab, fact.description, fact.frequency, fact.perUnit;
    }

    function View(): Fact
      reads this
    {
      Fact(core, evidence, rateBlock, slab, description, frequency, perUnit)
    }

    /** Appends the places that are not there yet. */
    method TakePlaces(more: seq<Evidence>)
      modifies this`evidence
      ensures evidence == AddPlaces(old(evidence), more)
    {
      for k := 0 to |more|
        invariant AddPlaces(evidence, more[k..]) == AddPlaces(old(evidence), more)
      {
        assert more[k..][0] == more[k] && more[k..][1..] == more[k + 1..];
        if more[k] !in evidence { evidence := evidence + [more[k]]; }
      }
    }

    /** Takes over the loser's places, and what only the loser names. */
    method TakeOver(loser: Candidate)
      requires loser != this
      modifies this
      ensures View() == Filled(old(View()), loser.View())
    {
      TakePlaces(loser.evidence);
      TakeLabels(loser);
      if !Given(frequency) && Given(loser.frequency) { frequency := loser.frequency; }
      if !Given(perUnit) && Given(loser.perUnit) { perUnit := loser.perUnit; }
    }

    method TakeLabels(loser: Candidate)
      requires loser != this
      modifies this`rateBlock, this`slab, this`description
      ensures rateBlock == Fill(old(rateBlock), loser.rateBlock)
        && description == Fill(old(description), loser.description)
      ensures slab == if old(slab).None? && loser.slab.Some? then loser.slab else old(slab)
    {
      if !Given(rateBlock) && Given(loser.rateBlock) { rateBlock := loser.rateBlock; }
      if slab.None? && loser.slab.Some? { slab := loser.slab; }
      if !Given(description) && Given(loser.description) { description := loser.description; }
    }
  }

  function Views(cs: seq<Candidate>): (vs: seq<Fact>)
    reads cs
    ensures |vs| == |cs| && forall k :: 0 <= k < |cs| ==> vs[k] == cs[k].View()
  {
    seq(|cs|, k requires 0 <= k < |cs| reads cs => cs[k].View())
  }

  /** Two different objects become one; which of them it is, the readings tell. */
  method MergePair(other: Candidate, c: Candidate) returns (winner: Candidate)
    requires other != c
    modifies other, c
    ensures winner == other || winner == c
    ensures winner.View() == MergeFacts(old(other.View()), old(c.View()))
  {
    var newCell, oldCell := c.evidence[0].kind == CellEvidence, other.evidence[0].kind == CellEvidence;
    var preferNew := if newCell != oldCell then newCell else Given(c.rateBlock) && !Given(other.rateBlock);
    if preferNew {
      winner := c;
      c.TakeOver(other);
    } else {
      winner := other;
      other.TakeOver(c);
    }
  }

  // ------------------------------------------------------------------ merge_duplicates

  ghost predicate AllDifferent(cs: seq<Candidate>) { forall i, j :: 0 <= i < j < |cs| ==> cs[i] != cs[j] }

  /** The kept objects are different ones, taken from the first n candidates. */
  ghost predicate TakenFrom(kept: seq<Candidate>, cands: seq<Candidate>, n: nat)
    requires n <= |cands|
  {
    && AllDifferent(kept)
    && (forall a :: 0 <= a < |kept| ==> kept[a] in cands)
    && (forall a, j :: 0 <= a < |kept| && n <= j < |cands| ==> kept[a] != cands[j])
  }

  /** The candidates from n on are as they were. */
  ghost predicate Untouched(cands: seq<Candidate>, before: seq<Fact>, n: nat)
    requires n <= |cands| == |before|
    reads cands
  {
    forall j :: n <= j < |cands| ==> cands[j].View() == before[j]
  }

  /** A way of merging facts that keeps their keys. */
  ghost predicate MergesFacts(w: Way<Fact, Key>) { KeepsKeys(w) && forall x, y :: w.merge(x, y) == MergeFacts(x, y) }

  /** A merge keeps the key. */
  lemma MergeKeepsKey(rules: Rules, s: Fact, c: Fact)
    requires DupKey(rules, s) == DupKey(rules, c)
    ensures DupKey(rules, MergeFacts(s, c)) == DupKey(rules, c)
  {
    AddPlacesIs(s.evidence, c.evidence);
    AddPlacesIs(c.evidence, s.evidence);
  }

  lemma FactWayMerges(rules: Rules)
    ensures MergesFacts(FactWay(rules))
  {
    var w := FactWay(rules);
    forall s, c | w.key(c).Some? && w.key(s) == w.key(c) && w.fits(s, c) ensures w.key(w.merge(s, c)) == w.key(c) {
      MergeKeepsKey(rules, s, c);
    }
  }

  /** Scans the indices listed under the candidate's key. */
  method FindRow(w: Way<Fact, Key>, kept: seq<Candidate>, byKey: map<Key, seq<nat>>, c: Candidate) returns (idx: nat)
    requires Indexed(w, Views(kept), byKey)
    ensures idx == Target(w, Views(kept), c.View())
  {
    var k := w.key(c.View());
    if k.None? {
      return |kept|;
    }
    ghost var views, all := Views(kept), IndicesFrom(w, Views(kept), k.value, 0);
    FirstInIsFirstFit(w, views, c.View(), k.value, 0);
    var listed := if k.value in byKey then byKey[k.value] else [];
    var p := 0;
    while p < |listed|
      invariant 0 <= p <= |listed| && AllBelow(listed[p..], |kept|)
      invariant FirstIn(w, views, c.View(), listed[p..]) == FirstIn(w, views, c.View(), all)
    {
      assert listed[p..][0] == listed[p] && listed[p..][1..] == listed[p + 1..];
      if w.fits(kept[listed[p]].View(), c.View()) {
        return listed[p];
      }
      p := p + 1;
    }
    idx := |kept|;
  }

  /** The candidate and the kept row with index idx become one, in place. */
  method MergeAt(ghost w: Way<Fact, Key>, before: seq<Candidate>, c: Candidate, idx: nat,
                 ghost byKey: map<Key, seq<nat>>)
    returns (kept: seq<Candidate>)
    requires AllDifferent(before) && (forall a :: 0 <= a < |before| ==> before[a] != c) && idx < |before|
    requires MergesFacts(w) && Indexed(w, Views(before), byKey)
    requires w.key(c.View()).Some? && w.key(before[idx].View()) == w.key(c.View())
      && w.fits(before[idx].View(), c.View())
    modifies before[idx], c
    ensures Views(kept) == old(Views(before)[idx := MergeFacts(before[idx].View(), c.View())])
    ensures Indexed(w, Views(kept), byKey)
    ensures AllDifferent(kept) && forall a :: 0 <= a < |kept| ==> kept[a] in before || kept[a] == c
  {
    ghost var views, fact := Views(before), c.View();
    var winner := MergePair(before[idx], c);
    kept := before[idx := winner];
    assert w.merge(views[idx], fact) == MergeFacts(views[idx], fact);
    assert Views(kept) == views[idx := MergeFacts(views[idx], fact)];
    IndexedUpdate(w, views, byKey, idx, MergeFacts(views[idx], fact));
  }

  /** One candidate: merged in place into the row it belongs to, or kept. */
  method AddCandidate(w: Way<Fact, Key>, before: seq<Candidate>, byKey: map<Key, seq<nat>>, c: Candidate)
    returns (kept: seq<Candidate>, index: map<Key, seq<nat>>)
    requires AllDifferent(before) && (forall a :: 0 <= a < |before| ==> before[a] != c)
    requires MergesFacts(w) && Indexed(w, Views(before), byKey)
    modifies before, c
    ensures Views(kept) == Absorb(w, old(Views(before)), old(c.View()))
    ensures Indexed(w, Views(kept), index)
    ensures AllDifferent(kept) && forall a :: 0 <= a < |kept| ==> kept[a] in before || kept[a] == c
  {
    var idx := FindRow(w, before, byKey, c);
    if idx < |before| {
      TargetIs(w, Views(before), c.View());
      assert w.merge(before[idx].View(), c.View()) == MergeFacts(before[idx].View(), c.View());
      kept := MergeAt(w, before, c, idx, byKey);
      index := byKey;
    } else {
      IndexedAppend(w, Views(before), byKey, c.View());
      index := AddIndex(byKey, w.key(c.View()), |before|);
      kept := before + [c];
      assert Views(kept) == Views(before) + [c.View()];
    }
  }

  lemma TakenStep(before: seq<Candidate>, kept: seq<Candidate>, cands: seq<Candidate>, n: nat)
    requires n < |cands| && AllDifferent(cands) && TakenFrom(before, cands, n) && AllDifferent(kept)
    requires forall a :: 0 <= a < |kept| ==> kept[a] in before || kept[a] == cands[n]
    ensures TakenFrom(kept, cands, n + 1)
  {
  }

  /** The candidate n is taken in; those after it are left alone. */
  method TakeNext(w: Way<Fact, Key>, was: seq<Candidate>, byKey: map<Key, seq<nat>>, cands: seq<Candidate>, n: nat,
                  ghost before: seq<Fact>)
    returns (kept: seq<Candidate>, index: map<Key, seq<nat>>)
    requires n < |cands| == |before| && AllDifferent(cands) && TakenFrom(was, cands, n) && Untouched(cands, before, n)
    requires MergesFacts(w) && Indexed(w, Views(was), byKey)
    modifies cands
    ensures TakenFrom(kept, cands, n + 1) && Untouched(cands, before, n + 1)
    ensures Views(kept) == Absorb(w, old(Views(was)), before[n]) && Indexed(w, Views(kept), index)
  {
    kept, index := AddCandidate(w, was, byKey, cands[n]);
    TakenStep(was, kept, cands, n);
  }

  method MergeAll(w: Way<Fact, Key>, cands: seq<Candidate>) returns (kept: seq<Candidate>)
    requires AllDifferent(cands) && MergesFacts(w)
    modifies cands
    ensures Views(kept) == Kept(w, old(Views(cands)), |cands|)
    ensures TakenFrom(kept, cands, |cands|)
  {
    ghost var before := Views(cands);
    kept := [];
    var byKey: map<Key, seq<nat>> := map[];
    for i := 0 to |cands|
      invariant TakenFrom(kept, cands, i) && Untouched(cands, before, i)
      invariant Views(kept) == Kept(w, before, i) && Indexed(w, Views(kept), byKey)
    {
      kept, byKey := TakeNext(w, kept, byKey, cands, i, before);
    }
  }

  /** The same printed fact read twice becomes one candidate; the records are changed in place. */
  method MergeDuplicates(rules: Rules, cands: seq<Candidate>) returns (kept: seq<Candidate>)
    requires AllDifferent(cands)
    modifies cands
    ensures Views(kept) == Kept(FactWay(rules), old(Views(cands)), |cands|)
    ensures TakenFrom(kept, cands, |cands|)
  {
    FactWayMerges(rules);
    kept := MergeAll(FactWay(rules), cands);
  }

  // ------------------------------------------------------------------ what merging keeps

  function AllPlaces(ms: seq<Fact>): set<Evidence> {
    if ms == [] then {} else AllPlaces(ms[..|ms| - 1]) + SetOf(ms[|ms| - 1].evidence)
  }

  predicate AnyCell(ms: seq<Fact>) { ms != [] && (IsCell(ms[|ms| - 1]) || AnyCell(ms[..|ms| - 1])) }

  /** Some member is the fact with this core, read first at this place. */
  predicate AnyOrigin(ms: seq<Fact>, core: Core, first: Evidence) {
    ms != [] && ((ms[|ms| - 1].core == core && ms[|ms| - 1].evidence[0] == first)
      || AnyOrigin(ms[..|ms| - 1], core, first))
  }

  predicate AnyGiven(ms: seq<Fact>, of: Fact -> Option<string>) {
    ms != [] && (Given(of(ms[|ms| - 1])) || AnyGiven(ms[..|ms| - 1], of))
  }

  predicate AnyIs(ms: seq<Fact>, of: Fact -> Option<string>, v: Option<string>) {
    ms != [] && (of(ms[|ms| - 1]) == v || AnyIs(ms[..|ms| - 1], of, v))
  }

  predicate AnySlab(ms: seq<Fact>) { ms != [] && (ms[|ms| - 1].slab.Some? || AnySlab(ms[..|ms| - 1])) }

  predicate AnySlabIs(ms: seq<Fact>, v: Option<Slab>)
  {
    ms != [] && (ms[|ms| - 1].slab == v || AnySlabIs(ms[..|ms| - 1], v))
  }

  predicate AllKeyed(rules: Rules, ms: seq<Fact>, k: Option<Key>) {
    ms == [] || (DupKey(rules, ms[|ms| - 1]) == k && AllKeyed(rules, ms[..|ms| - 1], k))
  }

  /** The label is some member's, and it is there when any member has it. */
  predicate Carried(v: Option<string>, ms: seq<Fact>, of: Fact -> Option<string>) {
    AnyIs(ms, of, v) && (Given(v) <==> AnyGiven(ms, of))
  }

  function Block(c: Fact): Option<string> { c.rateBlock }

  function Described(c: Fact): Option<string> { c.description }

  function Frequency(c: Fact): Option<string> { c.frequency }

  function Unit(c: Fact): Option<string> { c.perUnit }

  predicate LabelsCarried(s: Fact, ms: seq<Fact>) {
    && Carried(s.rateBlock, ms, Block) && Carried(s.description, ms, Described)
    && Carried(s.frequency, ms, Frequency) && Carried(s.perUnit, ms, Unit)
    && AnySlabIs(ms, s.slab) && (s.slab.Some? <==> AnySlab(ms))
  }

  /** What a survivor is to the readings merged into it: it cites all their places and no other; it is
      one of them, and a cell reading when any of them is; it has a block, a slab, a description, a
      frequency and a unit when any of them has one, and each is some member's; and all of them are
      the same printed value. */
  predicate Faithful(rules: Rules, s: Fact, ms: seq<Fact>) {
    && SetOf(s.evidence) == AllPlaces(ms)
    && AnyOrigin(ms, s.core, s.evidence[0]) && (IsCell(s) <==> AnyCell(ms))
    && LabelsCarried(s, ms)
    && AllKeyed(rules, ms, DupKey(rules, s))
  }

  lemma CarriedStep(v: Option<string>, ms: seq<Fact>, of: Fact -> Option<string>, c: Fact)
    requires Carried(v, ms, of)
    ensures Carried(Fill(v, of(c)), ms + [c], of) && Carried(Fill(of(c), v), ms + [c], of)
  {
    assert (ms + [c])[..|ms|] == ms;
  }

  lemma SlabStep(s: Fact, ms: seq<Fact>, c: Fact)
    requires AnySlabIs(ms, s.slab) && (s.slab.Some? <==> AnySlab(ms))
    ensures AnySlabIs(ms + [c], MergeFacts(s, c).slab) && (MergeFacts(s, c).slab.Some? <==> AnySlab(ms + [c]))
  {
    assert (ms + [c])[..|ms|] == ms;
  }

  lemma LabelsStep(s: Fact, ms: seq<Fact>, c: Fact)
    requires LabelsCarried(s, ms)
    ensures LabelsCarried(MergeFacts(s, c), ms + [c])
  {
    SlabStep(s, ms, c);
    CarriedStep(s.rateBlock, ms, Block, c);
    CarriedStep(s.description, ms, Described, c);
    CarriedStep(s.frequency, ms, Frequency, c);
    CarriedStep(s.perUnit, ms, Unit, c);
  }

  lemma FaithfulStep(rules: Rules, s: Fact, ms: seq<Fact>, c: Fact)
    requires Faithful(rules, s, ms) && DupKey(rules, s) == DupKey(rules, c)
    ensures Faithful(rules, MergeFacts(s, c), ms + [c])
  {
    assert (ms + [c])[..|ms|] == ms;
    AddPlacesIs(s.evidence, c.evidence);
    AddPlacesIs(c.evidence, s.evidence);
    MergeKeepsKey(rules, s, c);
    LabelsStep(s, ms, c);
  }

  lemma FaithfulStart(rules: Rules, c: Fact)
    ensures Faithful(rules, c, [c])
  {
    assert AllPlaces([c]) == AllPlaces([]) + SetOf(c.evidence);
  }

  /** Every survivor is faithful to the readings merged into it. */
  lemma SurvivorsAreFaithful(rules: Rules, cands: seq<Fact>, i: nat)
    requires i < |Kept(FactWay(rules), cands, |cands|)|
    ensures Faithful(rules, Kept(FactWay(rules), cands, |cands|)[i], Groups(FactWay(rules), cands, |cands|)[i])
  {
    var w, law := FactWay(rules), (s, ms) => Faithful(rules, s, ms);
    forall c ensures law(c, [c]) { FaithfulStart(rules, c); }
    forall s, ms, c | law(s, ms) && w.key(c).Some? && w.key(s) == w.key(c) && w.fits(s, c)
      ensures law(w.merge(s, c), ms + [c])
    {
      FaithfulStep(rules, s, ms, c);
    }
    GroupsObey(w, cands, |cands|, law);
  }

  lemma {:induction false} PlacesUpdate(kept: seq<Fact>, i: nat, x: Fact, more: seq<Evidence>)
    requires i < |kept| && SetOf(x.evidence) == SetOf(kept[i].evidence) + SetOf(more)
    ensures AllPlaces(kept[i := x]) == AllPlaces(kept) + SetOf(more)
    decreases |kept|
  {
    var n := |kept| - 1;
    if i < n {
      PlacesUpdate(kept[..n], i, x, more);
      assert kept[i := x][..n] == kept[..n][i := x];
    } else {
      assert kept[i := x][..n] == kept[..n];
    }
  }

  lemma PlacesMerged(kept: seq<Fact>, i: nat, c: Fact)
    requires i < |kept|
    ensures AllPlaces(kept[i := MergeFacts(kept[i], c)]) == AllPlaces(kept) + SetOf(c.evidence)
  {
    AddPlacesIs(kept[i].evidence, c.evidence);
    AddPlacesIs(c.evidence, kept[i].evidence);
    PlacesUpdate(kept, i, MergeFacts(kept[i], c), c.evidence);
  }

  lemma PlacesAbsorbed(rules: Rules, kept: seq<Fact>, c: Fact)
    ensures AllPlaces(Absorb(FactWay(rules), kept, c)) == AllPlaces(kept) + SetOf(c.evidence)
  {
    var idx := Target(FactWay(rules), kept, c);
    if idx < |kept| {
      PlacesMerged(kept, idx, c);
    } else {
      assert (kept + [c])[..|kept|] == kept;
    }
  }

  lemma {:induction false} PlacesKept(rules: Rules, cands: seq<Fact>, n: nat)
    requires n <= |cands|
    ensures AllPlaces(Kept(FactWay(rules), cands, n)) == AllPlaces(cands[..n])
  {
    if n > 0 {
      PlacesKept(rules, cands, n - 1);
      assert cands[..n][..n - 1] == cands[..n - 1];
      PlacesAbsorbed(rules, Kept(FactWay(rules), cands, n - 1), cands[n - 1]);
    }
  }

  /** Merging keeps the set of cited places and, for every key, whether some reading has it; passes
      readings that are not values through in order; and puts each candidate in exactly one group. */
  lemma MergingLosesNothing(rules: Rules, cands: seq<Fact>, k: Key)
    ensures var (w, n) := (FactWay(rules), |cands|);
      && AllPlaces(Kept(w, cands, n)) == AllPlaces(cands)
      && (HasKey(w, Kept(w, cands, n), k) <==> HasKey(w, cands, k))
      && Keyless(w, Kept(w, cands, n)) == Keyless(w, cands)
      && Bag(Groups(w, cands, n)) == multiset(cands)
  {
    var w, n := FactWay(rules), |cands|;
    assert cands[..n] == cands;
    FactWayMerges(rules);
    PlacesKept(rules, cands, n);
    KeysKept(w, cands, n, k);
    KeylessPass(w, cands, n);
    GroupsHoldAll(w, cands, n);
  }
}
