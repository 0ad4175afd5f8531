/** Comparing regions that overlap: one result survives per printed fact, and only a result that
    both channels agree on, with nothing in doubt, is offered for batch review. */
module Routing {
  import opened Basics
  import opened Facts
  import opened Merging
  import opened Channels
  import opened Comparison
  import opened ComparisonLaws
  import opened PairingLaws
  import opened Sorting

  // ------------------------------------------------------------------ dedupe_compared

  /** Agreement first, then a cell reading, then one with a block; each digit is 0 or 1, so the
      number orders like the tuple. */
  function Rank(x: Compared): nat {
    var p := Primary(x.reading);
    (if x.agreement == Agree then 0 else 4) + (if IsCell(p) then 0 else 2) + (if Given(p.rateBlock) then 0 else 1)
  }

  function Citing(c: Fact, more: seq<Evidence>): Fact { c.(evidence := AddPlaces(c.evidence, more)) }

  /** The result with more places on its primary reading. */
  function Carrying(x: Compared, more: seq<Evidence>): Compared {
    match x.reading
    case Both(s, i) => x.(reading := Both(Citing(s, more), i))
    case OnlyStructure(s) => x.(reading := OnlyStructure(Citing(s, more)))
    case OnlyImage(i) => x.(reading := OnlyImage(Citing(i, more)))
  }

  function MergeCompared(kept: Compared, x: Compared): Compared {
    if Rank(x) < Rank(kept) then Carrying(x, Primary(kept.reading).evidence)
      else Carrying(kept, Primary(x.reading).evidence)
  }

  function ComparedWay(rules: Rules): Way<Compared, Key> {
    Way(
      (x: Compared) => DupKey(rules, Primary(x.reading)),
      (x: Compared, y: Compared) => Fits(rules, Primary(x.reading), Primary(y.reading)),
      (x, y) => MergeCompared(x, y))
  }

  lemma CarryingKeepsKey(rules: Rules, x: Compared, more: seq<Evidence>)
    ensures DupKey(rules, Primary(Carrying(x, more).reading)) == DupKey(rules, Primary(x.reading))
  {
    AddPlacesIs(Primary(x.reading).evidence, more);
  }

  lemma ComparedKeepsKeys(rules: Rules)
    ensures KeepsKeys(ComparedWay(rules))
  {
    forall s: Compared, c: Compared | DupKey(rules, Primary(s.reading)) == DupKey(rules, Primary(c.reading))
      ensures DupKey(rules, Primary(MergeCompared(s, c).reading)) == DupKey(rules, Primary(c.reading))
    {
      CarryingKeepsKey(rules, s, Primary(c.reading).evidence);
      CarryingKeepsKey(rules, c, Primary(s.reading).evidence);
    }
  }

  method DedupeCompared(rules: Rules, cmps: seq<Compared>) returns (kept: seq<Compared>)
    ensures kept == Kept(ComparedWay(rules), cmps, |cmps|)
  {
    ComparedKeepsKeys(rules);
    kept := MergeAll(ComparedWay(rules), cmps);
  }

  // ------------------------------------------------------------------ what survives

  function PrimaryPlaces(ms: seq<Compared>): set<Evidence> {
    if ms == [] then {} else PrimaryPlaces(ms[..|ms| - 1]) + SetOf(Primary(ms[|ms| - 1].reading).evidence)
  }

  /** The first member of least rank. */
  function Best(ms: seq<Compared>): Compared
    requires ms != []
  {
    var last := ms[|ms| - 1];
    if |ms| == 1 then last
    else if Rank(last) < Rank(Best(ms[..|ms| - 1])) then last else Best(ms[..|ms| - 1])
  }

  /** Two results but for the places their primary readings cite. */
  predicate AlikeButPlaces(x: Compared, y: Compared) {
    && x.key == y.key && x.agreement == y.agreement && x.diff == y.diff
    && Primary(x.reading).evidence[0] == Primary(y.reading).evidence[0]
    && match (x.reading, y.reading)
       case (Both(s, i), Both(t, j)) => s == t.(evidence := s.evidence) && i == j
       case (OnlyStructure(s), OnlyStructure(t)) => s == t.(evidence := s.evidence)
       case (OnlyImage(i), OnlyImage(j)) => i == j.(evidence := i.evidence)
       case _ => false
  }

  predicate PrimariesKeyed(rules: Rules, ms: seq<Compared>, k: Option<Key>) {
    ms == [] || (DupKey(rules, Primary(ms[|ms| - 1].reading)) == k && PrimariesKeyed(rules, ms[..|ms| - 1], k))
  }

  /** The survivor is the first of least rank among its members, which all read the same value; its primary
      reading cites all the places theirs cite and no other. */
  predicate BestOf(rules: Rules, s: Compared, ms: seq<Compared>) {
    && ms != [] && AlikeButPlaces(s, Best(ms)) && SetOf(Primary(s.reading).evidence) == PrimaryPlaces(ms)
    && PrimariesKeyed(rules, ms, DupKey(rules, Primary(s.reading)))
  }

  /** Which of two results a group keeps: one the channels agree on; of two alike in that, one whose primary
      reading is a cell's; of two alike in both, one with a block. */
  predicate Preferred(x: Compared, y: Compared) {
    var (p, q) := (Primary(x.reading), Primary(y.reading));
    if (x.agreement == Agree) != (y.agreement == Agree) then x.agreement == Agree
    else if IsCell(p) != IsCell(q) then IsCell(p)
    else Given(p.rateBlock) && !Given(q.rateBlock)
  }

  lemma RankIsPreference(x: Compared, y: Compared)
    ensures Rank(x) < Rank(y) <==> Preferred(x, y)
  {
  }

  lemma CarryingIs(x: Compared, more: seq<Evidence>)
    ensures AlikeButPlaces(Carrying(x, more), x)
    ensures SetOf(Primary(Carrying(x, more).reading).evidence) == SetOf(Primary(x.reading).evidence) + SetOf(more)
  {
    AddPlacesIs(Primary(x.reading).evidence, more);
  }

  lemma BestStep(s: Compared, ms: seq<Compared>, c: Compared)
    requires ms != [] && AlikeButPlaces(s, Best(ms))
    ensures AlikeButPlaces(MergeCompared(s, c), Best(ms + [c]))
  {
    assert (ms + [c])[..|ms|] == ms && Rank(s) == Rank(Best(ms));
    CarryingIs(s, Primary(c.reading).evidence);
    CarryingIs(c, Primary(s.reading).evidence);
  }

  lemma BestOfStep(rules: Rules, s: Compared, ms: seq<Compared>, c: Compared)
    requires BestOf(rules, s, ms) && DupKey(rules, Primary(s.reading)) == DupKey(rules, Primary(c.reading))
    ensures BestOf(rules, MergeCompared(s, c), ms + [c])
  {
    CarryingKeepsKey(rules, s, Primary(c.reading).evidence);
    CarryingKeepsKey(rules, c, Primary(s.reading).evidence);
    assert (ms + [c])[..|ms|] == ms;
    BestStep(s, ms, c);
    CarryingIs(s, Primary(c.reading).evidence);
    CarryingIs(c, Primary(s.reading).evidence);
  }

  lemma BestOfStart(rules: Rules, c: Compared)
    ensures BestOf(rules, c, [c])
  {
    assert PrimaryPlaces([c]) == PrimaryPlaces([]) + SetOf(Primary(c.reading).evidence);
  }

  lemma SurvivorsAreBest(rules: Rules, cmps: seq<Compared>, i: nat)
    requires i < |Kept(ComparedWay(rules), cmps, |cmps|)|
    ensures BestOf(rules, Kept(ComparedWay(rules), cmps, |cmps|)[i], Groups(ComparedWay(rules), cmps, |cmps|)[i])
  {
    var w, law := ComparedWay(rules), (s, ms) => BestOf(rules, s, ms);
    forall c ensures law(c, [c]) { BestOfStart(rules, c); }
    forall s, ms, c | law(s, ms) && w.key(c).Some? && w.key(s) == w.key(c) && w.fits(s, c)
      ensures law(w.merge(s, c), ms + [c])
    {
      BestOfStep(rules, s, ms, c);
    }
    GroupsObey(w, cmps, |cmps|, law);
  }

  /** No member ranks below the best one, and none before it ranks with it. */
  lemma {:induction false} BestIsFirstLeast(ms: seq<Compared>) returns (b: nat)
    requires ms != []
    ensures b < |ms| && Best(ms) == ms[b]
    ensures forall j :: 0 <= j < |ms| ==> Rank(ms[b]) <= Rank(ms[j]) && (j < b ==> Rank(ms[b]) < Rank(ms[j]))
  {
    var n := |ms| - 1;
    if n == 0 {
      b := 0;
    } else {
      var earlier := BestIsFirstLeast(ms[..n]);
      assert forall j :: 0 <= j < n ==> ms[..n][j] == ms[j];
      b := if Rank(ms[n]) < Rank(ms[earlier]) then n else earlier;
    }
  }

  /** The survivor of a group is, but for the places it cites, the member that is preferred to each one
      before it and to which none is preferred. */
  lemma SurvivorIsPreferred(rules: Rules, cmps: seq<Compared>, i: nat) returns (b: nat)
    requires i < |Kept(ComparedWay(rules), cmps, |cmps|)|
    ensures var ms := Groups(ComparedWay(rules), cmps, |cmps|)[i];
      && b < |ms| && AlikeButPlaces(Kept(ComparedWay(rules), cmps, |cmps|)[i], ms[b])
      && forall j :: 0 <= j < |ms| ==> !Preferred(ms[j], ms[b]) && (j < b ==> Preferred(ms[b], ms[j]))
  {
    SurvivorsAreBest(rules, cmps, i);
    var ms := Groups(ComparedWay(rules), cmps, |cmps|)[i];
    b := BestIsFirstLeast(ms);
    forall j | 0 <= j < |ms| ensures !Preferred(ms[j], ms[b]) && (j < b ==> Preferred(ms[b], ms[j])) {
      RankIsPreference(ms[j], ms[b]);
      RankIsPreference(ms[b], ms[j]);
    }
  }

  /** Every result is in one group; for every value that some result reads, some survivor reads it; and
      results that read no value pass through in order. */
  lemma DedupeLosesNothing(rules: Rules, cmps: seq<Compared>, k: Key)
    ensures var (w, n) := (ComparedWay(rules), |cmps|);
      && Bag(Groups(w, cmps, n)) == multiset(cmps)
      && (HasKey(w, Kept(w, cmps, n), k) <==> HasKey(w, cmps, k))
      && Keyless(w, Kept(w, cmps, n)) == Keyless(w, cmps)
  {
    var w, n := ComparedWay(rules), |cmps|;
    assert cmps[..n] == cmps;
    ComparedKeepsKeys(rules);
    GroupsHoldAll(w, cmps, n);
    KeysKept(w, cmps, n, k);
    KeylessPass(w, cmps, n);
  }

  // ------------------------------------------------------------------ route

  datatype Confidence = High | Medium | Low

  datatype Risk =
    | ChannelDisagreement | ChannelMissing | OneChannel | HeaderInherited | MergedCellPropagated | ReaderDisagreement
    | SlabAmbiguous | UnitUnresolved | NilWord | OcrPage | RefersElsewhere | FieldsMissing | NewProfile

  datatype Route = Route(confidence: Confidence, risks: seq<Risk>, batch: bool)

  function FlagRisk(flag: string): Option<Risk> {
    match flag
    case "header_inherited" => Some(HeaderInherited)
    case "merged_cell_propagated" => Some(MergedCellPropagated)
    case "reader_disagreement" => Some(ReaderDisagreement)
    case "slab_inclusivity_ambiguous" => Some(SlabAmbiguous)
    case "unit_unresolved" => Some(UnitUnresolved)
    case "nil_word" => Some(NilWord)
    case _ => None
  }

  /** The risk is raised by how the channels agree, a flag on a cited cell, the page, the reading, or the utility. */
  predicate Raised(k: Risk, x: Compared, flags: seq<string>, ocrPage: bool, newProfile: bool) {
    match k
    case ChannelDisagreement => x.agreement == Disagree
    case ChannelMissing => x.agreement == OneMissing
    case OneChannel => x.agreement == SingleChannel
    case OcrPage => ocrPage
    case RefersElsewhere => Primary(x.reading).core.state == CrossReference
    case FieldsMissing => Unsure(Primary(x.reading))
    case NewProfile => newProfile
    case _ => exists f :: f in flags && FlagRisk(f) == Some(k)
  }

  /** The channel says it could not read a field, or not for certain. */
  predicate Unsure(c: Fact) { c.core.missing != [] || c.core.ambiguous != [] }

  ghost predicate NoRepeats(ks: seq<Risk>) { forall i, j :: 0 <= i < j < |ks| ==> ks[i] != ks[j] }

  /** The channels agree and nothing is in doubt. */
  ghost predicate Clear(x: Compared, flags: seq<string>, ocrPage: bool, newProfile: bool) {
    x.agreement == Agree && forall k :: !Raised(k, x, flags, ocrPage, newProfile)
  }

  predicate AgreementRisk(k: Risk, a: Agreement) {
    (k == ChannelDisagreement && a == Disagree) || (k == ChannelMissing && a == OneMissing)
      || (k == OneChannel && a == SingleChannel)
  }

  /** How sure the agreement makes us, and the risk that it raises. */
  method Judgement(a: Agreement) returns (confidence: Confidence, risks: seq<Risk>)
    ensures confidence == (if a == Agree then High else if a == Disagree then Low else Medium)
    ensures NoRepeats(risks)
    ensures forall k :: k in risks <==> AgreementRisk(k, a)
  {
    match a {
      case Disagree => confidence, risks := Low, [ChannelDisagreement];
      case OneMissing => confidence, risks := Medium, [ChannelMissing];
      case SingleChannel => confidence, risks := Medium, [OneChannel];
      case Agree => confidence, risks := High, [];
    }
  }

  predicate IsFlagRisk(k: Risk) {
    k in [HeaderInherited, MergedCellPropagated, ReaderDisagreement, SlabAmbiguous, UnitUnresolved, NilWord]
  }

  /** Each mapped flag raises its risk once. */
  method FlagRisks(before: seq<Risk>, flags: seq<string>) returns (risks: seq<Risk>)
    requires NoRepeats(before)
    ensures NoRepeats(risks)
    ensures forall k :: k in risks <==> k in before || exists f :: f in flags && FlagRisk(f) == Some(k)
    ensures forall k :: k in risks ==> k in before || IsFlagRisk(k)
  {
    risks := before;
    for n := 0 to |flags|
      invariant NoRepeats(risks)
      invariant forall k :: k in risks <==> k in before || exists f :: f in flags[..n] && FlagRisk(f) == Some(k)
      invariant forall k :: k in risks ==> k in before || IsFlagRisk(k)
    {
      var k := FlagRisk(flags[n]);
      assert flags[..n + 1] == flags[..n] + [flags[n]];
      if k.Some? && k.value !in risks { risks := risks + [k.value]; }
    }
    assert flags[..|flags|] == flags;
  }

  method AddRisk(before: seq<Risk>, k: Risk, raised: bool) returns (risks: seq<Risk>)
    requires NoRepeats(before) && k !in before
    ensures NoRepeats(risks) && forall j :: j in risks <==> j in before || (raised && j == k)
  {
    risks := if raised then before + [k] else before;
  }

  /** The risks after the flags: the page, the reading and the utility, in this order. */
  method LastRisks(before: seq<Risk>, c: Fact, ocrPage: bool, newProfile: bool) returns (risks: seq<Risk>)
    requires NoRepeats(before) && forall k :: k in before ==>
      k !in [OcrPage, RefersElsewhere, FieldsMissing, NewProfile]
    ensures NoRepeats(risks)
    ensures forall k :: k in risks <==> (k in before || (k == OcrPage && ocrPage)
      || (k == RefersElsewhere && c.core.state == CrossReference) || (k == FieldsMissing && Unsure(c))
        || (k == NewProfile && newProfile))
  {
    risks := AddRisk(before, OcrPage, ocrPage);
    risks := AddRisk(risks, RefersElsewhere, c.core.state == CrossReference);
    risks := AddRisk(risks, FieldsMissing, Unsure(c));
    risks := AddRisk(risks, NewProfile, newProfile);
  }

  lemma FlagRiskIs(flag: string)
    ensures FlagRisk(flag).Some? ==> IsFlagRisk(FlagRisk(flag).value)
  {
  }

  /** The risk tags of a result: those that are raised, each once. */
  method RiskTags(x: Compared, flags: seq<string>, ocrPage: bool, newProfile: bool)
    returns (confidence: Confidence, risks: seq<Risk>)
    ensures NoRepeats(risks) && forall k :: k in risks <==> Raised(k, x, flags, ocrPage, newProfile)
    ensures confidence == (if x.agreement == Agree then High else if x.agreement == Disagree then Low else Medium)
  {
    confidence, risks := Judgement(x.agreement);
    risks := FlagRisks(risks, flags);
    risks := LastRisks(risks, Primary(x.reading), ocrPage, newProfile);
    forall f | f in flags ensures FlagRisk(f).Some? ==> IsFlagRisk(FlagRisk(f).value) { FlagRiskIs(f); }
  }

  /** The risks are those that are raised; batch review is offered exactly when the channels agree and
      nothing is in doubt. */
  method RouteOf(x: Compared, flags: seq<string>, ocrPage: bool, newProfile: bool) returns (r: Route)
    ensures NoRepeats(r.risks) && forall k :: k in r.risks <==> Raised(k, x, flags, ocrPage, newProfile)
    ensures r.confidence == (if x.agreement == Disagree || (x.agreement == Agree && Unsure(Primary(x.reading))) then Low
      else if x.agreement == Agree then High else Medium)
    ensures r.batch <==> Clear(x, flags, ocrPage, newProfile)
  {
    var confidence, risks := RiskTags(x, flags, ocrPage, newProfile);
    assert Raised(FieldsMissing, x, flags, ocrPage, newProfile) <==> Unsure(Primary(x.reading));
    if Unsure(Primary(x.reading)) && confidence == High { confidence := Low; }
    assert risks != [] ==> risks[0] in risks;
    r := Route(confidence, risks, confidence == High && risks == []);
  }

  // ------------------------------------------------------------------ what reaches batch review

  /** What the two channels read in a region; the image channel may not have been asked. */
  datatype Region = Region(structure: Option<seq<Fact>>, image: Option<seq<Fact>>)

  /** The results of all regions. */
  function AllCompared(rules: Rules, regions: seq<Region>): seq<Compared> {
    if regions == [] then []
    else
      var n := |regions| - 1;
      AllCompared(rules, regions[..n]) + Compare(rules, regions[n].structure, regions[n].image)
  }

  function Survivors(rules: Rules, regions: seq<Region>): seq<Compared> {
    Kept(ComparedWay(rules), AllCompared(rules, regions), |AllCompared(rules, regions)|)
  }

  lemma {:induction false} BagHas<T>(gs: seq<seq<T>>, i: nat, m: T)
    requires i < |gs| && m in gs[i]
    ensures m in Bag(gs)
    decreases |gs|
  {
    if i < |gs| - 1 { BagHas(gs[..|gs| - 1], i, m); }
  }

  lemma {:induction false} RegionOf(rules: Rules, regions: seq<Region>, x: Compared) returns (r: Region)
    requires x in AllCompared(rules, regions)
    ensures r in regions && x in Compare(rules, r.structure, r.image)
  {
    var last := regions[|regions| - 1];
    if x in Compare(rules, last.structure, last.image) {
      r := last;
    } else {
      r := RegionOf(rules, regions[..|regions| - 1], x);
    }
  }

  /** Only where both channels read a region can a result be agreed. */
  lemma AgreedReadTwice(rules: Rules, r: Region, x: Compared)
    requires x in Compare(rules, r.structure, r.image) && x.agreement == Agree
    ensures r.structure.Some? && r.image.Some?
  {
    if r.structure.Some? && r.image.None? {
      SortHas(Alone(rules, Dict(rules, r.structure.value), true, SingleChannel), Ordering(), x);
      AloneHas(rules, Dict(rules, r.structure.value), true, SingleChannel, x);
    } else if r.structure.None? && r.image.Some? {
      SortHas(Alone(rules, Dict(rules, r.image.value), false, SingleChannel), Ordering(), x);
      AloneHas(rules, Dict(rules, r.image.value), false, SingleChannel, x);
    }
  }

  /** Each survivor is, but for the places it cites, one of the results it stands for. */
  lemma SurvivorStandsFor(rules: Rules, cmps: seq<Compared>, i: nat) returns (m: Compared)
    requires i < |Kept(ComparedWay(rules), cmps, |cmps|)|
    ensures m in cmps && AlikeButPlaces(Kept(ComparedWay(rules), cmps, |cmps|)[i], m)
  {
    var gs := Groups(ComparedWay(rules), cmps, |cmps|);
    SurvivorsAreBest(rules, cmps, i);
    var b := BestIsFirstLeast(gs[i]);
    m := gs[i][b];
    GroupsHoldAll(ComparedWay(rules), cmps, |cmps|);
    BagHas(gs, i, m);
    assert cmps[..|cmps|] == cmps;
  }

  /** The flags on a cited cell that bar batch review. */
  const DOUBTS := [
    "header_inherited", "merged_cell_propagated", "reader_disagreement", "slab_inclusivity_ambiguous",
    "unit_unresolved", "nil_word"]

  /** A survivor offered for batch review was read by both channels in one region, as one row; the readings
      mean the same in all seven compared fields; and the one under review is certain, refers nowhere
      else and has no doubtful cell, page or utility behind it. */
  lemma BatchIsSafe(rules: Rules, regions: seq<Region>, i: nat, flags: seq<string>, ocrPage: bool, newProfile: bool)
    returns (r: Region, p: Pair)
    requires i < |Survivors(rules, regions)| && Clear(Survivors(rules, regions)[i], flags, ocrPage, newProfile)
    ensures r in regions && r.structure.Some? && r.image.Some?
    ensures p.structure in Dict(rules, r.structure.value) && p.image in Dict(rules, r.image.value)
    ensures Paired(rules, Rivals(rules, r.structure.value, r.image.value), p)
    ensures var x := Survivors(rules, regions)[i].reading;
      x.Both? && x.structure == p.structure.(evidence := x.structure.evidence) && x.image == p.image
        && SameMeaning(rules, x.structure, x.image) && AllSeven(rules, p.structure, p.image)
    ensures !Unsure(p.structure) && p.structure.core.state != CrossReference
    ensures !ocrPage && !newProfile && forall f :: f in DOUBTS ==> f !in flags
  {
    var x := Survivors(rules, regions)[i];
    var m := SurvivorStandsFor(rules, AllCompared(rules, regions), i);
    r := RegionOf(rules, regions, m);
    AgreedReadTwice(rules, r, m);
    ResultsAreTrue(rules, r.structure.value, r.image.value, m);
    p := Pair(m.reading.structure, m.reading.image);
    forall f ensures SameField(rules, f, x.reading.structure, p.image) {
      assert SameField(rules, f, p.structure, p.image);
    }
    MeaningIsSeven(rules, p.structure, p.image);
    NothingInDoubt(x, flags, ocrPage, newProfile);
  }

  lemma FlagRaises(x: Compared, flags: seq<string>, f: string, ocrPage: bool, newProfile: bool)
    requires f in flags && FlagRisk(f).Some?
    ensures Raised(FlagRisk(f).value, x, flags, ocrPage, newProfile)
  {
    FlagRiskIs(f);
  }

  lemma NothingInDoubt(x: Compared, flags: seq<string>, ocrPage: bool, newProfile: bool)
    requires Clear(x, flags, ocrPage, newProfile)
    ensures !Unsure(Primary(x.reading)) && Primary(x.reading).core.state != CrossReference
    ensures !ocrPage && !newProfile && forall f :: f in DOUBTS ==> f !in flags
  {
    assert !Raised(FieldsMissing, x, flags, ocrPage, newProfile)
      && !Raised(RefersElsewhere, x, flags, ocrPage, newProfile);
    assert !Raised(OcrPage, x, flags, ocrPage, newProfile) && !Raised(NewProfile, x, flags, ocrPage, newProfile);
    forall f | f in DOUBTS ensures f !in flags {
      if f in flags { FlagRaises(x, flags, f, ocrPage, newProfile); }
    }
  }
}
