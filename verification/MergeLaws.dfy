/** What tells two readings apart: which are merged and which of them survives, and which the comparison of
    two channels pairs. */
module MergeLaws {
  import opened Basics
  import opened Facts
  import opened Merging
  import opened Extraction
  import opened Channels
  import opened Comparison
  import opened PairingLaws
  import opened Routing

  // ------------------------------------------------------------------ two readings

  /** A reading fits itself. */
  lemma FitsItself(rules: Rules, c: Fact)
    ensures Fits(rules, c, c)
  {
  }

  lemma {:induction false} FirstFitFound<T, K>(w: Way<T, K>, kept: seq<T>, c: T, k: K, j: nat)
    requires j < |kept| && w.key(kept[j]) == Some(k) && w.fits(kept[j], c)
    ensures FirstFit(w, kept, c, k, 0) <= j
  {
    if j < FirstFit(w, kept, c, k, 0) { NoneBefore(w, kept, c, k, 0, j); }
  }

  /** A value read a second time, just as a survivor has it, is no further survivor. */
  lemma EqualIsTaken(rules: Rules, kept: seq<Fact>, c: Fact)
    requires c in kept && DupKey(rules, c).Some?
    ensures |Absorb(FactWay(rules), kept, c)| == |kept|
  {
    var j :| 0 <= j < |kept| && kept[j] == c;
    FitsItself(rules, c);
    FirstFitFound(FactWay(rules), kept, c, DupKey(rules, c).value, j);
  }

  /** Both are named, and they are not the same. */
  predicate Clash(u: string, v: string) { u != "" && v != "" && u != v }

  /** Two lettered blocks are told apart when neither letter stands in the other's heading; two blocks of which
      one has no letter, when their headings name two seasons. */
  predicate BlocksApart(rules: Rules, x: string, y: string) {
    var (a, b) := (rules.letter(x), rules.letter(y));
    && a != b
    && if Opens(a) && Opens(b) then !Contains(a, rules.norm(y)) && !Contains(b, rules.norm(x))
       else Clash(rules.seasonWord(x), rules.seasonWord(y))
  }

  predicate Says(rules: Rules, t: Option<string>, p: string) { Given(t) && p == rules.norm(t.value) }

  /** The text names the row of the reading: it is its description, its voltage, its slab, its load band, or
      its time band. */
  predicate NamesRow(rules: Rules, c: Fact, p: string) {
    && p != ""
    && (Says(rules, c.description, p) || Says(rules, c.core.voltage, p)
      || (c.slab.Some? && Says(rules, c.slab.value.text, p))
      || (c.core.loadBand.Some? && Says(rules, c.core.loadBand.value.text, p))
      || (Given(c.core.timeBand) && rules.timeBand(c.core.timeBand.value) == p)
      || (rules.timeBand(OrEmpty(c.core.timeBand)) == "" && Says(rules, c.core.timeBand, p)))
  }

  ghost predicate Nameless(rules: Rules, c: Fact) { forall p :: !NamesRow(rules, c, p) }

  /** Some text that names the row of x stands in no text that names the row of y. */
  ghost predicate Unheard(rules: Rules, x: Fact, y: Fact) {
    exists p :: NamesRow(rules, x, p) && forall q :: NamesRow(rules, y, q) ==> !Contains(p, q)
  }

  ghost predicate RowsApart(rules: Rules, x: Fact, y: Fact) {
    if Nameless(rules, x) || Nameless(rules, y) then Nameless(rules, x) != Nameless(rules, y)
    else Unheard(rules, x, y) && Unheard(rules, y, x)
  }

  predicate Counts(c: Fact) { c.core.state == ValueRead || c.core.state == ZeroRead }

  function NumberOf(rules: Rules, c: Fact): string {
    if c.core.value.Some? then rules.number(c.core.value.value) else ""
  }

  /** Both are values or zeros: of one family, category, component, page, number and sign. */
  predicate OneValue(rules: Rules, x: Fact, y: Fact) {
    && Counts(x) && Counts(y) && x.core.family == y.core.family
    && rules.upper(OrEmpty(x.core.category)) == rules.upper(OrEmpty(y.core.category))
    && x.core.component == y.core.component && x.evidence[0].page == y.evidence[0].page
    && NumberOf(rules, x) == NumberOf(rules, y) && SignOf(x) == SignOf(y)
  }

  /** What tells two readings apart: not one value, or their units, seasons, blocks or rows. */
  ghost predicate ToldApart(rules: Rules, x: Fact, y: Fact) {
    || !OneValue(rules, x, y)
    || Clash(rules.unit(OrEmpty(x.perUnit)), rules.unit(OrEmpty(y.perUnit)))
    || Clash(SeasonOf(rules, x), SeasonOf(rules, y))
    || (Given(x.rateBlock) && Given(y.rateBlock) && BlocksApart(rules, x.rateBlock.value, y.rateBlock.value))
    || RowsApart(rules, x, y)
  }

  lemma RowPartsExactly(rules: Rules, c: Fact)
    ensures forall p :: p in RowParts(rules, c) <==> NamesRow(rules, c, p)
    ensures RowParts(rules, c) == {} <==> Nameless(rules, c)
  {
    forall p ensures p in RowParts(rules, c) <==> NamesRow(rules, c, p) {}
  }

  lemma WithinExactly(rules: Rules, x: Fact, y: Fact, xs: set<string>, ys: set<string>)
    requires forall p :: p in xs <==> NamesRow(rules, x, p)
    requires forall q :: q in ys <==> NamesRow(rules, y, q)
    ensures PartsWithin(xs, ys) <==> !Unheard(rules, x, y)
  {
    if !Unheard(rules, x, y) {
      forall p | p in xs ensures exists q :: q in ys && Contains(p, q) {
        assert NamesRow(rules, x, p);
        var q :| NamesRow(rules, y, q) && Contains(p, q);
        assert q in ys;
      }
    }
  }

  lemma MatchExactly(xs: set<string>, ys: set<string>)
    ensures PartsMatch(xs, ys)
      <==> if xs == {} || ys == {} then xs == ys else PartsWithin(xs, ys) || PartsWithin(ys, xs)
  {
    if xs == ys {
      forall p | p in xs ensures exists q :: q in ys && Contains(p, q) { assert Contains(p, p); }
    }
  }

  lemma RowsApartExactly(rules: Rules, x: Fact, y: Fact, xs: set<string>, ys: set<string>)
    requires xs == RowParts(rules, x) && ys == RowParts(rules, y)
    ensures PartsMatch(xs, ys) <==> !RowsApart(rules, x, y)
  {
    RowPartsExactly(rules, x);
    RowPartsExactly(rules, y);
    WithinExactly(rules, x, y, xs, ys);
    WithinExactly(rules, y, x, ys, xs);
    MatchExactly(xs, ys);
  }

  lemma BlocksApartExactly(rules: Rules, x: Option<string>, y: Option<string>)
    ensures BlocksCompatible(rules, x, y) <==> !(Given(x) && Given(y) && BlocksApart(rules, x.value, y.value))
  {
  }

  lemma OneValueExactly(rules: Rules, x: Fact, y: Fact)
    ensures OneValue(rules, x, y) <==> DupKey(rules, x).Some? && DupKey(rules, x) == DupKey(rules, y)
  {
  }

  lemma ApartExactly(rules: Rules, x: Fact, y: Fact)
    ensures DupKey(rules, y).Some? && DupKey(rules, x) == DupKey(rules, y) && Fits(rules, x, y)
      <==> !ToldApart(rules, x, y)
  {
    OneValueExactly(rules, x, y);
    BlocksApartExactly(rules, x.rateBlock, y.rateBlock);
    RowsApartExactly(rules, x, y, RowParts(rules, x), RowParts(rules, y));
  }

  // ------------------------------------------------------------------ where a reading goes

  /** A reading goes to the first survivor that nothing tells it apart from, and is kept when there is none. */
  lemma JoinsTheFirst(rules: Rules, cands: seq<Fact>, n: nat) returns (idx: nat)
    requires n < |cands|
    ensures var (kept, c) := (Kept(FactWay(rules), cands, n), cands[n]);
      && idx <= |kept| && (forall j :: 0 <= j < idx ==> ToldApart(rules, kept[j], c))
      && (idx < |kept| ==> !ToldApart(rules, kept[idx], c))
      && Kept(FactWay(rules), cands, n + 1)
        == if idx < |kept| then kept[idx := MergeFacts(kept[idx], c)] else kept + [c]
  {
    var w, kept, c := FactWay(rules), Kept(FactWay(rules), cands, n), cands[n];
    idx := Target(w, kept, c);
    TargetIs(w, kept, c);
    if idx < |kept| { ApartExactly(rules, kept[idx], c); }
    forall j | 0 <= j < idx ensures ToldApart(rules, kept[j], c) {
      ApartExactly(rules, kept[j], c);
      if DupKey(rules, c).Some? { NoneBefore(w, kept, c, DupKey(rules, c).value, 0, j); }
    }
  }

  /** So it is with results, told apart by their primary readings. */
  lemma ResultJoinsTheFirst(rules: Rules, cmps: seq<Compared>, n: nat) returns (idx: nat)
    requires n < |cmps|
    ensures var (kept, x) := (Kept(ComparedWay(rules), cmps, n), cmps[n]);
      && idx <= |kept| && (forall j :: 0 <= j < idx ==> ToldApart(rules, Primary(kept[j].reading), Primary(x.reading)))
      && (idx < |kept| ==> !ToldApart(rules, Primary(kept[idx].reading), Primary(x.reading)))
      && Kept(ComparedWay(rules), cmps, n + 1)
        == if idx < |kept| then kept[idx := MergeCompared(kept[idx], x)] else kept + [x]
  {
    var w, kept, x := ComparedWay(rules), Kept(ComparedWay(rules), cmps, n), cmps[n];
    idx := Target(w, kept, x);
    TargetIs(w, kept, x);
    if idx < |kept| { ApartExactly(rules, Primary(kept[idx].reading), Primary(x.reading)); }
    forall j | 0 <= j < idx ensures ToldApart(rules, Primary(kept[j].reading), Primary(x.reading)) {
      ApartExactly(rules, Primary(kept[j].reading), Primary(x.reading));
      if w.key(x).Some? { NoneBefore(w, kept, x, w.key(x).value, 0, j); }
    }
  }

  /** Two readings are both kept, as they are, exactly when something tells them apart. */
  lemma TwoStayExactly(rules: Rules, x: Fact, y: Fact)
    ensures Kept(FactWay(rules), [x, y], 2) == (if ToldApart(rules, x, y) then [x, y] else [MergeFacts(x, y)])
  {
    var w := FactWay(rules);
    assert Kept(w, [x, y], 0) == [] && Kept(w, [x, y], 1) == [x];
    var idx := JoinsTheFirst(rules, [x, y], 1);
  }

  // ------------------------------------------------------------------ which readings two channels pair

  /** The name stands in the other reading's description, voltage or block. */
  predicate Hears(rules: Rules, name: string, c: Fact) {
    && name != ""
    && ((Given(c.description) && Contains(name, rules.norm(c.description.value)))
      || (Given(c.core.voltage) && Contains(name, rules.norm(c.core.voltage.value)))
      || (Given(c.rateBlock) && Contains(name, rules.norm(c.rateBlock.value))))
  }

  /** Two readings are of one row: their seasons do not clash; and they name one time band, or, where not both
      name one, the description of one stands in the other, or their rows have names that tell them not apart. */
  ghost predicate OneRow(rules: Rules, x: Fact, y: Fact) {
    var (u, v) := (rules.timeBand(OrEmpty(x.core.timeBand)), rules.timeBand(OrEmpty(y.core.timeBand)));
    && !Clash(SeasonOf(rules, x), SeasonOf(rules, y))
    && (u != "" && v != "" ==> u == v)
    && ((u != "" && v != "") || Hears(rules, rules.norm(OrEmpty(x.description)), y)
      || Hears(rules, rules.norm(OrEmpty(y.description)), x)
      || (!Nameless(rules, x) && !Nameless(rules, y) && !RowsApart(rules, x, y)))
  }

  /** Of one family, category, component and page. */
  predicate OneTable(rules: Rules, x: Fact, y: Fact) {
    && x.core.family == y.core.family
    && rules.upper(OrEmpty(x.core.category)) == rules.upper(OrEmpty(y.core.category))
    && x.core.component == y.core.component && x.evidence[0].page == y.evidence[0].page
  }

  predicate OneLetter(rules: Rules, x: Fact, y: Fact) {
    rules.letter(OrEmpty(x.rateBlock)) == rules.letter(OrEmpty(y.rateBlock))
  }

  lemma HearsExactly(rules: Rules, name: string, c: Fact, texts: set<string>)
    requires texts == RowTexts(rules, c)
    ensures NamedIn(name, texts) <==> Hears(rules, name, c)
  {
    if Given(c.description) { assert rules.norm(c.description.value) in texts; }
    if Given(c.core.voltage) { assert rules.norm(c.core.voltage.value) in texts; }
    if Given(c.rateBlock) { assert rules.norm(c.rateBlock.value) in texts; }
  }

  lemma OneRowExactly(rules: Rules, x: Fact, y: Fact, xs: set<string>, ys: set<string>)
    requires xs == RowParts(rules, x) && ys == RowParts(rules, y)
    ensures SameRow(rules, x, y) <==> OneRow(rules, x, y)
  {
    HearsExactly(rules, rules.norm(OrEmpty(x.description)), y, RowTexts(rules, y));
    HearsExactly(rules, rules.norm(OrEmpty(y.description)), x, RowTexts(rules, x));
    RowPartsExactly(rules, x);
    RowPartsExactly(rules, y);
    RowsApartExactly(rules, x, y, xs, ys);
  }

  /** Two readings that one result pairs have one key, or are of one table and row. */
  lemma PairsAreOfOneRow(rules: Rules, structure: seq<Fact>, image: seq<Fact>, x: Compared)
    requires x in Compare(rules, Some(structure), Some(image)) && x.reading.Both?
    ensures var (s, i) := (x.reading.structure, x.reading.image);
      rules.key(s) == rules.key(i) || (OneTable(rules, s, i) && OneRow(rules, s, i))
  {
    var s, i := x.reading.structure, x.reading.image;
    ResultsAreTrue(rules, structure, image, x);
    OneRowExactly(rules, s, i, RowParts(rules, s), RowParts(rules, i));
  }

  /** Of two lone results, one from each channel, the readings have two keys, and they are not of one table,
      block letter and row. */
  lemma LoneAreOfNoRow(rules: Rules, structure: seq<Fact>, image: seq<Fact>, x: Compared, y: Compared)
    requires x in Compare(rules, Some(structure), Some(image)) && x.reading.OnlyStructure?
    requires y in Compare(rules, Some(structure), Some(image)) && y.reading.OnlyImage?
    ensures var (s, i) := (x.reading.structure, y.reading.image);
      && rules.key(s) != rules.key(i)
      && !(OneTable(rules, s, i) && OneLetter(rules, s, i) && OneRow(rules, s, i))
  {
    var s, i := x.reading.structure, y.reading.image;
    PairingIsMaximal(rules, structure, image, x, y);
    OneRowExactly(rules, s, i, RowParts(rules, s), RowParts(rules, i));
  }

  // ------------------------------------------------------------------ seasons within a group

  predicate AllNameSeasons(rules: Rules, ms: seq<Fact>) { forall m :: m in ms ==> SeasonOf(rules, m) != "" }

  predicate OneSeason(rules: Rules, ms: seq<Fact>, season: string) {
    forall m :: m in ms ==> SeasonOf(rules, m) == season
  }

  /** When all members name a season, so does the survivor, and it is everyone's. */
  predicate SeasonHeld(rules: Rules, s: Fact, ms: seq<Fact>) {
    AllNameSeasons(rules, ms) ==> SeasonOf(rules, s) != "" && OneSeason(rules, ms, SeasonOf(rules, s))
  }

  lemma FilledSeason(rules: Rules, winner: Fact, loser: Fact)
    requires rules.seasonWord("") == "" && SeasonOf(rules, winner) != ""
    ensures SeasonOf(rules, Filled(winner, loser)) == SeasonOf(rules, winner)
  {
  }

  lemma MergedSeason(rules: Rules, s: Fact, c: Fact)
    requires rules.seasonWord("") == "" && SeasonOf(rules, s) == SeasonOf(rules, c) != ""
    ensures SeasonOf(rules, MergeFacts(s, c)) == SeasonOf(rules, s)
  {
    FilledSeason(rules, s, c);
    FilledSeason(rules, c, s);
  }

  lemma SeasonStep(rules: Rules, s: Fact, ms: seq<Fact>, c: Fact)
    requires rules.seasonWord("") == "" && SeasonHeld(rules, s, ms) && !SeasonsConflict(rules, s, c)
    ensures SeasonHeld(rules, MergeFacts(s, c), ms + [c])
  {
    if AllNameSeasons(rules, ms + [c]) {
      assert c in ms + [c] && forall m :: m in ms ==> m in ms + [c];
      MergedSeason(rules, s, c);
    }
  }

  /** Readings that each name a season are merged only when it is the same season. */
  lemma SeasonsStayApart(rules: Rules, cands: seq<Fact>, i: nat)
    requires rules.seasonWord("") == "" && i < |Kept(FactWay(rules), cands, |cands|)|
    ensures SeasonHeld(rules, Kept(FactWay(rules), cands, |cands|)[i], Groups(FactWay(rules), cands, |cands|)[i])
  {
    var w, law := FactWay(rules), (s, ms) => SeasonHeld(rules, s, ms);
    forall c ensures law(c, [c]) {}
    forall s, ms, c | law(s, ms) && w.key(c).Some? && w.key(s) == w.key(c) && w.fits(s, c)
      ensures law(w.merge(s, c), ms + [c])
    {
      SeasonStep(rules, s, ms, c);
    }
    GroupsObey(w, cands, |cands|, law);
  }

  // ------------------------------------------------------------------ seasons within a group of results

  predicate AllPrimariesNameSeasons(rules: Rules, ms: seq<Compared>) {
    forall m :: m in ms ==> SeasonOf(rules, Primary(m.reading)) != ""
  }

  predicate PrimarySeasonHeld(rules: Rules, s: Compared, ms: seq<Compared>) {
    AllPrimariesNameSeasons(rules, ms) ==>
      SeasonOf(rules, Primary(s.reading)) != ""
      && forall m :: m in ms ==> SeasonOf(rules, Primary(m.reading)) == SeasonOf(rules, Primary(s.reading))
  }

  lemma PrimarySeasonStep(rules: Rules, s: Compared, ms: seq<Compared>, c: Compared)
    requires PrimarySeasonHeld(rules, s, ms) && !SeasonsConflict(rules, Primary(s.reading), Primary(c.reading))
    ensures PrimarySeasonHeld(rules, MergeCompared(s, c), ms + [c])
  {
    CarryingSeason(rules, s, Primary(c.reading).evidence);
    CarryingSeason(rules, c, Primary(s.reading).evidence);
    PrimarySeasonTaken(rules, s, ms, c, MergeCompared(s, c));
  }

  lemma CarryingSeason(rules: Rules, x: Compared, more: seq<Evidence>)
    ensures SeasonOf(rules, Primary(Carrying(x, more).reading)) == SeasonOf(rules, Primary(x.reading))
  {
  }

  lemma PrimarySeasonTaken(rules: Rules, s: Compared, ms: seq<Compared>, c: Compared, out: Compared)
    requires PrimarySeasonHeld(rules, s, ms) && !SeasonsConflict(rules, Primary(s.reading), Primary(c.reading))
    requires SeasonOf(rules, Primary(out.reading)) == SeasonOf(rules, Primary(s.reading))
      || SeasonOf(rules, Primary(out.reading)) == SeasonOf(rules, Primary(c.reading))
    ensures PrimarySeasonHeld(rules, out, ms + [c])
  {
    if AllPrimariesNameSeasons(rules, ms + [c]) {
      assert c in ms + [c] && forall m :: m in ms ==> m in ms + [c];
    }
  }

  /** So it is with results: those whose readings each name a season become one only when it is the same. */
  lemma ResultSeasonsStayApart(rules: Rules, cmps: seq<Compared>, i: nat)
    requires i < |Kept(ComparedWay(rules), cmps, |cmps|)|
    ensures PrimarySeasonHeld(rules, Kept(ComparedWay(rules), cmps, |cmps|)[i],
              Groups(ComparedWay(rules), cmps, |cmps|)[i])
  {
    var w, law := ComparedWay(rules), (s, ms) => PrimarySeasonHeld(rules, s, ms);
    forall c ensures law(c, [c]) {}
    forall s, ms, c | law(s, ms) && w.key(c).Some? && w.key(s) == w.key(c) && w.fits(s, c)
      ensures law(w.merge(s, c), ms + [c])
    {
      PrimarySeasonStep(rules, s, ms, c);
    }
    GroupsObey(w, cmps, |cmps|, law);
  }

  // ------------------------------------------------------------------ readings alike but for the season

  /** Two readings of one kind with the same labels; their seasons and places may differ. */
  predicate Twins(x: Fact, y: Fact) {
    x == y.(core := y.core.(season := x.core.season), evidence := x.evidence) && IsCell(x) == IsCell(y)
  }

  predicate Keyed(rules: Rules, c: Fact, k: Key) { DupKey(rules, c) == Some(k) }

  /** All readings with this key are alike but for their seasons and places. */
  ghost predicate AlikeUnder(rules: Rules, cands: seq<Fact>, k: Key) {
    forall i, j :: 0 <= i < |cands| && 0 <= j < |cands| && Keyed(rules, cands[i], k) && Keyed(rules, cands[j], k) ==>
      Twins(cands[i], cands[j])
  }

  /** Each reading with this key is a twin of c. */
  ghost predicate TwinsOf(rules: Rules, cands: seq<Fact>, k: Key, c: Fact) {
    forall j :: 0 <= j < |cands| && Keyed(rules, cands[j], k) ==> Twins(c, cands[j])
  }

  /** The first reading with this key names a season. */
  predicate FirstNames(rules: Rules, cands: seq<Fact>, k: Key) {
    cands != []
      && if Keyed(rules, cands[0], k) then SeasonOf(rules, cands[0]) != "" else FirstNames(rules, cands[1..], k)
  }

  /** No two readings with this key name different seasons. */
  ghost predicate Harmony(rules: Rules, cands: seq<Fact>, k: Key) {
    forall i, j :: 0 <= i < |cands| && 0 <= j < |cands| && Keyed(rules, cands[i], k) && Keyed(rules, cands[j], k) ==>
      !Clash(SeasonOf(rules, cands[i]), SeasonOf(rules, cands[j]))
  }

  /** No group of this key holds two readings that name different seasons. */
  ghost predicate Unmixed(rules: Rules, gs: seq<seq<Fact>>, k: Key) {
    forall i :: 0 <= i < |gs| ==> Harmony(rules, gs[i], k)
  }

  /** At most one survivor has this key. */
  ghost predicate OneSurvivor(rules: Rules, kept: seq<Fact>, k: Key) {
    forall i, j :: 0 <= i < |kept| && 0 <= j < |kept| && Keyed(rules, kept[i], k) && Keyed(rules, kept[j], k) ==> i == j
  }

  lemma TwinsMerge(s: Fact, c: Fact)
    requires Twins(s, c)
    ensures MergeFacts(s, c) == s.(evidence := AddPlaces(s.evidence, c.evidence))
  {
  }

  lemma TwinsFit(rules: Rules, s: Fact, c: Fact)
    requires Twins(s, c)
    ensures Fits(rules, s, c) <==> !SeasonsConflict(rules, s, c)
  {
  }

  // ------------------------------------------------------------------ a group of twins

  predicate AllTwinsOf(c: Fact, ms: seq<Fact>) { forall m :: m in ms ==> Twins(c, m) }

  /** The survivor of twins is the first of them with more places; when that one names a season, no member
      names another. */
  predicate FirstStays(rules: Rules, s: Fact, ms: seq<Fact>) {
    && ms != []
    && (AllTwinsOf(ms[0], ms) ==>
      s == ms[0].(evidence := s.evidence) && IsCell(s) == IsCell(ms[0])
      && (SeasonOf(rules, ms[0]) != "" ==>
        forall m :: m in ms ==> SeasonOf(rules, m) in {"", SeasonOf(rules, ms[0])}))
  }

  lemma FirstStaysStep(rules: Rules, s: Fact, ms: seq<Fact>, c: Fact)
    requires FirstStays(rules, s, ms) && !SeasonsConflict(rules, s, c)
    ensures FirstStays(rules, MergeFacts(s, c), ms + [c])
  {
    if AllTwinsOf(ms[0], ms + [c]) {
      assert c in ms + [c] && forall m :: m in ms ==> m in ms + [c];
      TwinsMerge(s, c);
      AddPlacesIs(s.evidence, c.evidence);
    }
  }

  lemma GroupsStay(rules: Rules, cands: seq<Fact>, n: nat)
    requires n <= |cands|
    ensures forall i :: 0 <= i < |Kept(FactWay(rules), cands, n)| ==>
      FirstStays(rules, Kept(FactWay(rules), cands, n)[i], Groups(FactWay(rules), cands, n)[i])
  {
    var w, law := FactWay(rules), (s, ms) => FirstStays(rules, s, ms);
    forall c ensures law(c, [c]) {}
    forall s, ms, c | law(s, ms) && w.key(c).Some? && w.key(s) == w.key(c) && w.fits(s, c)
      ensures law(w.merge(s, c), ms + [c])
    {
      FirstStaysStep(rules, s, ms, c);
    }
    GroupsObey(w, cands, n, law);
    assert AllObey(law, Kept(w, cands, n), Groups(w, cands, n));
    forall i | 0 <= i < |Kept(w, cands, n)| ensures FirstStays(rules, Kept(w, cands, n)[i], Groups(w, cands, n)[i]) {
      assert law(Kept(w, cands, n)[i], Groups(w, cands, n)[i]);
    }
  }

  // ------------------------------------------------------------------ what is kept of twins

  /** Each survivor with this key is a twin of all readings with it, and names a season when the first does. */
  ghost predicate KeptTwins(rules: Rules, kept: seq<Fact>, cands: seq<Fact>, k: Key) {
    forall i :: 0 <= i < |kept| && Keyed(rules, kept[i], k) ==>
      TwinsOf(rules, cands, k, kept[i]) && (FirstNames(rules, cands, k) ==> SeasonOf(rules, kept[i]) != "")
  }

  lemma {:induction false} FirstIsFirst(rules: Rules, cands: seq<Fact>, k: Key, n: nat)
    requires n < |cands| && Keyed(rules, cands[n], k) && !HasKey(FactWay(rules), cands[..n], k)
    ensures FirstNames(rules, cands, k) <==> SeasonOf(rules, cands[n]) != ""
  {
    if n > 0 {
      if Keyed(rules, cands[0], k) { HasKeyAt(FactWay(rules), cands[..n], 0, k); }
      var tail := cands[1..];
      if HasKey(FactWay(rules), tail[..n - 1], k) {
        var j := KeyPlace(FactWay(rules), tail[..n - 1], k);
        HasKeyAt(FactWay(rules), cands[..n], j + 1, k);
      }
      FirstIsFirst(rules, tail, k, n - 1);
    }
  }

  lemma {:induction false} KeyPlace<T, K>(w: Way<T, K>, xs: seq<T>, k: K) returns (j: nat)
    requires HasKey(w, xs, k)
    ensures j < |xs| && w.key(xs[j]) == Some(k)
  {
    if w.key(xs[|xs| - 1]) == Some(k) { j := |xs| - 1; } else { j := KeyPlace(w, xs[..|xs| - 1], k); }
  }

  /** A reading of this key that is kept next to others of it clashes with each of them. */
  lemma ApartFromKept(rules: Rules, kept: seq<Fact>, c: Fact, k: Key, j: nat)
    requires Keyed(rules, c, k) && Target(FactWay(rules), kept, c) == |kept|
    requires j < |kept| && Keyed(rules, kept[j], k) && Twins(kept[j], c)
    ensures Clash(SeasonOf(rules, kept[j]), SeasonOf(rules, c))
  {
    NoneBefore(FactWay(rules), kept, c, k, 0, j);
    TwinsFit(rules, kept[j], c);
  }

  /** What a merge of a twin leaves of a survivor. */
  lemma TwinTaken(rules: Rules, s: Fact, c: Fact, cands: seq<Fact>, k: Key)
    requires Twins(s, c) && DupKey(rules, s) == DupKey(rules, c)
    ensures var out := MergeFacts(s, c);
      SeasonOf(rules, out) == SeasonOf(rules, s) && DupKey(rules, out) == DupKey(rules, s)
        && (TwinsOf(rules, cands, k, s) ==> TwinsOf(rules, cands, k, out))
  {
    TwinsMerge(s, c);
    MergeKeepsKey(rules, s, c);
    AddPlacesIs(s.evidence, c.evidence);
    var out := MergeFacts(s, c);
    if TwinsOf(rules, cands, k, s) {
      forall j | 0 <= j < |cands| && Keyed(rules, cands[j], k) ensures Twins(out, cands[j]) {
        assert Twins(s, cands[j]);
      }
    }
  }

  lemma OtherTaken(rules: Rules, kept: seq<Fact>, idx: nat, c: Fact, cands: seq<Fact>, k: Key)
    requires idx < |kept| && DupKey(rules, kept[idx]) == DupKey(rules, c) && !Keyed(rules, c, k)
    requires KeptTwins(rules, kept, cands, k)
    ensures KeptTwins(rules, kept[idx := MergeFacts(kept[idx], c)], cands, k)
  {
    MergeKeepsKey(rules, kept[idx], c);
  }

  /** The reading n is kept as a further survivor. */
  lemma NextKept(rules: Rules, cands: seq<Fact>, k: Key, n: nat)
    requires n < |cands| && AlikeUnder(rules, cands, k) && Keyed(rules, cands[n], k)
    requires KeptTwins(rules, Kept(FactWay(rules), cands, n), cands, k)
    requires Target(FactWay(rules), Kept(FactWay(rules), cands, n), cands[n]) == |Kept(FactWay(rules), cands, n)|
    ensures FirstNames(rules, cands, k) ==> SeasonOf(rules, cands[n]) != ""
    ensures SeasonOf(rules, cands[n]) == "" ==> !HasKey(FactWay(rules), Kept(FactWay(rules), cands, n), k)
  {
    var w, kept := FactWay(rules), Kept(FactWay(rules), cands, n);
    if HasKey(w, kept, k) {
      var j := KeyPlace(w, kept, k);
      ApartFromKept(rules, kept, cands[n], k, j);
    } else {
      FactWayMerges(rules);
      KeysKept(w, cands, n, k);
      FirstIsFirst(rules, cands, k, n);
    }
  }

  lemma TwinsAbsorbed(rules: Rules, cands: seq<Fact>, k: Key, n: nat, kept: seq<Fact>)
    requires n < |cands| && AlikeUnder(rules, cands, k)
    requires kept == Kept(FactWay(rules), cands, n) && KeptTwins(rules, kept, cands, k)
    ensures KeptTwins(rules, Absorb(FactWay(rules), kept, cands[n]), cands, k)
  {
    var idx, c := Target(FactWay(rules), kept, cands[n]), cands[n];
    TargetIs(FactWay(rules), kept, c);
    if idx < |kept| {
      if Keyed(rules, c, k) {
        TwinTaken(rules, kept[idx], c, cands, k);
      } else {
        OtherTaken(rules, kept, idx, c, cands, k);
      }
    } else if Keyed(rules, c, k) {
      NextKept(rules, cands, k, n);
    }
  }

  lemma {:induction false} KeptAreTwins(rules: Rules, cands: seq<Fact>, k: Key, n: nat, kept: seq<Fact>)
    requires n <= |cands| && AlikeUnder(rules, cands, k) && kept == Kept(FactWay(rules), cands, n)
    ensures KeptTwins(rules, kept, cands, k)
    decreases n
  {
    if n > 0 {
      var before := Kept(FactWay(rules), cands, n - 1);
      KeptAreTwins(rules, cands, k, n - 1, before);
      TwinsAbsorbed(rules, cands, k, n - 1, before);
    }
  }

  /** There is one survivor at most, and it clashes with no reading of this key. */
  ghost predicate Lone(rules: Rules, kept: seq<Fact>, cands: seq<Fact>, k: Key) {
    && OneSurvivor(rules, kept, k)
    && forall i, j :: 0 <= i < |kept| && 0 <= j < |cands| && Keyed(rules, kept[i], k) && Keyed(rules, cands[j], k) ==>
         !Clash(SeasonOf(rules, kept[i]), SeasonOf(rules, cands[j]))
  }

  lemma LoneTaken(rules: Rules, kept: seq<Fact>, idx: nat, c: Fact, cands: seq<Fact>, k: Key)
    requires idx < |kept| && DupKey(rules, kept[idx]) == DupKey(rules, c)
    requires Lone(rules, kept, cands, k) && KeptTwins(rules, kept, cands, k) && c in cands
    ensures Lone(rules, kept[idx := MergeFacts(kept[idx], c)], cands, k)
  {
    MergeKeepsKey(rules, kept[idx], c);
    if Keyed(rules, c, k) { TwinTaken(rules, kept[idx], c, cands, k); }
  }

  /** A reading that is kept although one of its key is there clashes with that one. */
  lemma LoneKept(rules: Rules, cands: seq<Fact>, k: Key, n: nat)
    requires n < |cands| && AlikeUnder(rules, cands, k) && (FirstNames(rules, cands, k) ==> Harmony(rules, cands, k))
    requires Lone(rules, Kept(FactWay(rules), cands, n), cands, k)
    requires Target(FactWay(rules), Kept(FactWay(rules), cands, n), cands[n]) == |Kept(FactWay(rules), cands, n)|
    ensures Lone(rules, Kept(FactWay(rules), cands, n) + [cands[n]], cands, k)
  {
    var w, kept, c := FactWay(rules), Kept(FactWay(rules), cands, n), cands[n];
    if Keyed(rules, c, k) {
      KeptAreTwins(rules, cands, k, n, kept);
      forall j | 0 <= j < |kept| ensures !Keyed(rules, kept[j], k) {
        if Keyed(rules, kept[j], k) { ApartFromKept(rules, kept, c, k, j); }
      }
      if HasKey(w, kept, k) { var j := KeyPlace(w, kept, k); }
      FactWayMerges(rules);
      KeysKept(w, cands, n, k);
      FirstIsFirst(rules, cands, k, n);
    }
  }

  lemma LoneAbsorbed(rules: Rules, cands: seq<Fact>, k: Key, n: nat, kept: seq<Fact>)
    requires n < |cands| && AlikeUnder(rules, cands, k) && (FirstNames(rules, cands, k) ==> Harmony(rules, cands, k))
    requires kept == Kept(FactWay(rules), cands, n) && Lone(rules, kept, cands, k)
    ensures Lone(rules, Absorb(FactWay(rules), kept, cands[n]), cands, k)
  {
    var idx := Target(FactWay(rules), kept, cands[n]);
    if idx < |kept| {
      TargetIs(FactWay(rules), kept, cands[n]);
      KeptAreTwins(rules, cands, k, n, kept);
      LoneTaken(rules, kept, idx, cands[n], cands, k);
    } else {
      LoneKept(rules, cands, k, n);
    }
  }

  lemma {:induction false} LoneSurvivor(rules: Rules, cands: seq<Fact>, k: Key, n: nat, kept: seq<Fact>)
    requires n <= |cands| && AlikeUnder(rules, cands, k) && kept == Kept(FactWay(rules), cands, n)
    requires FirstNames(rules, cands, k) ==> Harmony(rules, cands, k)
    ensures Lone(rules, kept, cands, k)
    decreases n
  {
    if n > 0 {
      var before := Kept(FactWay(rules), cands, n - 1);
      LoneSurvivor(rules, cands, k, n - 1, before);
      LoneAbsorbed(rules, cands, k, n - 1, before);
    }
  }

  // ------------------------------------------------------------------ seasons of twins, exactly

  lemma {:induction false} MembersKeyed(rules: Rules, ms: seq<Fact>, k: Option<Key>, m: Fact)
    requires AllKeyed(rules, ms, k) && m in ms
    ensures DupKey(rules, m) == k
  {
    if m != ms[|ms| - 1] { MembersKeyed(rules, ms[..|ms| - 1], k, m); }
  }

  /** A member of a group was given, and has the key of its survivor. */
  lemma MemberIs(rules: Rules, cands: seq<Fact>, i: nat, m: Fact)
    requires i < |Kept(FactWay(rules), cands, |cands|)| && m in Groups(FactWay(rules), cands, |cands|)[i]
    ensures m in cands && DupKey(rules, m) == DupKey(rules, Kept(FactWay(rules), cands, |cands|)[i])
  {
    var w, gs := FactWay(rules), Groups(FactWay(rules), cands, |cands|);
    GroupsHoldAll(w, cands, |cands|);
    BagHas(gs, i, m);
    assert cands[..|cands|] == cands;
    SurvivorsAreFaithful(rules, cands, i);
    MembersKeyed(rules, gs[i], DupKey(rules, Kept(w, cands, |cands|)[i]), m);
  }

  lemma {:induction false} BagPlace<T>(gs: seq<seq<T>>, m: T) returns (i: nat)
    requires m in Bag(gs)
    ensures i < |gs| && m in gs[i]
  {
    if m in gs[|gs| - 1] { i := |gs| - 1; } else { i := BagPlace(gs[..|gs| - 1], m); }
  }

  lemma GroupOf(rules: Rules, cands: seq<Fact>, a: nat) returns (i: nat)
    requires a < |cands|
    ensures var w := FactWay(rules);
      i < |Kept(w, cands, |cands|)| && cands[a] in Groups(w, cands, |cands|)[i]
        && DupKey(rules, Kept(w, cands, |cands|)[i]) == DupKey(rules, cands[a])
  {
    GroupsHoldAll(FactWay(rules), cands, |cands|);
    assert cands[..|cands|] == cands && cands[a] in multiset(cands);
    i := BagPlace(Groups(FactWay(rules), cands, |cands|), cands[a]);
    MemberIs(rules, cands, i, cands[a]);
  }

  lemma GivenInHarmony(rules: Rules, cands: seq<Fact>, ms: seq<Fact>, k: Key)
    requires Harmony(rules, cands, k) && forall m :: m in ms ==> m in cands
    ensures Harmony(rules, ms, k)
  {
    forall i, j | 0 <= i < |ms| && 0 <= j < |ms| && Keyed(rules, ms[i], k) && Keyed(rules, ms[j], k)
      ensures !Clash(SeasonOf(rules, ms[i]), SeasonOf(rules, ms[j]))
    {
      assert ms[i] in ms && ms[j] in ms;
      var a :| 0 <= a < |cands| && cands[a] == ms[i];
      var b :| 0 <= b < |cands| && cands[b] == ms[j];
    }
  }

  lemma TwinsInHarmony(rules: Rules, s: Fact, ms: seq<Fact>, k: Key)
    requires FirstStays(rules, s, ms) && AllTwinsOf(ms[0], ms) && SeasonOf(rules, s) != ""
    ensures Harmony(rules, ms, k)
  {
    forall i, j | 0 <= i < |ms| && 0 <= j < |ms| ensures !Clash(SeasonOf(rules, ms[i]), SeasonOf(rules, ms[j])) {
      assert ms[i] in ms && ms[j] in ms;
    }
  }

  lemma OthersInHarmony(rules: Rules, ms: seq<Fact>, k: Key)
    requires forall m :: m in ms ==> !Keyed(rules, m, k)
    ensures Harmony(rules, ms, k)
  {
  }

  /** A group of this key holds no two seasons when the first reading names one, or no two readings clash. */
  lemma GroupInHarmony(rules: Rules, cands: seq<Fact>, k: Key, i: nat)
    requires AlikeUnder(rules, cands, k) && i < |Groups(FactWay(rules), cands, |cands|)|
    requires FirstNames(rules, cands, k) || Harmony(rules, cands, k)
    ensures Harmony(rules, Groups(FactWay(rules), cands, |cands|)[i], k)
  {
    var w, ms := FactWay(rules), Groups(FactWay(rules), cands, |cands|)[i];
    var s := Kept(w, cands, |cands|)[i];
    forall m | m in ms ensures m in cands && DupKey(rules, m) == DupKey(rules, s) { MemberIs(rules, cands, i, m); }
    if !Keyed(rules, s, k) {
      OthersInHarmony(rules, ms, k);
    } else if Harmony(rules, cands, k) {
      GivenInHarmony(rules, cands, ms, k);
    } else {
      GroupsStay(rules, cands, |cands|);
      KeptAreTwins(rules, cands, k, |cands|, Kept(w, cands, |cands|));
      assert FirstStays(rules, s, ms) && ms[0] in ms;
      TwinsInHarmony(rules, s, ms, k);
    }
  }

  lemma ClashHeard(rules: Rules, ms: seq<Fact>, x: Fact, y: Fact, k: Key)
    requires x in ms && y in ms && Keyed(rules, x, k) && Keyed(rules, y, k)
    requires Clash(SeasonOf(rules, x), SeasonOf(rules, y))
    ensures !Harmony(rules, ms, k)
  {
    var i :| 0 <= i < |ms| && ms[i] == x;
    var j :| 0 <= j < |ms| && ms[j] == y;
  }

  /** The groups of two readings that clash. */
  lemma ClashingGroups(rules: Rules, cands: seq<Fact>, k: Key) returns (i: nat, j: nat)
    requires !Harmony(rules, cands, k)
    ensures var (w, n) := (FactWay(rules), |cands|);
      && i < |Kept(w, cands, n)| && j < |Kept(w, cands, n)|
      && Keyed(rules, Kept(w, cands, n)[i], k) && Keyed(rules, Kept(w, cands, n)[j], k)
      && (i == j ==> !Harmony(rules, Groups(w, cands, n)[i], k))
  {
    var a, b :| 0 <= a < |cands| && 0 <= b < |cands| && Keyed(rules, cands[a], k) && Keyed(rules, cands[b], k)
      && Clash(SeasonOf(rules, cands[a]), SeasonOf(rules, cands[b]));
    i := GroupOf(rules, cands, a);
    j := GroupOf(rules, cands, b);
    if i == j { ClashHeard(rules, Groups(FactWay(rules), cands, |cands|)[i], cands[a], cands[b], k); }
  }

  /** Of readings alike but for their seasons, no two that name different seasons become one exactly when the
      first of them names a season, or all that name one name the same; and they become one reading exactly
      when the first names none, or all that name one name the same. */
  lemma SeasonsOfTwins(rules: Rules, cands: seq<Fact>, k: Key)
    requires AlikeUnder(rules, cands, k)
    ensures Unmixed(rules, Groups(FactWay(rules), cands, |cands|), k)
      <==> FirstNames(rules, cands, k) || Harmony(rules, cands, k)
    ensures OneSurvivor(rules, Kept(FactWay(rules), cands, |cands|), k)
      <==> !FirstNames(rules, cands, k) || Harmony(rules, cands, k)
  {
    var w, n := FactWay(rules), |cands|;
    if FirstNames(rules, cands, k) ==> Harmony(rules, cands, k) { LoneSurvivor(rules, cands, k, n, Kept(w, cands, n)); }
    if FirstNames(rules, cands, k) || Harmony(rules, cands, k) {
      forall i | 0 <= i < |Groups(w, cands, n)| ensures Harmony(rules, Groups(w, cands, n)[i], k) {
        GroupInHarmony(rules, cands, k, i);
      }
    }
    if !Harmony(rules, cands, k) { var i, j := ClashingGroups(rules, cands, k); }
  }

  // ------------------------------------------------------------------ two seasons that become one reading

  /** Labels are compared as they are, and a text is the season it names. */
  const SEASONAL := PLAIN.(seasonWord := PlainText())

  function Seasonal(season: Option<string>): Fact {
    Sample(Some("r"), None).(core := Sample(Some("r"), None).core.(season := season))
  }

  const ANY := Seasonal(None)
  const SUMMER := Seasonal(Some("summer"))
  const WINTER := Seasonal(Some("winter"))

  lemma SeasonlessTakes(c: Fact)
    requires c == SUMMER || c == WINTER
    ensures Target(FactWay(SEASONAL), [ANY], c) == 0 && FactWay(SEASONAL).merge(ANY, c) == ANY
  {
    TwinsFit(SEASONAL, ANY, c);
    TwinsMerge(ANY, c);
    assert FirstFit(FactWay(SEASONAL), [ANY], c, DupKey(SEASONAL, c).value, 0) == 0;
    assert AddPlaces(ANY.evidence, c.evidence) == ANY.evidence by { assert c.evidence[1..] == []; }
  }

  lemma OneTakesTwo<T, K>(w: Way<T, K>, a: T, b: T, c: T)
    requires Target(w, [a], b) == 0 && w.merge(a, b) == a && Target(w, [a], c) == 0
    ensures Groups(w, [a, b, c], 3) == [[a, b, c]]
  {
    var xs := [a, b, c];
    assert Kept(w, xs, 0) == [] && Kept(w, xs, 1) == [a] && Kept(w, xs, 2) == [a];
    assert Groups(w, xs, 0) == [] && Groups(w, xs, 1) == [[a]];
    assert [a] + [b] == [a, b] && [a, b] + [c] == [a, b, c];
    assert [[a]][0 := [a] + [b]] == [[a, b]] && [[a, b]][0 := [a, b] + [c]] == [[a, b, c]];
  }

  /** Finding: a value printed without a season takes in the summer's and the winter's, which alone are kept
      apart. */
  lemma SummerMeetsWinter()
    ensures Clash(SeasonOf(SEASONAL, SUMMER), SeasonOf(SEASONAL, WINTER))
    ensures Kept(FactWay(SEASONAL), [SUMMER, WINTER], 2) == [SUMMER, WINTER]
    ensures Groups(FactWay(SEASONAL), [ANY, SUMMER, WINTER], 3) == [[ANY, SUMMER, WINTER]]
  {
    TwoStayExactly(SEASONAL, SUMMER, WINTER);
    SeasonlessTakes(SUMMER);
    SeasonlessTakes(WINTER);
    OneTakesTwo(FactWay(SEASONAL), ANY, SUMMER, WINTER);
  }

  // ------------------------------------------------------------------ which reading survives

  /** The first member read in a cell, or the number of members. */
  function FirstCell(ms: seq<Fact>): (k: nat)
    ensures k <= |ms|
  {
    if ms == [] || IsCell(ms[0]) then 0 else 1 + FirstCell(ms[1..])
  }

  /** The first member with a block, or the number of members. */
  function FirstBlock(ms: seq<Fact>): (k: nat)
    ensures k <= |ms|
  {
    if ms == [] || Given(ms[0].rateBlock) then 0 else 1 + FirstBlock(ms[1..])
  }

  /** The member that survives: the first cell, or the first of all where there is none; but the first with
      a block, when that comes later and is of the same kind. */
  function Origin(ms: seq<Fact>): (k: nat)
    requires ms != []
    ensures k < |ms|
  {
    var kind := if FirstCell(ms) < |ms| then FirstCell(ms) else 0;
    var b := FirstBlock(ms);
    if kind < b < |ms| && IsCell(ms[b]) == IsCell(ms[kind]) then b else kind
  }

  lemma {:induction false} FirstsStep(ms: seq<Fact>, c: Fact)
    ensures FirstCell(ms + [c]) == if FirstCell(ms) < |ms| || IsCell(c) then FirstCell(ms) else |ms| + 1
    ensures FirstBlock(ms + [c]) == if FirstBlock(ms) < |ms| || Given(c.rateBlock) then FirstBlock(ms) else |ms| + 1
    ensures FirstCell(ms) < |ms| ==> IsCell(ms[FirstCell(ms)])
    ensures FirstBlock(ms) < |ms| ==> Given(ms[FirstBlock(ms)].rateBlock)
  {
    if ms != [] {
      FirstsStep(ms[1..], c);
      assert (ms + [c])[1..] == ms[1..] + [c];
    } else {
      assert [c][1..] == [] && ms + [c] == [c];
    }
  }

  /** The survivor is the member `Origin` tells, with more places; its block is its own, or else the first
      one that any member has. */
  predicate Survives(s: Fact, ms: seq<Fact>) {
    && ms != [] && s.core == ms[Origin(ms)].core && s.evidence[0] == ms[Origin(ms)].evidence[0]
    && (IsCell(s) <==> FirstCell(ms) < |ms|) && (Given(s.rateBlock) <==> FirstBlock(ms) < |ms|)
    && (FirstBlock(ms) < |ms| ==>
      s.rateBlock == ms[if Given(ms[Origin(ms)].rateBlock) then Origin(ms) else FirstBlock(ms)].rateBlock)
  }

  lemma {:induction false} NoBlockBefore(ms: seq<Fact>, j: nat)
    requires j < FirstBlock(ms)
    ensures !Given(ms[j].rateBlock)
  {
    if j > 0 { NoBlockBefore(ms[1..], j - 1); }
  }

  lemma SurvivesStep(s: Fact, ms: seq<Fact>, c: Fact)
    requires Survives(s, ms)
    ensures Survives(MergeFacts(s, c), ms + [c])
  {
    FirstsStep(ms, c);
    AddPlacesIs(s.evidence, c.evidence);
    AddPlacesIs(c.evidence, s.evidence);
    if Origin(ms) < FirstBlock(ms) { NoBlockBefore(ms, Origin(ms)); }
  }

  /** Of each group of readings the one told by `Origin` survives. */
  lemma OriginSurvives(rules: Rules, cands: seq<Fact>, i: nat)
    requires i < |Kept(FactWay(rules), cands, |cands|)|
    ensures Survives(Kept(FactWay(rules), cands, |cands|)[i], Groups(FactWay(rules), cands, |cands|)[i])
  {
    var w, law := FactWay(rules), (s, ms) => Survives(s, ms);
    forall c ensures law(c, [c]) { FirstsStep([], c); }
    forall s, ms, c | law(s, ms) && w.key(c).Some? && w.key(s) == w.key(c) && w.fits(s, c)
      ensures law(w.merge(s, c), ms + [c])
    {
      SurvivesStep(s, ms, c);
    }
    GroupsObey(w, cands, |cands|, law);
  }
}
