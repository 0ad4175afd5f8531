/** Candidate facts read from a tariff order, and when two readings are the same printed fact. */
module Facts {
  import opened Basics

  datatype EvidenceKind = CellEvidence | ClauseEvidence | ProseEvidence

  datatype Evidence = Evidence(
    page: int,
    kind: EvidenceKind,
    gridOrdinal: Option<int>,
    row: Option<int>,
    col: Option<int>,
    lineNo: Option<int>,
    excerpt: string)

  /** Every fact is read somewhere. */
  type Places = e: seq<Evidence> | e != [] witness [Evidence(1, ProseEvidence, None, None, None, None, "")]

  datatype Slab = Slab(text: Option<string>, lower: Option<string>, upper: Option<string>)

  datatype ValueState = ValueRead | ZeroRead | CrossReference | OtherState(name: string)

  /** What no merge changes. */
  datatype Core = Core(
    family: string,
    category: Option<string>,
    component: string,
    value: Option<string>,
    state: ValueState,
    currency: Option<string>,
    sign: Option<int>,
    decision: Option<string>,
    voltage: Option<string>,
    loadBand: Option<Slab>,
    season: Option<string>,
    timeBand: Option<string>,
    missing: seq<string>,
    ambiguous: seq<string>)

  datatype Fact = Fact(
    core: Core,
    evidence: Places,
    rateBlock: Option<string>,
    slab: Option<Slab>,
    description: Option<string>,
    frequency: Option<string>,
    perUnit: Option<string>)

  /** The text rules: normal forms of labels, units, numbers and times, and the key of a fact. */
  datatype Rules = Rules(
    norm: string -> string,
    letter: string -> string,
    seasonWord: string -> string,
    unit: string -> string,
    timeBand: string -> string,
    number: string -> string,
    upper: string -> string,
    key: Fact -> string)

  // ------------------------------------------------------------------ text that is there

  predicate Given(t: Option<string>) { t.Some? && t.value != "" }

  function OrEmpty(t: Option<string>): string { if t.Some? then t.value else "" }

  predicate Contains(part: string, whole: string) {
    (|part| <= |whole| && whole[..|part|] == part) || (whole != "" && Contains(part, whole[1..]))
  }

  predicate Opens(t: string) { t != "" && t[0] == '(' }

  // ------------------------------------------------------------------ the same printed fact

  datatype Key = Key(family: string, category: string, component: string, page: int, value: string, sign: int)

  /** Family, category, component, page and signed value; only values and zeros have one. */
  function DupKey(rules: Rules, c: Fact): Option<Key> {
    if c.core.state != ValueRead && c.core.state != ZeroRead then None
    else
      Some(Key(
        c.core.family,
        rules.upper(OrEmpty(c.core.category)),
        c.core.component,
        c.evidence[0].page,
        if c.core.value.Some? then rules.number(c.core.value.value) else "",
        if c.core.sign.Some? then c.core.sign.value else 0))
  }

  function SeasonOf(rules: Rules, c: Fact): string {
    var s := rules.seasonWord(OrEmpty(c.core.season));
    if s != "" then s else rules.seasonWord(OrEmpty(c.rateBlock))
  }

  predicate SeasonsConflict(rules: Rules, x: Fact, y: Fact) {
    SeasonOf(rules, x) != "" && SeasonOf(rules, y) != "" && SeasonOf(rules, x) != SeasonOf(rules, y)
  }

  predicate UnitsCompatible(rules: Rules, x: Fact, y: Fact) {
    var (u, v) := (rules.unit(OrEmpty(x.perUnit)), rules.unit(OrEmpty(y.perUnit)));
    u == "" || v == "" || u == v
  }

  function Normal(rules: Rules, t: Option<string>): set<string> { if Given(t) then {rules.norm(t.value)} else {} }

  function SlabText(s: Option<Slab>): Option<string> { if s.Some? then s.value.text else None }

  function BandPart(rules: Rules, t: Option<string>): set<string> {
    if !Given(t) then {}
    else if rules.timeBand(t.value) != "" then {rules.timeBand(t.value)} else {rules.norm(t.value)}
  }

  /** The texts that name a row. */
  function RowParts(rules: Rules, c: Fact): set<string> {
    Normal(rules, c.description) + Normal(rules, c.core.voltage) + Normal(rules, SlabText(c.slab))
    + Normal(rules, SlabText(c.core.loadBand)) + BandPart(rules, c.core.timeBand) - {""}
  }

  predicate PartsWithin(x: set<string>, y: set<string>) { forall p :: p in x ==> exists q :: q in y && Contains(p, q) }

  predicate PartsMatch(x: set<string>, y: set<string>)
  {
    x == y || (x != {} && y != {} && (PartsWithin(x, y) || PartsWithin(y, x)))
  }

  predicate BlocksCompatible(rules: Rules, x: Option<string>, y: Option<string>) {
    if !Given(x) || !Given(y) then true
    else
      var (a, b) := (rules.letter(x.value), rules.letter(y.value));
      if a == b then true
      else if !Opens(a) || !Opens(b) then
        var (s, t) := (rules.seasonWord(x.value), rules.seasonWord(y.value));
        !(s != "" && t != "" && s != t)
      else Contains(a, rules.norm(y.value)) || Contains(b, rules.norm(x.value))
  }

  /** Two readings with one key are the same row, as far as their labels tell. */
  predicate Fits(rules: Rules, x: Fact, y: Fact) {
    && BlocksCompatible(rules, x.rateBlock, y.rateBlock)
    && UnitsCompatible(rules, x, y) && !SeasonsConflict(rules, x, y)
    && PartsMatch(RowParts(rules, x), RowParts(rules, y))
  }

  // ------------------------------------------------------------------ carrying evidence over

  /** The places of `more` that are not there yet are appended, in order. */
  function AddPlaces(places: Places, more: seq<Evidence>): Places
    decreases |more|
  {
    if more == [] then places
    else AddPlaces(if more[0] in places then places else places + [more[0]], more[1..])
  }

  function SetOf(e: seq<Evidence>): set<Evidence> { set x | x in e }

  lemma {:induction false} AddPlacesIs(places: Places, more: seq<Evidence>)
    ensures SetOf(AddPlaces(places, more)) == SetOf(places) + SetOf(more)
    ensures AddPlaces(places, more)[0] == places[0]
    decreases |more|
  {
    if more != [] {
      var next := if more[0] in places then places else places + [more[0]];
      AddPlacesIs(next, more[1..]);
      assert SetOf(next) == SetOf(places) + {more[0]};
      assert SetOf(more) == {more[0]} + SetOf(more[1..]) by { assert more == [more[0]] + more[1..]; }
    }
  }

  predicate IsCell(c: Fact) { c.evidence[0].kind == CellEvidence }
}
