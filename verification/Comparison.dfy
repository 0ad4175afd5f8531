/** Comparing the two channels: one result for every row either of them reads. */
module Comparison {
  import opened Basics
  import opened Facts
  import opened Merging
  import opened Sorting
  import opened Channels

  // ------------------------------------------------------------------ the seven compared fields

  datatype Field = ValueField | StateField | CurrencyField | UnitField | FrequencyField | SignField | DecisionField

  const COMPARE_FIELDS := [ValueField, StateField, CurrencyField, UnitField, FrequencyField, SignField, DecisionField]

  function CanonValue(rules: Rules, v: Option<string>): Option<string>
  {
    if v.Some? then Some(rules.number(v.value)) else None
  }

  /** The channels mean the same, however they spell it: 7.5 = 7.50, BHP = HP, no sign = 0. */
  predicate SameField(rules: Rules, f: Field, s: Fact, i: Fact) {
    match f
    case ValueField => CanonValue(rules, s.core.value) == CanonValue(rules, i.core.value)
    case StateField => s.core.state == i.core.state
    case CurrencyField => s.core.currency == i.core.currency
    case UnitField => rules.unit(OrEmpty(s.perUnit)) == rules.unit(OrEmpty(i.perUnit))
    case FrequencyField => s.frequency == i.frequency
    case SignField => (if s.core.sign.Some? then s.core.sign.value else 0)
      == (if i.core.sign.Some? then i.core.sign.value else 0)
    case DecisionField => s.core.decision == i.core.decision
  }

  predicate SameMeaning(rules: Rules, s: Fact, i: Fact) { forall f :: SameField(rules, f, s, i) }

  function Differing(rules: Rules, s: Fact, i: Fact, fs: seq<Field>): seq<Field> {
    if fs == [] then [] else (if SameField(rules, fs[0], s, i) then [] else [fs[0]]) + Differing(rules, s, i, fs[1..])
  }

  // ------------------------------------------------------------------ results

  datatype Agreement = Agree | Disagree | OneMissing | SingleChannel

  datatype Reading = Both(structure: Fact, image: Fact) | OnlyStructure(structure: Fact) | OnlyImage(image: Fact)

  datatype Compared = Compared(key: string, reading: Reading, agreement: Agreement, diff: seq<Field>)

  function Primary(r: Reading): Fact { if r.OnlyImage? then r.image else r.structure }

  function Judge(rules: Rules, p: Pair): Compared {
    var diff := Differing(rules, p.structure, p.image, COMPARE_FIELDS);
    Compared(rules.key(p.structure), Both(p.structure, p.image), if diff != [] then Disagree else Agree, diff)
  }

  function Judged(rules: Rules, ps: seq<Pair>): seq<Compared> {
    if ps == [] then [] else [Judge(rules, ps[0])] + Judged(rules, ps[1..])
  }

  function Alone(rules: Rules, cs: seq<Fact>, structure: bool, a: Agreement): seq<Compared> {
    if cs == [] then []
    else
      [Compared(rules.key(cs[0]), if structure then OnlyStructure(cs[0]) else OnlyImage(cs[0]), a, [])]
      + Alone(rules, cs[1..], structure, a)
  }

  predicate KeyLe(x: Compared, y: Compared) { TextLe(x.key, y.key) }

  function Ordering(): (Compared, Compared) -> bool { (x, y) => KeyLe(x, y) }

  function FirstPass(rules: Rules, ss: seq<Fact>, images: seq<Fact>): Split { Pass(ByKey(rules), ss, |ss|, images) }

  function SecondPass(rules: Rules, p: Split): Split { Pass(ByRow(rules), p.single, |p.single|, p.left) }

  function ThirdPass(rules: Rules, p: Split): Split { Pass(ByLoneRow(rules, p.single), p.single, |p.single|, p.left) }

  /** The results of three passes, in the order they are listed before sorting. */
  function Listed(rules: Rules, a: Split, b: Split, c: Split): seq<Compared> {
    Judged(rules, a.pairs + b.pairs + c.pairs) + Alone(rules, c.single, true, OneMissing)
      + Alone(rules, c.left, false, OneMissing)
  }

  function ThreePasses(rules: Rules, ss: seq<Fact>, images: seq<Fact>): seq<Compared> {
    var a := FirstPass(rules, ss, images);
    var b := SecondPass(rules, a);
    Listed(rules, a, b, ThirdPass(rules, b))
  }

  function Compare(rules: Rules, structure: Option<seq<Fact>>, image: Option<seq<Fact>>): seq<Compared> {
    if structure.Some? && image.Some?
      then Sort(ThreePasses(rules, Dict(rules, structure.value), Dict(rules, image.value)), Ordering())
    else if structure.Some? then Sort(Alone(rules, Dict(rules, structure.value), true, SingleChannel), Ordering())
    else if image.Some? then Sort(Alone(rules, Dict(rules, image.value), false, SingleChannel), Ordering())
    else []
  }

  // ------------------------------------------------------------------ the loops

  method BuildDict(rules: Rules, cands: seq<Fact>) returns (d: seq<Fact>)
    ensures d == Dict(rules, cands)
  {
    d := MergeAll(DictWay(rules), cands);
  }

  method JudgePairs(rules: Rules, ps: seq<Pair>) returns (out: seq<Compared>)
    ensures out == Judged(rules, ps)
  {
    out := [];
    for n := 0 to |ps|
      invariant out + Judged(rules, ps[n..]) == Judged(rules, ps)
    {
      var p := ps[n];
      var diff := Differing(rules, p.structure, p.image, COMPARE_FIELDS);
      var agreement := if diff != [] then Disagree else Agree;
      var next := Compared(rules.key(p.structure), Both(p.structure, p.image), agreement, diff);
      assert ps[n..][0] == p && ps[n..][1..] == ps[n + 1..];
      Assoc(out, [next], Judged(rules, ps[n + 1..]));
      out := out + [next];
    }
  }

  method ListAlone(rules: Rules, cs: seq<Fact>, structure: bool, a: Agreement) returns (out: seq<Compared>)
    ensures out == Alone(rules, cs, structure, a)
  {
    out := [];
    for n := 0 to |cs|
      invariant out + Alone(rules, cs[n..], structure, a) == Alone(rules, cs, structure, a)
    {
      var next := Compared(rules.key(cs[n]), if structure then OnlyStructure(cs[n]) else OnlyImage(cs[n]), a, []);
      assert cs[n..][0] == cs[n] && cs[n..][1..] == cs[n + 1..];
      Assoc(out, [next], Alone(rules, cs[n + 1..], structure, a));
      out := out + [next];
    }
  }

  /** Same key, then same row under the same block letter, then a row that one reading on either side names. */
  method PairUp(rules: Rules, ss: seq<Fact>, images: seq<Fact>) returns (out: seq<Compared>)
    ensures out == ThreePasses(rules, ss, images)
  {
    var byKey, rest, left := RunPass(ByKey(rules), ss, images);
    var byRow, rivals, left2 := RunPass(ByRow(rules), rest, left);
    var lone, single, left3 := RunPass(ByLoneRow(rules, rivals), rivals, left2);
    var pairs := JudgePairs(rules, byKey + byRow + lone);
    var missing := ListAlone(rules, single, true, OneMissing);
    var extra := ListAlone(rules, left3, false, OneMissing);
    out := pairs + missing + extra;
  }

  method CompareChannels(rules: Rules, structure: Option<seq<Fact>>, image: Option<seq<Fact>>)
    returns (out: seq<Compared>)
    ensures out == Compare(rules, structure, image)
  {
    out := [];
    if structure.Some? && image.Some? {
      var ss := BuildDict(rules, structure.value);
      var images := BuildDict(rules, image.value);
      out := PairUp(rules, ss, images);
    } else if structure.Some? {
      var ss := BuildDict(rules, structure.value);
      out := ListAlone(rules, ss, true, SingleChannel);
    } else if image.Some? {
      var images := BuildDict(rules, image.value);
      out := ListAlone(rules, images, false, SingleChannel);
    }
    out := Sort(out, Ordering());
  }
}
