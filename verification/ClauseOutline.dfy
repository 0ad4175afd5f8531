/** Clause outlines of prose schedules: a line-driven machine that carries the category, the
    titles by depth, the connector and the two-column header from line to line and page to page. */
module ClauseOutline {
  import opened Basics
  import Text

  // ------------------------------------------------------------------ entities

  datatype Connector = Plus | Alternatively

  datatype Role =
    | Condition | Rebate | TouSurcharge | Fixed | Demand | Energy
    | Minimum | PowerFactor | Penalty | Tariffs | Other

  datatype Kind = Value | CrossReference | ConditionClause

  /** The number of components of a clause number: two to four. */
  type Depth = d: nat | 2 <= d <= 4 witness 2

  /** A sub-clause line: the first component of its number, its depth and its title. */
  datatype Sub = Sub(first: string, depth: Depth, title: string)

  /** What the patterns find in a line or a part of it. */
  datatype Rules = Rules(
    category: string -> Option<string>,
    connector: string -> Option<Connector>,
    subclause: string -> Option<Sub>,
    headingNumber: string -> string,
    amounts: string -> seq<string>,
    twoColumns: string -> Option<(string, string)>,
    lettered: string -> Option<string>,
    crossReference: string -> Option<string>,
    roleOf: string -> Option<(Role, Option<int>)>,
    slab: string -> Option<string>,
    window: string -> Option<string>,
    signOf: string -> Option<int>)

  datatype ClauseValue = ClauseValue(
    page: int,
    line: nat,
    category: string,
    path: seq<string>,
    role: Role,
    connector: Option<Connector>,
    alternative: nat,
    text: string,
    amount: Option<string>,
    target: Option<string>,
    header: Option<string>,
    slab: Option<string>,
    window: Option<string>,
    sign: Option<int>,
    kind: Kind,
    parameters: seq<string>)

  datatype Category = Category(
    code: string,
    heading: string,
    page: int,
    line: nat,
    alternatives: nat,
    values: nat,
    crossReferences: nat,
    conditions: nat)

  datatype Unresolved = Unresolved(page: int, line: nat, text: string)

  /** The running state; the current category is the last one of the outline. */
  datatype State = State(
    heading: string,
    titles: map<Depth, string>,
    applicability: Option<string>,
    alternative: nat,
    altDepth: nat,
    pending: Option<Connector>,
    twoCol: Option<(string, string)>,
    values: seq<ClauseValue>,
    categories: seq<Category>,
    unresolved: seq<Unresolved>)

  const START := State("", map[], None, 0, 0, None, None, [], [], [])

  /** A line of a page with its place. */
  datatype Item = Item(page: int, line: nat, raw: string)

  // ------------------------------------------------------------------ one line

  /** The titles from depth k on, shallowest first. */
  function Ordered(titles: map<Depth, string>, k: nat): seq<string>
    requires 2 <= k <= 5
    decreases 5 - k
  {
    if k == 5 then [] else (if k in titles then [titles[k]] else []) + Ordered(titles, k + 1)
  }

  function PathOf(s: State): seq<string> { [s.heading] + Ordered(s.titles, 2) }

  function Deepest(titles: map<Depth, string>): nat {
    if 4 in titles then 4 else if 3 in titles then 3 else if 2 in titles then 2 else 0
  }

  predicate IsTitle(rules: Rules, s: State, line: string) {
    s.categories != [] && rules.subclause(line).Some?
      && rules.subclause(line).value.first == rules.headingNumber(s.heading)
  }

  /** A title replaces those at its depth and below. */
  function AddTitle(rules: Rules, s: State, line: string): State
    requires IsTitle(rules, s, line)
  {
    var depth := rules.subclause(line).value.depth;
    s.(titles := (map k | k in s.titles && k < depth :: s.titles[k])[depth := line],
       alternative := if depth < s.altDepth then 0 else s.alternative,
       applicability := None,
       twoCol := None)
  }

  predicate IsPureTitle(rules: Rules, s: State, line: string) {
    IsTitle(rules, s, line) && rules.amounts(rules.subclause(line).value.title) == []
  }

  function RoleFor(rules: Rules, titles: seq<string>): (Role, Option<int>) {
    if titles == [] then (Other, None)
    else
      var last := rules.roleOf(titles[|titles| - 1]);
      if last.Some? then last.value else RoleFor(rules, titles[..|titles| - 1])
  }

  function Others(path: seq<string>, line: string): seq<string> {
    if path == [] then [] else (if path[0] != line then [path[0]] else []) + Others(path[1..], line)
  }

  function ItemPath(rules: Rules, s: State, line: string): seq<string> {
    if line in s.titles.Values then PathOf(s)
    else
      var scope := if s.applicability.Some? && rules.lettered(line).None? then [s.applicability.value] else [];
      PathOf(s) + scope + [line]
  }

  function RoleOfLine(rules: Rules, s: State, line: string): (Role, Option<int>) {
    var path := ItemPath(rules, s, line);
    RoleFor(rules, if Others(path, line) != [] then Others(path, line) else path)
  }

  function Body(rules: Rules, line: string): string {
    if rules.lettered(line).Some? then rules.lettered(line).value else line
  }

  /** The fields that all values of a line share. */
  function Common(rules: Rules, s: State, item: Item, line: string): ClauseValue
    requires s.categories != []
  {
    ClauseValue(
      item.page, item.line, s.categories[|s.categories| - 1].code, ItemPath(rules, s, line),
        RoleOfLine(rules, s, line).0,
      s.pending, s.alternative, line, None, None, None, None, None, None, Value, [])
  }

  function SignOf(rules: Rules, amount: string, sign: Option<int>): Option<int> {
    if rules.signOf(amount).None? then sign else rules.signOf(amount)
  }

  predicate IsRuleRole(r: Role) { r in {PowerFactor, Penalty, Rebate, Minimum} }

  function OneEach(rules: Rules, common: ClauseValue, slab: Option<string>, window: Option<string>, sign: Option<int>,
      amounts: seq<string>): (vs: seq<ClauseValue>)
    ensures |vs| == |amounts|
  {
    if amounts == [] then []
    else
      [common.(amount := Some(amounts[0]), slab := slab, window := window, sign := SignOf(rules, amounts[0], sign))]
      + OneEach(rules, common, slab, window, sign, amounts[1..])
  }

  /** The values that the amounts of a line give. */
  function ValuesOf(rules: Rules, s: State, item: Item, line: string): seq<ClauseValue>
    requires s.categories != []
  {
    var common, (role, sign) := Common(rules, s, item, line), RoleOfLine(rules, s, line);
    var amounts, slab, window := rules.amounts(line), rules.slab(Body(rules, line)), rules.window(line);
    if s.twoCol.Some? && |amounts| >= 2 then
      [common.(amount := Some(amounts[0]), header := Some(s.twoCol.value.0), slab := slab, sign := sign),
       common.(amount := Some(amounts[1]), header := Some(s.twoCol.value.1), slab := slab, sign := sign)]
    else if IsRuleRole(role) && |amounts| > 1 then
      [common.(amount := Some(amounts[0]), window := window, sign := SignOf(rules, amounts[0], sign),
        parameters := amounts[1..])]
    else OneEach(rules, common, slab, window, sign, amounts)
  }

  function Emitted(rules: Rules, s: State, item: Item, line: string): seq<ClauseValue>
    requires s.categories != []
  {
    var common, xref := Common(rules, s, item, line), rules.crossReference(Body(rules, line));
    if common.role == Condition then [common.(kind := ConditionClause, parameters := rules.amounts(line))]
    else if rules.amounts(line) == [] then
      [common.(kind := CrossReference, target := xref, slab := rules.slab(Body(rules, line)))]
    else
      ValuesOf(rules, s, item, line)
      + (if xref.Some? then [common.(connector := None, kind := CrossReference, target := xref)] else [])
  }

  function Counted(c: Category, k: Kind): Category {
    match k
    case Value => c.(values := c.values + 1)
    case CrossReference => c.(crossReferences := c.crossReferences + 1)
    case ConditionClause => c.(conditions := c.conditions + 1)
  }

  function Tally(c: Category, vs: seq<ClauseValue>): Category
    decreases |vs|
  {
    if vs == [] then c else Tally(Counted(c, vs[0].kind), vs[1..])
  }

  /** The line holds an amount or a cross-reference. */
  predicate Speaks(rules: Rules, line: string)
  {
    rules.amounts(line) != [] || rules.crossReference(Body(rules, line)).Some?
  }

  function Emit(rules: Rules, s: State, item: Item, line: string): State
    requires s.categories != []
  {
    var vs, n := Emitted(rules, s, item, line), |s.categories|;
    s.(values := s.values + vs, categories := s.categories[n - 1 := Tally(s.categories[n - 1], vs)], pending := None)
  }

  function Shortened(line: string): string { if |line| <= 200 then line else line[..200] }

  /** What is left of a line that is neither blank, heading, connector nor pure title. */
  function Content(rules: Rules, s: State, item: Item, line: string): State {
    if rules.twoColumns(line).Some? && rules.amounts(line) == [] then s.(twoCol := rules.twoColumns(line))
    else if !Speaks(rules, line) then
      if rules.lettered(line).Some? && s.categories != [] then s.(applicability := Some(line)) else s
    else if s.categories == [] then s.(unresolved := s.unresolved + [Unresolved(item.page, item.line, Shortened(line))])
    else Emit(rules, s, item, line)
  }

  function NewCategory(rules: Rules, s: State, item: Item, line: string): State
    requires rules.category(line).Some?
  {
    State(line, map[], None, 0, s.altDepth, None, None, s.values,
          s.categories + [Category(rules.category(line).value, line, item.page, item.line, 0, 0, 0, 0)], s.unresolved)
  }

  function Connect(s: State, c: Connector): State {
    if c == Plus then s.(pending := Some(Plus))
    else
      var n := |s.categories|;
      s.(alternative := s.alternative + 1,
         altDepth := Deepest(s.titles),
         categories := if n > 0 then s.categories[n - 1 := s.categories[n - 1].(alternatives := s.alternative + 2)]
           else s.categories,
         pending := Some(Alternatively))
  }

  function Step(rules: Rules, s: State, item: Item): State {
    var line := Text.Strip(item.raw);
    if line == "" then s
    else if rules.category(line).Some? then NewCategory(rules, s, item, line)
    else if rules.connector(line).Some? then Connect(s, rules.connector(line).value)
    else if IsPureTitle(rules, s, line) then AddTitle(rules, s, line)
    else Content(rules, if IsTitle(rules, s, line) then AddTitle(rules, s, line) else s, item, line)
  }

  /** The state after the first n lines. */
  function After(rules: Rules, items: seq<Item>, n: nat): State
    requires n <= |items|
  {
    if n == 0 then START else Step(rules, After(rules, items, n - 1), items[n - 1])
  }

  // ------------------------------------------------------------------ the loop

  function ItemsOf(page: int, lines: seq<string>, from: nat): seq<Item>
    requires from <= |lines|
    decreases |lines| - from
  {
    if from == |lines| then [] else [Item(page, from + 1, lines[from])] + ItemsOf(page, lines, from + 1)
  }

  /** All lines of the pages in order, with their places. */
  function Flat(pages: seq<(int, seq<string>)>, p: nat): seq<Item>
    requires p <= |pages|
    decreases |pages| - p
  {
    if p == |pages| then [] else ItemsOf(pages[p].0, pages[p].1, 0) + Flat(pages, p + 1)
  }

  function Run(rules: Rules, s: State, items: seq<Item>): State
    decreases |items|
  {
    if items == [] then s else Run(rules, Step(rules, s, items[0]), items[1..])
  }

  lemma {:induction false} RunJoined(rules: Rules, s: State, a: seq<Item>, b: seq<Item>)
    ensures Run(rules, s, a + b) == Run(rules, Run(rules, s, a), b)
    decreases |a|
  {
    if a == [] {
      assert a + b == b;
    } else {
      assert (a + b)[1..] == a[1..] + b;
      RunJoined(rules, Step(rules, s, a[0]), a[1..], b);
    }
  }

  lemma {:induction false} RunIsAfter(rules: Rules, items: seq<Item>, n: nat)
    requires n <= |items|
    ensures Run(rules, After(rules, items, n), items[n..]) == Run(rules, START, items)
    decreases n
  {
    if n == 0 {
      assert items[0..] == items;
    } else {
      RunIsAfter(rules, items, n - 1);
      assert items[n - 1..][1..] == items[n..];
    }
  }

  lemma {:induction false} TallyJoined(c: Category, a: seq<ClauseValue>, b: seq<ClauseValue>)
    ensures Tally(c, a + b) == Tally(Tally(c, a), b)
    decreases |a|
  {
    if a == [] {
      assert a + b == b;
    } else {
      assert (a + b)[1..] == a[1..] + b;
      TallyJoined(Counted(c, a[0].kind), a[1..], b);
    }
  }

  lemma TallyOne(c: Category, v: ClauseValue)
    ensures Tally(c, [v]) == Counted(c, v.kind)
  {
    assert [v][1..] == [];
  }

  /** Each amount becomes a value of its own and is counted. */
  method EmitEach(rules: Rules, common: ClauseValue, slab: Option<string>, window: Option<string>, sign: Option<int>,
      amounts: seq<string>, before: seq<ClauseValue>, counted: Category)
    returns (values: seq<ClauseValue>, category: Category)
    requires common.kind == Value
    ensures var vs := OneEach(rules, common, slab, window, sign, amounts);
      values == before + vs && category == Tally(counted, vs)
  {
    values, category := before, counted;
    ghost var all := OneEach(rules, common, slab, window, sign, amounts);
    for k := 0 to |amounts|
      invariant values + OneEach(rules, common, slab, window, sign, amounts[k..]) == before + all
      invariant Tally(category, OneEach(rules, common, slab, window, sign, amounts[k..])) == Tally(counted, all)
    {
      ghost var rest := OneEach(rules, common, slab, window, sign, amounts[k + 1..]);
      var v := common.(amount := Some(amounts[k]), slab := slab, window := window,
        sign := SignOf(rules, amounts[k], sign));
      assert amounts[k..][0] == amounts[k] && amounts[k..][1..] == amounts[k + 1..];
      Assoc(values, [v], rest);
      TallyJoined(category, [v], rest);
      TallyOne(category, v);
      values := values + [v];
      category := category.(values := category.values + 1);
    }
  }

  /** Under a two-column header, the first amount goes to the first column and the second to the second. */
  method EmitColumns(common: ClauseValue, slab: Option<string>, sign: Option<int>, headers: (string, string),
      amounts: seq<string>, before: seq<ClauseValue>, counted: Category)
    returns (values: seq<ClauseValue>, category: Category)
    requires |amounts| >= 2 && common.kind == Value
    ensures var vs := [common.(amount := Some(amounts[0]), header := Some(headers.0), slab := slab, sign := sign),
                       common.(amount := Some(amounts[1]), header := Some(headers.1), slab := slab, sign := sign)];
      values == before + vs && category == Tally(counted, vs)
  {
    values, category := before, counted;
    ghost var vs := [common.(amount := Some(amounts[0]), header := Some(headers.0), slab := slab, sign := sign),
                     common.(amount := Some(amounts[1]), header := Some(headers.1), slab := slab, sign := sign)];
    for k := 0 to 2
      invariant values == before + vs[..k] && category == counted.(values := counted.values + k)
    {
      var header := if k == 0 then headers.0 else headers.1;
      values := values + [common.(amount := Some(amounts[k]), header := Some(header), slab := slab, sign := sign)];
      category := category.(values := category.values + 1);
    }
    TallyJoined(counted, [vs[0]], [vs[1]]);
    TallyOne(counted, vs[0]);
    TallyOne(Tally(counted, [vs[0]]), vs[1]);
    assert vs == [vs[0]] + [vs[1]] == vs[..2];
  }

  /** The amounts of a line, by its role and the header above it. */
  method EmitAmounts(rules: Rules, s: State, item: Item, line: string)
    returns (values: seq<ClauseValue>, category: Category)
    requires s.categories != []
    ensures values == s.values + ValuesOf(rules, s, item, line)
    ensures category == Tally(s.categories[|s.categories| - 1], ValuesOf(rules, s, item, line))
  {
    var common := Common(rules, s, item, line);
    var (role, sign) := RoleOfLine(rules, s, line);
    var amounts, slab, window := rules.amounts(line), rules.slab(Body(rules, line)), rules.window(line);
    category := s.categories[|s.categories| - 1];
    if s.twoCol.Some? && |amounts| >= 2 {
      values, category := EmitColumns(common, slab, sign, s.twoCol.value, amounts, s.values, category);
    } else if IsRuleRole(role) && |amounts| > 1 {
      var v := common.(amount := Some(amounts[0]), window := window, sign := SignOf(rules, amounts[0], sign),
                       parameters := amounts[1..]);
      TallyOne(category, v);
      values, category := s.values + [v], category.(values := category.values + 1);
    } else {
      values, category := EmitEach(rules, common, slab, window, sign, amounts, s.values, category);
    }
  }

  /** The values of a line are appended one by one, each with its counter. */
  method EmitLine(rules: Rules, before: State, item: Item, line: string) returns (s: State)
    requires before.categories != []
    ensures s == Emit(rules, before, item, line)
  {
    var common, xref, n := Common(rules, before, item, line), rules.crossReference(Body(rules, line)),
      |before.categories|;
    var amounts, values, category := rules.amounts(line), before.values, before.categories[n - 1];
    if common.role == Condition {
      values := values + [common.(kind := ConditionClause, parameters := amounts)];
      category := category.(conditions := category.conditions + 1);
    } else if amounts == [] {
      values := values + [common.(kind := CrossReference, target := xref, slab := rules.slab(Body(rules, line)))];
      category := category.(crossReferences := category.crossReferences + 1);
    } else {
      values, category := EmitAmounts(rules, before, item, line);
      if xref.Some? {
        ghost var last := common.(connector := None, kind := CrossReference, target := xref);
        TallyJoined(before.categories[n - 1], ValuesOf(rules, before, item, line), [last]);
        TallyOne(category, last);
        Assoc(before.values, ValuesOf(rules, before, item, line), [last]);
        values := values + [common.(connector := None, kind := CrossReference, target := xref)];
        category := category.(crossReferences := category.crossReferences + 1);
      }
    }
    s := before.(values := values, categories := before.categories[n - 1 := category], pending := None);
    ghost var vs := Emitted(rules, before, item, line);
    if common.role == Condition || amounts == [] { TallyOne(before.categories[n - 1], vs[0]); }
    assert ValuesOf(rules, before, item, line) + [] == ValuesOf(rules, before, item, line);
  }

  /** The title takes its depth; those at its depth and below go, one by one. */
  method SetTitle(before: map<Depth, string>, depth: Depth, line: string) returns (titles: map<Depth, string>)
    ensures titles == (map k | k in before && k < depth :: before[k])[depth := line]
  {
    titles := before;
    for d := depth to 5
      invariant depth <= d <= 5 && titles == map k | k in before && (k < depth || k >= d) :: before[k]
    {
      titles := titles - {d};
    }
    titles := titles[depth := line];
  }

  /** One line, step by step on the running state. */
  method ReadLine(rules: Rules, before: State, item: Item) returns (s: State)
    ensures s == Step(rules, before, item)
  {
    s := before;
    var line := Text.Strip(item.raw);
    if line == "" {
      return;
    }
    var code := rules.category(line);
    if code.Some? {
      s := s.(categories := s.categories + [Category(code.value, line, item.page, item.line, 0, 0, 0, 0)]);
      s := s.(heading := line, titles := map[], applicability := None, alternative := 0, pending := None,
        twoCol := None);
      return;
    }
    var c := rules.connector(line);
    if c.Some? {
      if c.value == Plus {
        s := s.(pending := Some(Plus));
      } else {
        var n := |s.categories|;
        s := s.(alternative := s.alternative + 1, altDepth := Deepest(s.titles));
        if n > 0 {
          s := s.(categories := s.categories[n - 1 := s.categories[n - 1].(alternatives := s.alternative + 1)]);
        }
        s := s.(pending := Some(Alternatively));
      }
      return;
    }
    if IsTitle(rules, s, line) {
      var depth := rules.subclause(line).value.depth;
      if depth < s.altDepth { s := s.(alternative := 0); }
      var titles := SetTitle(s.titles, depth, line);
      s := s.(titles := titles, applicability := None, twoCol := None);
      if rules.amounts(rules.subclause(line).value.title) == [] {
        return;
      }
    }
    if rules.twoColumns(line).Some? && rules.amounts(line) == [] {
      s := s.(twoCol := rules.twoColumns(line));
      return;
    }
    if !Speaks(rules, line) {
      if rules.lettered(line).Some? && s.categories != [] { s := s.(applicability := Some(line)); }
      return;
    }
    if s.categories == [] {
      s := s.(unresolved := s.unresolved + [Unresolved(item.page, item.line, Shortened(line))]);
      return;
    }
    s := EmitLine(rules, s, item, line);
  }

  /** Pages in order, lines in order; the state carries across page breaks. */
  method Reconstruct(rules: Rules, pages: seq<(int, seq<string>)>) returns (s: State)
    ensures s == After(rules, Flat(pages, 0), |Flat(pages, 0)|)
  {
    s := START;
    for p := 0 to |pages|
      invariant Run(rules, s, Flat(pages, p)) == Run(rules, START, Flat(pages, 0))
    {
      var (page, lines) := pages[p];
      RunJoined(rules, s, ItemsOf(page, lines, 0), Flat(pages, p + 1));
      ghost var goal := Run(rules, s, ItemsOf(page, lines, 0));
      for i := 0 to |lines|
        invariant Run(rules, s, ItemsOf(page, lines, i)) == goal
      {
        s := ReadLine(rules, s, Item(page, i + 1, lines[i]));
      }
    }
    ghost var items := Flat(pages, 0);
    RunIsAfter(rules, items, |items|);
  }
}
