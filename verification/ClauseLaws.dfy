/** What the clause machine keeps: paths, connectors, amounts, counts, and independence of page breaks. */
module ClauseLaws {
  import opened Basics
  import opened ClauseOutline
  import Text

  function LineAt(items: seq<Item>, n: nat): string
    requires n < |items|
  {
    Text.Strip(items[n].raw)
  }

  predicate IsHeading(rules: Rules, line: string) { line != "" && rules.category(line).Some? }

  predicate IsConnector(rules: Rules, line: string)
  {
    line != "" && rules.category(line).None? && rules.connector(line).Some?
  }

  /** The line is neither blank nor heading nor connector. */
  predicate IsText(rules: Rules, line: string)
  {
    line != "" && rules.category(line).None? && rules.connector(line).None?
  }

  // ------------------------------------------------------------------ paths

  /** The titles seen since the latest category heading, with their depths. */
  function TitlesSince(rules: Rules, items: seq<Item>, n: nat): seq<(Depth, string)>
    requires n <= |items|
  {
    if n == 0 then []
    else NextTitles(rules, After(rules, items, n - 1), LineAt(items, n - 1), TitlesSince(rules, items, n - 1))
  }

  function NextTitles(rules: Rules, s: State, line: string, before: seq<(Depth, string)>): seq<(Depth, string)> {
    if IsHeading(rules, line) then []
    else if IsText(rules, line) && IsTitle(rules, s, line) then before + [(rules.subclause(line).value.depth, line)]
    else before
  }

  predicate AllDeeper(ts: seq<(Depth, string)>, d: Depth) { ts == [] || (ts[0].0 > d && AllDeeper(ts[1..], d)) }

  /** The titles that no later title is as shallow as: the strict depth minima from the right. */
  function Minima(ts: seq<(Depth, string)>): seq<(Depth, string)> {
    if ts == [] then [] else (if AllDeeper(ts[1..], ts[0].0) then [ts[0]] else []) + Minima(ts[1..])
  }

  function Texts(ts: seq<(Depth, string)>): seq<string> { if ts == [] then [] else [ts[0].1] + Texts(ts[1..]) }

  function Shallower(ts: seq<(Depth, string)>, d: Depth): seq<(Depth, string)> {
    if ts == [] then [] else (if ts[0].0 < d then [ts[0]] else []) + Shallower(ts[1..], d)
  }

  lemma {:induction false} DeeperAppend(ts: seq<(Depth, string)>, t: (Depth, string), d: Depth)
    ensures AllDeeper(ts + [t], d) <==> AllDeeper(ts, d) && t.0 > d
  {
    if ts == [] {
      assert ts + [t] == [t];
    } else {
      DeeperAppend(ts[1..], t, d);
      assert (ts + [t])[1..] == ts[1..] + [t];
    }
  }

  lemma {:induction false} ShallowerCons(t: (Depth, string), ts: seq<(Depth, string)>, d: Depth)
    ensures Shallower([t] + ts, d) == (if t.0 < d then [t] else []) + Shallower(ts, d)
  {
    assert ([t] + ts)[1..] == ts;
  }

  lemma {:induction false} MinimaAppend(ts: seq<(Depth, string)>, t: (Depth, string))
    ensures Minima(ts + [t]) == Shallower(Minima(ts), t.0) + [t]
  {
    if ts == [] {
      assert ts + [t] == [t];
      assert [t][1..] == [];
    } else {
      var rest := Minima(ts[1..]);
      MinimaAppend(ts[1..], t);
      DeeperAppend(ts[1..], t, ts[0].0);
      assert (ts + [t])[1..] == ts[1..] + [t];
      if AllDeeper(ts[1..], ts[0].0) {
        ShallowerCons(ts[0], rest, t.0);
        assert Minima(ts) == [ts[0]] + rest;
      } else {
        assert Minima(ts) == rest;
      }
    }
  }

  /** The titles held, from depth k on, with their depths. */
  function Held(titles: map<Depth, string>, k: nat): seq<(Depth, string)>
    requires 2 <= k <= 5
    decreases 5 - k
  {
    if k == 5 then [] else (if k in titles then [(k, titles[k])] else []) + Held(titles, k + 1)
  }

  lemma {:induction false} HeldTexts(titles: map<Depth, string>, k: nat)
    requires 2 <= k <= 5
    ensures Texts(Held(titles, k)) == Ordered(titles, k)
    decreases 5 - k
  {
    if k < 5 {
      HeldTexts(titles, k + 1);
      var rest := Held(titles, k + 1);
      if k in titles { assert ([(k, titles[k])] + rest)[1..] == rest; } else { assert [] + rest == rest; }
    }
  }

  function Trimmed(m: map<Depth, string>, d: Depth, line: string): map<Depth, string> {
    (map j | j in m && j < d :: m[j])[d := line]
  }

  lemma {:induction false} HeldAfter(m: map<Depth, string>, d: Depth, line: string, k: nat)
    requires 2 <= k <= 5
    ensures k <= d ==> Held(Trimmed(m, d, line), k) == Shallower(Held(m, k), d) + [(d, line)]
    ensures k > d ==> Held(Trimmed(m, d, line), k) == [] == Shallower(Held(m, k), d)
    decreases 5 - k
  {
    if k < 5 {
      HeldAfter(m, d, line, k + 1);
      TrimmedAt(m, d, line, k);
      HeldHead(m, k, d);
      if k < d && k in m { Assoc([(k, m[k])], Shallower(Held(m, k + 1), d), [(d, line)]); }
    }
  }

  lemma HeldHead(m: map<Depth, string>, k: nat, d: Depth)
    requires 2 <= k <= 4
    ensures Shallower(Held(m, k), d) == (if k in m && k < d then [(k, m[k])] else []) + Shallower(Held(m, k + 1), d)
  {
    var rest := Held(m, k + 1);
    if k in m { ShallowerCons((k, m[k]), rest, d); } else { assert [] + rest == rest; }
  }

  lemma TrimmedAt(m: map<Depth, string>, d: Depth, line: string, k: Depth)
    ensures k in Trimmed(m, d, line) <==> (k == d || (k < d && k in m))
    ensures k in Trimmed(m, d, line) ==> Trimmed(m, d, line)[k] == if k == d then line else m[k]
  {
  }

  lemma HeldStep(rules: Rules, s: State, item: Item, ts: seq<(Depth, string)>)
    requires Held(s.titles, 2) == Minima(ts)
    ensures Held(Step(rules, s, item).titles, 2) == Minima(NextTitles(rules, s, Text.Strip(item.raw), ts))
  {
    var line := Text.Strip(item.raw);
    if IsText(rules, line) && IsTitle(rules, s, line) {
      var d := rules.subclause(line).value.depth;
      MinimaAppend(ts, (d, line));
      HeldAfter(s.titles, d, line, 2);
      assert AddTitle(rules, s, line).titles == Trimmed(s.titles, d, line);
      TitleStays(rules, s, item, line);
    } else {
      OtherStays(rules, s, item, line);
    }
  }

  lemma TitleStays(rules: Rules, s: State, item: Item, line: string)
    requires line == Text.Strip(item.raw) && IsText(rules, line) && IsTitle(rules, s, line)
    ensures Step(rules, s, item).titles == AddTitle(rules, s, line).titles
  {
  }

  lemma OtherStays(rules: Rules, s: State, item: Item, line: string)
    requires line == Text.Strip(item.raw) && !(IsText(rules, line) && IsTitle(rules, s, line))
    ensures Step(rules, s, item).titles == if IsHeading(rules, line) then map[] else s.titles
  {
  }

  lemma {:induction false} HeldAreMinima(rules: Rules, items: seq<Item>, n: nat)
    requires n <= |items|
    ensures Held(After(rules, items, n).titles, 2) == Minima(TitlesSince(rules, items, n))
  {
    if n > 0 {
      HeldAreMinima(rules, items, n - 1);
      HeldStep(rules, After(rules, items, n - 1), items[n - 1], TitlesSince(rules, items, n - 1));
    }
  }

  /** At any point, the path is the category heading followed by the strict depth minima, from the
      right, of the titles since it. */
  lemma PathIsMinima(rules: Rules, items: seq<Item>, n: nat)
    requires n <= |items|
    ensures var s := After(rules, items, n); PathOf(s) == [s.heading] + Texts(Minima(TitlesSince(rules, items, n)))
  {
    HeldAreMinima(rules, items, n);
    HeldTexts(After(rules, items, n).titles, 2);
  }

  /** The latest category heading among the first n lines. */
  function HeadingAt(rules: Rules, items: seq<Item>, n: nat): string
    requires n <= |items|
  {
    if n == 0 then "" else if IsHeading(rules, LineAt(items, n - 1)) then LineAt(items, n - 1)
      else HeadingAt(rules, items, n - 1)
  }

  /** A lettered line that says nothing by itself: it scopes what follows. */
  predicate Scopes(rules: Rules, s: State, line: string) {
    && IsText(rules, line) && !IsPureTitle(rules, s, line)
      && !(rules.twoColumns(line).Some? && rules.amounts(line) == [])
    && !Speaks(rules, line) && rules.lettered(line).Some? && s.categories != []
  }

  /** The latest scoping line among the first n, unless a heading or a title came after it. */
  function ScopeAt(rules: Rules, items: seq<Item>, n: nat): Option<string>
    requires n <= |items|
  {
    if n == 0 then None
    else
      var line, s := LineAt(items, n - 1), After(rules, items, n - 1);
      if Scopes(rules, s, line) then Some(line)
      else if IsHeading(rules, line) || (IsText(rules, line) && IsTitle(rules, s, line)) then None
      else ScopeAt(rules, items, n - 1)
  }

  lemma ScopeStep(rules: Rules, s: State, item: Item)
    ensures var line := Text.Strip(item.raw);
      Step(rules, s, item).applicability ==
        if Scopes(rules, s, line) then Some(line)
        else if IsHeading(rules, line) || (IsText(rules, line) && IsTitle(rules, s, line)) then None
        else s.applicability
  {
  }

  lemma HeadingStep(rules: Rules, s: State, item: Item)
    ensures var line := Text.Strip(item.raw); Step(rules, s, item).heading == if IsHeading(rules, line) then line
      else s.heading
  {
  }

  lemma {:induction false} ContextAt(rules: Rules, items: seq<Item>, n: nat)
    requires n <= |items|
    ensures After(rules, items, n).heading == HeadingAt(rules, items, n)
    ensures After(rules, items, n).applicability == ScopeAt(rules, items, n)
  {
    if n > 0 {
      ContextAt(rules, items, n - 1);
      HeadingStep(rules, After(rules, items, n - 1), items[n - 1]);
      ScopeStep(rules, After(rules, items, n - 1), items[n - 1]);
    }
  }

  /** The path that a value on line m has: the latest heading and the minima of the titles up to that line; then, if
      the line is none of these titles, the line that scopes it, unless it is lettered itself, and the line. */
  function PathAt(rules: Rules, items: seq<Item>, m: nat): seq<string>
    requires m < |items|
  {
    var line, titles := LineAt(items, m), Texts(Minima(TitlesSince(rules, items, m + 1)));
    var scope := if IsTitle(rules, After(rules, items, m), line) then None else ScopeAt(rules, items, m);
    [HeadingAt(rules, items, m)] + titles
    + if line in titles then []
      else (if scope.Some? && rules.lettered(line).None? then [scope.value] else []) + [line]
  }

  lemma {:induction false} OrderedHas(titles: map<Depth, string>, k: nat, line: string)
    requires 2 <= k <= 5
    ensures line in Ordered(titles, k) <==> exists d: Depth :: k <= d && d in titles && titles[d] == line
    decreases 5 - k
  {
    if k < 5 { OrderedHas(titles, k + 1, line); }
  }

  lemma {:induction false} OneEachPaths(rules: Rules, common: ClauseValue, slab: Option<string>, window: Option<string>,
      sign: Option<int>, amounts: seq<string>, v: ClauseValue)
    requires v in OneEach(rules, common, slab, window, sign, amounts)
    ensures v.path == common.path && v.page == common.page && v.line == common.line && v.text == common.text
  {
    var head := common.(amount := Some(amounts[0]), slab := slab, window := window,
      sign := SignOf(rules, amounts[0], sign));
    if v != head { OneEachPaths(rules, common, slab, window, sign, amounts[1..], v); }
  }

  lemma EmittedPaths(rules: Rules, s: State, item: Item, line: string, v: ClauseValue)
    requires s.categories != [] && v in Emitted(rules, s, item, line)
    ensures v.path == ItemPath(rules, s, line) && v.page == item.page && v.line == item.line && v.text == line
  {
    var common := Common(rules, s, item, line);
    var slab, sign := rules.slab(Body(rules, line)), RoleOfLine(rules, s, line).1;
    if v in OneEach(rules, common, slab, rules.window(line), sign, rules.amounts(line)) {
      OneEachPaths(rules, common, slab, rules.window(line), sign, rules.amounts(line), v);
    }
  }

  /** The state in which a giving line is read has that line's path. */
  lemma ReadyPath(rules: Rules, items: seq<Item>, m: nat)
    requires m < |items| && Emits(rules, items, m)
    ensures ItemPath(rules, Ready(rules, After(rules, items, m), LineAt(items, m)), LineAt(items, m))
      == PathAt(rules, items, m)
  {
    var s, line := After(rules, items, m), LineAt(items, m);
    var ready := Ready(rules, s, line);
    HeldAreMinima(rules, items, m + 1);
    if IsTitle(rules, s, line) { TitleStays(rules, s, items[m], line); } else { OtherStays(rules, s, items[m], line); }
    HeldTexts(ready.titles, 2);
    OrderedHas(ready.titles, 2, line);
    ContextAt(rules, items, m);
    PathJoined(rules, ready, line, Ordered(ready.titles, 2));
  }

  lemma PathJoined(rules: Rules, s: State, line: string, titles: seq<string>)
    requires titles == Ordered(s.titles, 2) && (line in s.titles.Values <==> line in titles)
    ensures ItemPath(rules, s, line) == [s.heading] + titles
      + if line in titles then []
        else (if s.applicability.Some? && rules.lettered(line).None? then [s.applicability.value] else []) + [line]
  {
  }

  /** Every value stems from a line that gives values; it cites that line's place and text, and its path is the
      heading, the titles that still hold and, if it is none of them, the scope and the line itself. */
  lemma {:induction false} ValuePath(rules: Rules, items: seq<Item>, n: nat, v: ClauseValue) returns (m: nat)
    requires n <= |items| && v in After(rules, items, n).values
    ensures m < n && Emits(rules, items, m) && v in Given(rules, items, m) && v.path == PathAt(rules, items, m)
    ensures v.page == items[m].page && v.line == items[m].line && v.text == LineAt(items, m)
  {
    StepGives(rules, items, n - 1);
    if v in After(rules, items, n - 1).values {
      m := ValuePath(rules, items, n - 1, v);
    } else {
      m := n - 1;
      EmittedPaths(rules, Ready(rules, After(rules, items, m), LineAt(items, m)), items[m], LineAt(items, m), v);
      ReadyPath(rules, items, m);
    }
  }

  // ------------------------------------------------------------------ connectors

  /** The state in which the content of a line is read. */
  function Ready(rules: Rules, s: State, line: string): State {
    if IsText(rules, line) && IsTitle(rules, s, line) then AddTitle(rules, s, line) else s
  }

  /** The line gives values. */
  predicate Gives(rules: Rules, s: State, line: string) {
    && IsText(rules, line) && !IsPureTitle(rules, s, line) && s.categories != []
    && !(rules.twoColumns(line).Some? && rules.amounts(line) == []) && Speaks(rules, line)
  }

  /** The values that a line gives. */
  function GivenBy(rules: Rules, s: State, item: Item): seq<ClauseValue> {
    var line := Text.Strip(item.raw);
    if Gives(rules, s, line) then Emitted(rules, Ready(rules, s, line), item, line) else []
  }

  predicate Emits(rules: Rules, items: seq<Item>, n: nat)
    requires n < |items|
  {
    Gives(rules, After(rules, items, n), LineAt(items, n))
  }

  function Given(rules: Rules, items: seq<Item>, n: nat): seq<ClauseValue>
    requires n < |items|
  {
    GivenBy(rules, After(rules, items, n), items[n])
  }

  lemma StepGives(rules: Rules, items: seq<Item>, n: nat)
    requires n < |items|
    ensures After(rules, items, n + 1).values == After(rules, items, n).values + Given(rules, items, n)
    ensures Emits(rules, items, n) ==> After(rules, items, n + 1).pending == None
  {
  }

  /** Line n neither joins, nor opens a category, nor gives a value. */
  predicate Quiet(rules: Rules, items: seq<Item>, n: nat)
    requires n < |items|
  {
    !IsHeading(rules, LineAt(items, n)) && !IsConnector(rules, LineAt(items, n)) && !Emits(rules, items, n)
  }

  predicate QuietFrom(rules: Rules, items: seq<Item>, a: nat, b: nat)
    requires b <= |items|
    decreases b - a
  {
    a >= b || (Quiet(rules, items, a) && QuietFrom(rules, items, a + 1, b))
  }

  lemma QuietStep(rules: Rules, items: seq<Item>, n: nat)
    requires n < |items| && Quiet(rules, items, n)
    ensures After(rules, items, n + 1).pending == After(rules, items, n).pending
  {
  }

  lemma {:induction false} PendingStays(rules: Rules, items: seq<Item>, a: nat, b: nat)
    requires a <= b <= |items| && QuietFrom(rules, items, a, b)
    ensures After(rules, items, b).pending == After(rules, items, a).pending
    decreases b - a
  {
    if a < b {
      QuietStep(rules, items, a);
      PendingStays(rules, items, a + 1, b);
    }
  }

  /** All values carry the connector, except a cross-reference that follows amounts on its line. */
  predicate Carry(vs: seq<ClauseValue>, c: Option<Connector>) {
    vs == [] || ((vs[0].connector == c || (vs[0].kind == CrossReference && vs[0].connector == None))
      && Carry(vs[1..], c))
  }

  lemma {:induction false} OneEachCarry(rules: Rules, common: ClauseValue, slab: Option<string>, window: Option<string>,
      sign: Option<int>, amounts: seq<string>)
    ensures Carry(OneEach(rules, common, slab, window, sign, amounts), common.connector)
  {
    if amounts != [] { OneEachCarry(rules, common, slab, window, sign, amounts[1..]); }
  }

  lemma {:induction false} CarryJoined(a: seq<ClauseValue>, b: seq<ClauseValue>, c: Option<Connector>)
    requires Carry(a, c) && Carry(b, c)
    ensures Carry(a + b, c)
  {
    if a == [] {
      assert a + b == b;
    } else {
      CarryJoined(a[1..], b, c);
      assert (a + b)[1..] == a[1..] + b;
    }
  }

  lemma EmittedCarry(rules: Rules, s: State, item: Item, line: string)
    requires s.categories != []
    ensures Carry(Emitted(rules, s, item, line), s.pending)
    ensures Speaks(rules, line) ==>
      Emitted(rules, s, item, line) != [] && Emitted(rules, s, item, line)[0].connector == s.pending
  {
    var common := Common(rules, s, item, line);
    if common.role != Condition && rules.amounts(line) != [] {
      var xref := rules.crossReference(Body(rules, line));
      var more := if xref.Some? then [common.(connector := None, kind := CrossReference, target := xref)] else [];
      OneEachCarry(rules, common, rules.slab(Body(rules, line)), rules.window(line), RoleOfLine(rules, s, line).1,
        rules.amounts(line));
      CarryJoined(ValuesOf(rules, s, item, line), more, s.pending);
    }
  }

  lemma ConnectorSets(rules: Rules, items: seq<Item>, c: nat)
    requires c < |items| && IsConnector(rules, LineAt(items, c))
    ensures After(rules, items, c + 1).pending == rules.connector(LineAt(items, c))
  {
  }

  lemma HeadingClears(rules: Rules, items: seq<Item>, n: nat)
    requires n < |items| && IsHeading(rules, LineAt(items, n))
    ensures After(rules, items, n + 1).pending == None
  {
  }

  lemma GivenCarry(rules: Rules, items: seq<Item>, n: nat, pending: Option<Connector>)
    requires n < |items| && Emits(rules, items, n) && After(rules, items, n).pending == pending
    ensures Carry(Given(rules, items, n), pending)
    ensures Given(rules, items, n) != [] && Given(rules, items, n)[0].connector == pending
  {
    EmittedCarry(rules, Ready(rules, After(rules, items, n), LineAt(items, n)), items[n], LineAt(items, n));
  }

  /** A connector attaches to the next line that gives a value, if no heading or other connector is
      between them ... */
  lemma ConnectorReachesNext(rules: Rules, items: seq<Item>, c: nat, n: nat)
    requires c < n < |items| && IsConnector(rules, LineAt(items, c))
    requires QuietFrom(rules, items, c + 1, n) && Emits(rules, items, n)
    ensures Carry(Given(rules, items, n), rules.connector(LineAt(items, c)))
    ensures Given(rules, items, n) != [] && Given(rules, items, n)[0].connector == rules.connector(LineAt(items, c))
  {
    ConnectorSets(rules, items, c);
    PendingStays(rules, items, c + 1, n);
    GivenCarry(rules, items, n, rules.connector(LineAt(items, c)));
  }

  /** ... and to no line after that: without a new connector, the next line that gives a value has none. */
  lemma ConnectorIsSpent(rules: Rules, items: seq<Item>, n: nat, m: nat)
    requires n < m < |items| && (Emits(rules, items, n) || IsHeading(rules, LineAt(items, n)))
    requires QuietFrom(rules, items, n + 1, m) && Emits(rules, items, m)
    ensures Carry(Given(rules, items, m), None)
  {
    if Emits(rules, items, n) { StepGives(rules, items, n); } else { HeadingClears(rules, items, n); }
    PendingStays(rules, items, n + 1, m);
    GivenCarry(rules, items, m, None);
  }

  // ------------------------------------------------------------------ amounts

  /** The amounts that values hold, as their own or as parameters. */
  function Spent(vs: seq<ClauseValue>): seq<string> {
    if vs == [] then []
    else (if vs[0].amount.Some? then [vs[0].amount.value] else []) + vs[0].parameters + Spent(vs[1..])
  }

  lemma {:induction false} SpentJoined(a: seq<ClauseValue>, b: seq<ClauseValue>)
    ensures Spent(a + b) == Spent(a) + Spent(b)
  {
    if a == [] {
      assert a + b == b;
    } else {
      SpentJoined(a[1..], b);
      assert (a + b)[1..] == a[1..] + b;
      Assoc((if a[0].amount.Some? then [a[0].amount.value] else []) + a[0].parameters, Spent(a[1..]), Spent(b));
    }
  }

  lemma {:induction false} SpentOneEach(rules: Rules, common: ClauseValue, slab: Option<string>, window: Option<string>,
      sign: Option<int>, amounts: seq<string>)
    requires common.parameters == []
    ensures Spent(OneEach(rules, common, slab, window, sign, amounts)) == amounts
  {
    if amounts != [] {
      SpentOneEach(rules, common, slab, window, sign, amounts[1..]);
      assert OneEach(rules, common, slab, window, sign, amounts)[1..]
        == OneEach(rules, common, slab, window, sign, amounts[1..]);
      assert [amounts[0]] + [] + amounts[1..] == amounts;
    }
  }

  /** A line of a two-column table with a third amount. */
  predicate ThirdAmount(rules: Rules, s: State, line: string) {
    s.twoCol.Some? && |rules.amounts(line)| > 2 && RoleOfLine(rules, s, line).0 != Condition
  }

  lemma SpentValues(rules: Rules, s: State, item: Item, line: string)
    requires s.categories != [] && RoleOfLine(rules, s, line).0 != Condition
    ensures var amounts := rules.amounts(line);
      Spent(ValuesOf(rules, s, item, line)) == if ThirdAmount(rules, s, line) then amounts[..2] else amounts
  {
    var common, amounts := Common(rules, s, item, line), rules.amounts(line);
    SpentOneEach(rules, common, rules.slab(Body(rules, line)), rules.window(line), RoleOfLine(rules, s, line).1,
      amounts);
    if s.twoCol.Some? && |amounts| >= 2 {
      var vs := ValuesOf(rules, s, item, line);
      SpentPair(vs[0], vs[1]);
      assert vs == [vs[0], vs[1]] && amounts[..2] == [amounts[0], amounts[1]];
    } else if IsRuleRole(RoleOfLine(rules, s, line).0) && |amounts| > 1 {
      var vs := ValuesOf(rules, s, item, line);
      SpentSingle(vs[0]);
      assert vs == [vs[0]] && [amounts[0]] + amounts[1..] == amounts;
    }
  }

  lemma SpentSingle(v: ClauseValue)
    ensures Spent([v]) == (if v.amount.Some? then [v.amount.value] else []) + v.parameters
  {
    assert [v][1..] == [];
  }

  lemma SpentPair(v: ClauseValue, w: ClauseValue)
    requires v.amount.Some? && w.amount.Some? && v.parameters == w.parameters == []
    ensures Spent([v, w]) == [v.amount.value, w.amount.value]
  {
    assert [v, w][1..] == [w];
    SpentSingle(w);
  }

  lemma SpentEmitted(rules: Rules, s: State, item: Item, line: string)
    requires s.categories != []
    ensures var amounts := rules.amounts(line);
      Spent(Emitted(rules, s, item, line)) == if ThirdAmount(rules, s, line) then amounts[..2] else amounts
  {
    var common, vs := Common(rules, s, item, line), Emitted(rules, s, item, line);
    if common.role == Condition || rules.amounts(line) == [] {
      SpentSingle(vs[0]);
      assert vs == [vs[0]];
    } else {
      var xref := rules.crossReference(Body(rules, line));
      SpentValues(rules, s, item, line);
      if xref.Some? {
        var last := common.(connector := None, kind := CrossReference, target := xref);
        SpentJoined(ValuesOf(rules, s, item, line), [last]);
        SpentSingle(last);
      } else {
        assert vs == ValuesOf(rules, s, item, line);
      }
    }
  }

  /** A line after a category heading drops an amount: it is itself a heading, a connector or a pure
      title that an amount pattern matches, or has a third amount under a two-column header. */
  predicate Drops(rules: Rules, s: State, line: string) {
    line != "" && rules.amounts(line) != [] &&
    (!IsText(rules, line) || IsPureTitle(rules, s, line) || ThirdAmount(rules, Ready(rules, s, line), line))
  }

  /** A line in the ledger: what its values hold, what is printed on it, and whether it drops an amount. */
  datatype Entry = Entry(held: seq<string>, printed: seq<string>, drops: bool)

  function EntryOf(rules: Rules, s: State, item: Item): Entry {
    var line := Text.Strip(item.raw);
    Entry(Spent(GivenBy(rules, s, item)), if line == "" then [] else rules.amounts(line), Drops(rules, s, line))
  }

  /** The entries of a run of lines. */
  function Ledger(rules: Rules, s: State, items: seq<Item>): seq<Entry>
    decreases |items|
  {
    if items == [] then [] else [EntryOf(rules, s, items[0])] + Ledger(rules, Step(rules, s, items[0]), items[1..])
  }

  function HeldOf(es: seq<Entry>): seq<string> { if es == [] then [] else es[0].held + HeldOf(es[1..]) }

  function PrintedOf(es: seq<Entry>): seq<string> { if es == [] then [] else es[0].printed + PrintedOf(es[1..]) }

  predicate NoneDrops(es: seq<Entry>) { es == [] || (!es[0].drops && NoneDrops(es[1..])) }

  predicate FairEntry(e: Entry) { if e.drops then |e.held| < |e.printed| else e.held == e.printed }

  predicate Fair(es: seq<Entry>) { es == [] || (FairEntry(es[0]) && Fair(es[1..])) }

  /** Everything printed is held, in order, exactly when no line drops an amount. */
  lemma {:induction false} Balance(es: seq<Entry>)
    requires Fair(es)
    ensures HeldOf(es) == PrintedOf(es) <==> NoneDrops(es)
    ensures |HeldOf(es)| <= |PrintedOf(es)| && (|HeldOf(es)| == |PrintedOf(es)| <==> NoneDrops(es))
  {
    if es != [] { Balance(es[1..]); }
  }

  lemma EntryIsFair(rules: Rules, s: State, item: Item)
    requires s.categories != []
    ensures FairEntry(EntryOf(rules, s, item))
  {
    var line := Text.Strip(item.raw);
    if Gives(rules, s, line) { SpentEmitted(rules, Ready(rules, s, line), item, line); }
  }

  lemma StepAdds(rules: Rules, s: State, item: Item)
    ensures Step(rules, s, item).values == s.values + GivenBy(rules, s, item)
    ensures s.categories != [] ==> Step(rules, s, item).categories != []
  {
  }

  lemma StepHolds(rules: Rules, s: State, item: Item, next: State)
    requires next.values == s.values + GivenBy(rules, s, item)
    ensures Spent(next.values) == Spent(s.values) + EntryOf(rules, s, item).held
  {
    SpentJoined(s.values, GivenBy(rules, s, item));
  }

  lemma LedgerCons(e: Entry, es: seq<Entry>, start: seq<string>, mid: seq<string>, last: seq<string>)
    requires mid == start + e.held && last == mid + HeldOf(es) && FairEntry(e) && Fair(es)
    ensures last == start + HeldOf([e] + es) && Fair([e] + es)
  {
    assert ([e] + es)[1..] == es;
    Assoc(start, e.held, HeldOf(es));
  }

  /** From a point where a category is open, the values come to hold what the ledger says. */
  lemma {:induction false} LedgerHolds(rules: Rules, s: State, items: seq<Item>)
    requires s.categories != []
    ensures Spent(Run(rules, s, items).values) == Spent(s.values) + HeldOf(Ledger(rules, s, items))
    ensures Fair(Ledger(rules, s, items))
    decreases |items|
  {
    if items == [] {
      assert Spent(s.values) + [] == Spent(s.values);
    } else {
      var next, rest := Step(rules, s, items[0]), items[1..];
      StepAdds(rules, s, items[0]);
      StepHolds(rules, s, items[0], next);
      EntryIsFair(rules, s, items[0]);
      LedgerHolds(rules, next, rest);
      LedgerCons(EntryOf(rules, s, items[0]), Ledger(rules, next, rest), Spent(s.values), Spent(next.values),
                 Spent(Run(rules, next, rest).values));
    }
  }

  /** From a point where a category is open, the amounts held by the values grow by exactly the
      amounts printed, in order, if and only if no line drops one. */
  lemma AmountsConserved(rules: Rules, s: State, items: seq<Item>)
    requires s.categories != []
    ensures var es := Ledger(rules, s, items);
      && Spent(Run(rules, s, items).values) == Spent(s.values) + HeldOf(es)
      && (HeldOf(es) == PrintedOf(es) <==> NoneDrops(es))
      && |HeldOf(es)| <= |PrintedOf(es)| && (|HeldOf(es)| == |PrintedOf(es)| <==> NoneDrops(es))
  {
    LedgerHolds(rules, s, items);
    Balance(Ledger(rules, s, items));
  }

  lemma StripLetter(c: char)
    requires !Text.IsSpace(c)
    ensures Text.Strip([c]) == [c]
  {
  }

  lemma ThirdSpends(rules: Rules, s: State, item: Item)
    requires s.categories != [] && s.twoCol.Some? && rules.amounts("V") == ["1", "2", "3"]
      && forall t :: rules.roleOf(t) == None
    ensures ThirdAmount(rules, s, "V") && Spent(Emitted(rules, s, item, "V")) == ["1", "2"]
  {
    NoRoles(rules, Others(ItemPath(rules, s, "V"), "V"));
    NoRoles(rules, ItemPath(rules, s, "V"));
    SpentEmitted(rules, s, item, "V");
    assert ["1", "2", "3"][..2] == ["1", "2"];
  }

  lemma {:induction false} NoRoles(rules: Rules, titles: seq<string>)
    requires forall t :: rules.roleOf(t) == None
    ensures RoleFor(rules, titles) == (Other, None)
    decreases |titles|
  {
    if titles != [] { NoRoles(rules, titles[..|titles| - 1]); }
  }

  const HEADING := Item(1, 1, "C")
  const HEADER := Item(1, 2, "H")
  const AMOUNTS := Item(1, 3, "V")

  /** The first line opens a category, the second is a two-column header. */
  lemma UnderHeader(rules: Rules, items: seq<Item>)
    requires items == [HEADING, HEADER, AMOUNTS]
    requires rules.category("C").Some? && rules.category("H").None? && rules.connector("H").None?
    requires rules.subclause("H").None? && rules.twoColumns("H").Some? && rules.amounts("H") == []
    ensures var s := After(rules, items, 2); s.categories != [] && s.twoCol.Some? && s.values == []
  {
    StripLetter('C');
    StripLetter('H');
    assert After(rules, items, 0) == START;
    assert After(rules, items, 1) == NewCategory(rules, START, HEADING, "C");
  }

  /** Three lines, a heading, a two-column header and a line with three amounts: the third amount is lost. */
  lemma ThirdAmountIsLost() returns (rules: Rules, items: seq<Item>)
    ensures |items| == 3 && rules.amounts(LineAt(items, 2)) == ["1", "2", "3"]
    ensures Drops(rules, After(rules, items, 2), LineAt(items, 2))
    ensures Spent(After(rules, items, 2).values) == [] && Spent(After(rules, items, 3).values) == ["1", "2"]
  {
    rules := Rules(
      l => if l == "C" then Some("C") else None, l => None, l => None, l => l,
      l => if l == "V" then ["1", "2", "3"] else [],
      l => if l == "H" then Some(("a", "b")) else None,
      l => None, l => None, l => None, l => None, l => None, l => None);
    items := [HEADING, HEADER, AMOUNTS];
    StripLetter('V');
    UnderHeader(rules, items);
    ThirdLost(rules, After(rules, items, 2));
  }

  lemma ThirdLost(rules: Rules, s: State)
    requires s.categories != [] && s.twoCol.Some? && s.values == [] && rules.category("V").None?
      && rules.connector("V").None?
    requires rules.subclause("V").None? && rules.twoColumns("V").None? && rules.amounts("V") == ["1", "2", "3"]
    requires forall t :: rules.roleOf(t) == None
    ensures Drops(rules, s, "V") && Spent(Step(rules, s, AMOUNTS).values) == ["1", "2"]
  {
    StripLetter('V');
    ThirdSpends(rules, s, AMOUNTS);
    StepAdds(rules, s, AMOUNTS);
    StepHolds(rules, s, AMOUNTS, Step(rules, s, AMOUNTS));
    assert [] + ["1", "2"] == ["1", "2"];
  }

  // ------------------------------------------------------------------ counts

  function CountOf(c: Category, k: Kind): nat {
    match k
    case Value => c.values
    case CrossReference => c.crossReferences
    case ConditionClause => c.conditions
  }

  function Total(cs: seq<Category>, k: Kind): nat
  {
    if cs == [] then 0 else Total(cs[..|cs| - 1], k) + CountOf(cs[|cs| - 1], k)
  }

  function HowMany(vs: seq<ClauseValue>, k: Kind): nat {
    if vs == [] then 0 else (if vs[0].kind == k then 1 else 0) + HowMany(vs[1..], k)
  }

  lemma {:induction false} HowManyJoined(a: seq<ClauseValue>, b: seq<ClauseValue>, k: Kind)
    ensures HowMany(a + b, k) == HowMany(a, k) + HowMany(b, k)
  {
    if a == [] {
      assert a + b == b;
    } else {
      HowManyJoined(a[1..], b, k);
      assert (a + b)[1..] == a[1..] + b;
    }
  }

  lemma {:induction false} TallyCounts(c: Category, vs: seq<ClauseValue>, k: Kind)
    ensures CountOf(Tally(c, vs), k) == CountOf(c, k) + HowMany(vs, k)
    decreases |vs|
  {
    if vs != [] {
      TallyCounts(Counted(c, vs[0].kind), vs[1..], k);
    }
  }

  lemma TotalLast(cs: seq<Category>, c: Category, k: Kind)
    requires cs != []
    ensures Total(cs[|cs| - 1 := c], k) == Total(cs, k) - CountOf(cs[|cs| - 1], k) + CountOf(c, k)
  {
    assert cs[|cs| - 1 := c][..|cs| - 1] == cs[..|cs| - 1];
  }

  lemma TotalGrows(cs: seq<Category>, c: Category, k: Kind)
    ensures Total(cs + [c], k) == Total(cs, k) + CountOf(c, k)
  {
    assert (cs + [c])[..|cs|] == cs;
  }

  /** The categories' counters add up to the values of each kind. */
  lemma {:induction false} CountsAddUp(rules: Rules, items: seq<Item>, n: nat, k: Kind)
    requires n <= |items|
    ensures Total(After(rules, items, n).categories, k) == HowMany(After(rules, items, n).values, k)
  {
    if n > 0 {
      CountsAddUp(rules, items, n - 1, k);
      CountsStep(rules, After(rules, items, n - 1), items[n - 1], k);
    }
  }

  lemma CountsStep(rules: Rules, s: State, item: Item, k: Kind)
    requires Total(s.categories, k) == HowMany(s.values, k)
    ensures Total(Step(rules, s, item).categories, k) == HowMany(Step(rules, s, item).values, k)
  {
    var line := Text.Strip(item.raw);
    if IsHeading(rules, line) {
      TotalGrows(s.categories, Category(rules.category(line).value, line, item.page, item.line, 0, 0, 0, 0), k);
    } else if IsConnector(rules, line) {
      ConnectCounts(s, rules.connector(line).value, k);
    } else if IsText(rules, line) && !IsPureTitle(rules, s, line) {
      ContentCounts(rules, if IsTitle(rules, s, line) then AddTitle(rules, s, line) else s, item, line, k);
    }
  }

  lemma ConnectCounts(s: State, c: Connector, k: Kind)
    ensures Total(Connect(s, c).categories, k) == Total(s.categories, k) && Connect(s, c).values == s.values
  {
    var n := |s.categories|;
    if n > 0 { TotalLast(s.categories, s.categories[n - 1].(alternatives := s.alternative + 2), k); }
  }

  lemma ContentCounts(rules: Rules, s: State, item: Item, line: string, k: Kind)
    requires Total(s.categories, k) == HowMany(s.values, k)
    ensures Total(Content(rules, s, item, line).categories, k) == HowMany(Content(rules, s, item, line).values, k)
  {
    if s.categories != [] {
      var vs, last := Emitted(rules, s, item, line), s.categories[|s.categories| - 1];
      HowManyJoined(s.values, vs, k);
      TallyCounts(last, vs, k);
      TotalLast(s.categories, Tally(last, vs), k);
    }
  }

  // ------------------------------------------------------------------ page breaks

  function Unplaced(v: ClauseValue): ClauseValue { v.(page := 0, line := 0) }

  function UnplacedAll(vs: seq<ClauseValue>): (out: seq<ClauseValue>)
    ensures |out| == |vs|
  {
    if vs == [] then [] else [Unplaced(vs[0])] + UnplacedAll(vs[1..])
  }

  function UnplacedCategory(c: Category): Category { c.(page := 0, line := 0) }

  function UnplacedCategories(cs: seq<Category>): (out: seq<Category>)
    ensures |out| == |cs|
  {
    if cs == [] then [] else UnplacedCategories(cs[..|cs| - 1]) + [UnplacedCategory(cs[|cs| - 1])]
  }

  function UnplacedLines(us: seq<Unresolved>): seq<Unresolved> {
    if us == [] then [] else UnplacedLines(us[..|us| - 1]) + [us[|us| - 1].(page := 0, line := 0)]
  }

  /** The state without page and line numbers. */
  function Erase(s: State): State {
    s.(values := UnplacedAll(s.values), categories := UnplacedCategories(s.categories),
      unresolved := UnplacedLines(s.unresolved))
  }

  lemma {:induction false} UnplacedJoined(a: seq<ClauseValue>, b: seq<ClauseValue>)
    ensures UnplacedAll(a + b) == UnplacedAll(a) + UnplacedAll(b)
  {
    if a == [] {
      assert a + b == b;
    } else {
      UnplacedJoined(a[1..], b);
      assert (a + b)[1..] == a[1..] + b;
      Assoc([Unplaced(a[0])], UnplacedAll(a[1..]), UnplacedAll(b));
    }
  }

  /** Tallying looks at kinds only. */
  lemma {:induction false} TallyUnplaced(c: Category, vs: seq<ClauseValue>)
    ensures UnplacedCategory(Tally(c, vs)) == Tally(UnplacedCategory(c), UnplacedAll(vs))
    decreases |vs|
  {
    if vs != [] {
      TallyUnplaced(Counted(c, vs[0].kind), vs[1..]);
      assert UnplacedAll(vs)[1..] == UnplacedAll(vs[1..]);
    }
  }

  lemma LastUnplaced(cs: seq<Category>, c: Category)
    requires cs != []
    ensures UnplacedCategories(cs[|cs| - 1 := c]) == UnplacedCategories(cs)[|cs| - 1 := UnplacedCategory(c)]
    ensures UnplacedCategories(cs)[|cs| - 1] == UnplacedCategory(cs[|cs| - 1])
  {
    assert cs[|cs| - 1 := c][..|cs| - 1] == cs[..|cs| - 1];
  }

  lemma {:induction false} OneEachUnplaced(rules: Rules, common: ClauseValue, slab: Option<string>,
        window: Option<string>,
      sign: Option<int>, amounts: seq<string>)
    ensures UnplacedAll(OneEach(rules, common, slab, window, sign, amounts))
         == OneEach(rules, Unplaced(common), slab, window, sign, amounts)
  {
    if amounts != [] {
      OneEachUnplaced(rules, common, slab, window, sign, amounts[1..]);
      var v := common.(amount := Some(amounts[0]), slab := slab, window := window,
        sign := SignOf(rules, amounts[0], sign));
      var rest := OneEach(rules, common, slab, window, sign, amounts[1..]);
      assert ([v] + rest)[1..] == rest;
    }
  }

  /** Two states that differ in places only read a line alike. */
  ghost predicate Alike(s: State, t: State) { Erase(s) == Erase(t) }

  lemma AlikeFields(s: State, t: State)
    requires Alike(s, t)
    ensures s.heading == t.heading && s.titles == t.titles && s.applicability == t.applicability
    ensures s.alternative == t.alternative && s.altDepth == t.altDepth && s.pending == t.pending && s.twoCol == t.twoCol
    ensures |s.categories| == |t.categories| && |s.values| == |t.values|
    ensures s.categories != [] ==>
      UnplacedCategory(s.categories[|s.categories| - 1]) == UnplacedCategory(t.categories[|t.categories| - 1])
  {
    assert Erase(s).categories == Erase(t).categories && Erase(s).values == Erase(t).values;
    if s.categories != [] {
      LastUnplaced(s.categories, s.categories[|s.categories| - 1]);
      LastUnplaced(t.categories, t.categories[|t.categories| - 1]);
    }
  }

  /** The places of a line's values come from the line alone. */
  lemma CommonAlike(rules: Rules, s: State, t: State, i: Item, j: Item, line: string)
    requires Alike(s, t) && s.categories != [] && t.categories != []
    ensures Unplaced(Common(rules, s, i, line)) == Unplaced(Common(rules, t, j, line))
    ensures RoleOfLine(rules, s, line) == RoleOfLine(rules, t, line)
  {
    AlikeFields(s, t);
  }

  lemma ValuesAlike(rules: Rules, s: State, t: State, i: Item, j: Item, line: string)
    requires Alike(s, t) && s.categories != [] && t.categories != []
    ensures UnplacedAll(ValuesOf(rules, s, i, line)) == UnplacedAll(ValuesOf(rules, t, j, line))
  {
    AlikeFields(s, t);
    CommonAlike(rules, s, t, i, j, line);
    var a, b := Common(rules, s, i, line), Common(rules, t, j, line);
    var amounts, slab, window, sign :=
      rules.amounts(line), rules.slab(Body(rules, line)), rules.window(line), RoleOfLine(rules, s, line).1;
    OneEachUnplaced(rules, a, slab, window, sign, amounts);
    OneEachUnplaced(rules, b, slab, window, sign, amounts);
    var vs, ws := ValuesOf(rules, s, i, line), ValuesOf(rules, t, j, line);
    if s.twoCol.Some? && |amounts| >= 2 {
      assert vs[1..][1..] == [] && ws[1..][1..] == [];
    } else if IsRuleRole(a.role) && |amounts| > 1 {
      assert vs[1..] == [] && ws[1..] == [];
    }
  }

  lemma EmittedAlike(rules: Rules, s: State, t: State, i: Item, j: Item, line: string)
    requires Alike(s, t) && s.categories != [] && t.categories != []
    ensures UnplacedAll(Emitted(rules, s, i, line)) == UnplacedAll(Emitted(rules, t, j, line))
  {
    CommonAlike(rules, s, t, i, j, line);
    var vs, ws := Emitted(rules, s, i, line), Emitted(rules, t, j, line);
    var a, b := Common(rules, s, i, line), Common(rules, t, j, line);
    var xref := rules.crossReference(Body(rules, line));
    if a.role == Condition || rules.amounts(line) == [] {
      assert vs[1..] == [] && ws[1..] == [];
    } else {
      ValuesAlike(rules, s, t, i, j, line);
      var x := if xref.Some? then [a.(connector := None, kind := CrossReference, target := xref)] else [];
      var y := if xref.Some? then [b.(connector := None, kind := CrossReference, target := xref)] else [];
      assert xref.Some? ==> x[1..] == [] && y[1..] == [];
      UnplacedJoined(ValuesOf(rules, s, i, line), x);
      UnplacedJoined(ValuesOf(rules, t, j, line), y);
    }
  }

  lemma EmitAlike(rules: Rules, s: State, t: State, i: Item, j: Item, line: string)
    requires Alike(s, t) && s.categories != [] && t.categories != []
    ensures Alike(Emit(rules, s, i, line), Emit(rules, t, j, line))
  {
    AlikeFields(s, t);
    EmittedAlike(rules, s, t, i, j, line);
    var vs, ws, n := Emitted(rules, s, i, line), Emitted(rules, t, j, line), |s.categories|;
    UnplacedJoined(s.values, vs);
    UnplacedJoined(t.values, ws);
    TallyUnplaced(s.categories[n - 1], vs);
    TallyUnplaced(t.categories[n - 1], ws);
    LastUnplaced(s.categories, Tally(s.categories[n - 1], vs));
    LastUnplaced(t.categories, Tally(t.categories[n - 1], ws));
    assert Erase(s).values == Erase(t).values && Erase(s).categories == Erase(t).categories;
  }

  lemma ContentAlike(rules: Rules, s: State, t: State, i: Item, j: Item, line: string)
    requires Alike(s, t)
    ensures Alike(Content(rules, s, i, line), Content(rules, t, j, line))
  {
    AlikeFields(s, t);
    if !(rules.twoColumns(line).Some? && rules.amounts(line) == []) && Speaks(rules, line) {
      if s.categories == [] {
        UnresolvedAlike(s, t, Unresolved(i.page, i.line, Shortened(line)), Unresolved(j.page, j.line, Shortened(line)));
      } else {
        EmitAlike(rules, s, t, i, j, line);
      }
    }
  }

  lemma UnresolvedAlike(s: State, t: State, u: Unresolved, v: Unresolved)
    requires Alike(s, t) && u.text == v.text
    ensures Alike(s.(unresolved := s.unresolved + [u]), t.(unresolved := t.unresolved + [v]))
  {
    LinesJoined(s.unresolved, u);
    LinesJoined(t.unresolved, v);
    EraseUnresolved(s, s.unresolved + [u]);
    EraseUnresolved(t, t.unresolved + [v]);
    assert Erase(s).unresolved == Erase(t).unresolved;
  }

  lemma LinesJoined(us: seq<Unresolved>, u: Unresolved)
    ensures UnplacedLines(us + [u]) == UnplacedLines(us) + [u.(page := 0, line := 0)]
  {
    assert (us + [u])[..|us|] == us;
  }

  lemma EraseUnresolved(s: State, us: seq<Unresolved>)
    ensures Erase(s.(unresolved := us)) == Erase(s).(unresolved := UnplacedLines(us))
  {
  }

  lemma HeadingAlike(rules: Rules, s: State, t: State, i: Item, j: Item, line: string)
    requires Alike(s, t) && rules.category(line).Some?
    ensures Alike(NewCategory(rules, s, i, line), NewCategory(rules, t, j, line))
  {
    AlikeFields(s, t);
    var a, b := NewCategory(rules, s, i, line), NewCategory(rules, t, j, line);
    assert a.categories[..|s.categories|] == s.categories && b.categories[..|t.categories|] == t.categories;
    assert Erase(s).categories == Erase(t).categories && Erase(s).values == Erase(t).values
      && Erase(s).unresolved == Erase(t).unresolved;
  }

  lemma ConnectAlike(s: State, t: State, c: Connector)
    requires Alike(s, t)
    ensures Alike(Connect(s, c), Connect(t, c))
  {
    AlikeFields(s, t);
    var n := |s.categories|;
    if c == Alternatively && n > 0 {
      LastUnplaced(s.categories, s.categories[n - 1].(alternatives := s.alternative + 2));
      LastUnplaced(t.categories, t.categories[n - 1].(alternatives := t.alternative + 2));
    }
    assert Erase(s).categories == Erase(t).categories;
  }

  lemma StepAlike(rules: Rules, s: State, t: State, i: Item, j: Item)
    requires Alike(s, t) && i.raw == j.raw
    ensures Alike(Step(rules, s, i), Step(rules, t, j))
  {
    AlikeFields(s, t);
    var line := Text.Strip(i.raw);
    if IsHeading(rules, line) {
      HeadingAlike(rules, s, t, i, j, line);
    } else if IsConnector(rules, line) {
      ConnectAlike(s, t, rules.connector(line).value);
    } else if IsText(rules, line) && !IsPureTitle(rules, s, line) {
      if IsTitle(rules, s, line) {
        ContentAlike(rules, AddTitle(rules, s, line), AddTitle(rules, t, line), i, j, line);
      } else {
        ContentAlike(rules, s, t, i, j, line);
      }
    }
  }

  /** The lines alone. */
  function Raws(items: seq<Item>): (rs: seq<string>)
    ensures |rs| == |items|
  {
    if items == [] then [] else [items[0].raw] + Raws(items[1..])
  }

  lemma {:induction false} RunAlike(rules: Rules, s: State, t: State, a: seq<Item>, b: seq<Item>)
    requires Alike(s, t) && Raws(a) == Raws(b)
    ensures Alike(Run(rules, s, a), Run(rules, t, b))
    decreases |a|
  {
    if a != [] {
      assert Raws(a)[0] == Raws(b)[0];
      assert Raws(a)[1..] == Raws(a[1..]) && Raws(b)[1..] == Raws(b[1..]);
      StepAlike(rules, s, t, a[0], b[0]);
      RunAlike(rules, Step(rules, s, a[0]), Step(rules, t, b[0]), a[1..], b[1..]);
    }
  }

  function AllLines(pages: seq<(int, seq<string>)>, p: nat): seq<string>
    requires p <= |pages|
    decreases |pages| - p
  {
    if p == |pages| then [] else pages[p].1 + AllLines(pages, p + 1)
  }

  lemma {:induction false} RawsJoined(a: seq<Item>, b: seq<Item>)
    ensures Raws(a + b) == Raws(a) + Raws(b)
  {
    if a == [] {
      assert a + b == b;
    } else {
      RawsJoined(a[1..], b);
      assert (a + b)[1..] == a[1..] + b;
      Assoc([a[0].raw], Raws(a[1..]), Raws(b));
    }
  }

  lemma {:induction false} RawsOfPage(page: int, lines: seq<string>, from: nat)
    requires from <= |lines|
    ensures Raws(ItemsOf(page, lines, from)) == lines[from..]
    decreases |lines| - from
  {
    if from < |lines| {
      RawsOfPage(page, lines, from + 1);
      assert ItemsOf(page, lines, from)[1..] == ItemsOf(page, lines, from + 1);
    }
  }

  lemma {:induction false} RawsOfPages(pages: seq<(int, seq<string>)>, p: nat)
    requires p <= |pages|
    ensures Raws(Flat(pages, p)) == AllLines(pages, p)
    decreases |pages| - p
  {
    if p < |pages| {
      RawsOfPages(pages, p + 1);
      RawsOfPage(pages[p].0, pages[p].1, 0);
      RawsJoined(ItemsOf(pages[p].0, pages[p].1, 0), Flat(pages, p + 1));
      assert pages[p].1[0..] == pages[p].1;
    }
  }

  /** However the same lines are cut into pages, the outline is the same but for page and line numbers. */
  lemma PageBreaksDoNotMatter(rules: Rules, pages: seq<(int, seq<string>)>, others: seq<(int, seq<string>)>)
    requires AllLines(pages, 0) == AllLines(others, 0)
    ensures var a, b := Flat(pages, 0), Flat(others, 0);
      Erase(After(rules, a, |a|)) == Erase(After(rules, b, |b|))
  {
    var a, b := Flat(pages, 0), Flat(others, 0);
    RawsOfPages(pages, 0);
    RawsOfPages(others, 0);
    RunAlike(rules, START, START, a, b);
    RunIsAfter(rules, a, |a|);
    RunIsAfter(rules, b, |b|);
    assert a[|a|..] == [] && b[|b|..] == [];
  }
}
