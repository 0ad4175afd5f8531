/** What each value of a clause outline carries, told by the lines: its amount and column header, its role and
    sign, its alternative, and the category it is counted in. */
module ClauseValueLaws {
  import opened Basics
  import opened ClauseOutline
  import opened ClauseLaws
  import Text

  // ------------------------------------------------------------------ lines of a kind

  predicate HeadingLine(rules: Rules, items: seq<Item>, q: nat)
    requires q < |items|
  {
    IsHeading(rules, LineAt(items, q))
  }

  /** One of the first n lines opens a category. */
  predicate Begun(rules: Rules, items: seq<Item>, n: nat)
    requires n <= |items|
  {
    n > 0 && (HeadingLine(rules, items, n - 1) || Begun(rules, items, n - 1))
  }

  /** A sub-clause line whose number starts with that of the latest heading. */
  predicate TitleLine(rules: Rules, items: seq<Item>, q: nat)
    requires q < |items|
  {
    var line := LineAt(items, q);
    && IsText(rules, line) && Begun(rules, items, q) && rules.subclause(line).Some?
    && rules.subclause(line).value.first == rules.headingNumber(HeadingAt(rules, items, q))
  }

  /** A line that sets a two-column header: it has no amount and is no title without an amount of its own. */
  predicate HeaderLine(rules: Rules, items: seq<Item>, q: nat)
    requires q < |items|
  {
    var line := LineAt(items, q);
    && IsText(rules, line) && rules.twoColumns(line).Some? && rules.amounts(line) == []
    && !(TitleLine(rules, items, q) && rules.amounts(rules.subclause(line).value.title) == [])
  }

  predicate AlternativeLine(rules: Rules, items: seq<Item>, q: nat)
    requires q < |items|
  {
    IsConnector(rules, LineAt(items, q)) && rules.connector(LineAt(items, q)) == Some(Alternatively)
  }

  // ------------------------------------------------------------------ when a category is open

  lemma CategoriesOf(rules: Rules, s: State, item: Item)
    ensures Step(rules, s, item).categories == [] <==> s.categories == [] && !IsHeading(rules, Text.Strip(item.raw))
  {
  }

  lemma {:induction false} BegunIs(rules: Rules, items: seq<Item>, n: nat)
    requires n <= |items|
    ensures Begun(rules, items, n) <==> After(rules, items, n).categories != []
  {
    if n > 0 {
      BegunIs(rules, items, n - 1);
      CategoriesOf(rules, After(rules, items, n - 1), items[n - 1]);
    }
  }

  lemma TitleIs(rules: Rules, items: seq<Item>, q: nat)
    requires q < |items|
    ensures TitleLine(rules, items, q)
        <==> IsText(rules, LineAt(items, q)) && IsTitle(rules, After(rules, items, q), LineAt(items, q))
  {
    BegunIs(rules, items, q);
    ContextAt(rules, items, q);
  }

  // ------------------------------------------------------------------ the two-column header over a line

  /** Line j sets a header, and no later one of the first n lines sets another, opens a category or is a title. */
  ghost predicate HeaderHolds(rules: Rules, items: seq<Item>, n: nat, j: nat)
    requires n <= |items|
  {
    && j < n && HeaderLine(rules, items, j)
    && forall q :: j < q < n ==>
         !HeaderLine(rules, items, q) && !HeadingLine(rules, items, q) && !TitleLine(rules, items, q)
  }

  /** The header that holds after the first n lines. */
  ghost predicate HeaderIs(rules: Rules, items: seq<Item>, n: nat, header: Option<(string, string)>)
    requires n <= |items|
  {
    && (forall j: nat :: HeaderHolds(rules, items, n, j) ==> header == rules.twoColumns(LineAt(items, j)))
    && ((forall j: nat :: !HeaderHolds(rules, items, n, j)) ==> header == None)
  }

  /** What line n makes of the header. */
  function HeaderBy(rules: Rules, items: seq<Item>, n: nat, header: Option<(string, string)>): Option<(string, string)>
    requires n < |items|
  {
    if HeaderLine(rules, items, n) then rules.twoColumns(LineAt(items, n))
    else if HeadingLine(rules, items, n) || TitleLine(rules, items, n) then None
    else header
  }

  lemma HeaderOf(rules: Rules, s: State, item: Item)
    ensures var line := Text.Strip(item.raw);
      Step(rules, s, item).twoCol ==
        if IsText(rules, line) && !IsPureTitle(rules, s, line) && rules.twoColumns(line).Some?
          && rules.amounts(line) == [] then rules.twoColumns(line)
        else if IsHeading(rules, line) || (IsText(rules, line) && IsTitle(rules, s, line)) then None
        else s.twoCol
  {
  }

  lemma HeaderStep(rules: Rules, items: seq<Item>, n: nat)
    requires n < |items|
    ensures After(rules, items, n + 1).twoCol == HeaderBy(rules, items, n, After(rules, items, n).twoCol)
  {
    HeaderOf(rules, After(rules, items, n), items[n]);
    TitleIs(rules, items, n);
  }

  lemma HeaderSet(rules: Rules, items: seq<Item>, n: nat)
    requires n < |items| && HeaderLine(rules, items, n)
    ensures HeaderIs(rules, items, n + 1, rules.twoColumns(LineAt(items, n)))
  {
    var u := n + 1;
    assert HeaderHolds(rules, items, u, n);
    forall j: nat | HeaderHolds(rules, items, u, j) ensures j == n { }
  }

  lemma HeaderCleared(rules: Rules, items: seq<Item>, n: nat)
    requires n < |items| && !HeaderLine(rules, items, n)
    requires HeadingLine(rules, items, n) || TitleLine(rules, items, n)
    ensures HeaderIs(rules, items, n + 1, None)
  {
    var u := n + 1;
    forall j: nat ensures !HeaderHolds(rules, items, u, j) { }
  }

  lemma HeaderKept(rules: Rules, items: seq<Item>, n: nat, header: Option<(string, string)>)
    requires n < |items| && HeaderIs(rules, items, n, header) && !HeaderLine(rules, items, n)
    requires !HeadingLine(rules, items, n) && !TitleLine(rules, items, n)
    ensures HeaderIs(rules, items, n + 1, header)
  {
    var u := n + 1;
    forall j: nat ensures HeaderHolds(rules, items, u, j) <==> HeaderHolds(rules, items, n, j) { }
  }

  lemma HeaderNext(rules: Rules, items: seq<Item>, n: nat, header: Option<(string, string)>)
    requires n < |items| && HeaderIs(rules, items, n, header)
    ensures HeaderIs(rules, items, n + 1, HeaderBy(rules, items, n, header))
  {
    if HeaderLine(rules, items, n) {
      HeaderSet(rules, items, n);
    } else if HeadingLine(rules, items, n) || TitleLine(rules, items, n) {
      HeaderCleared(rules, items, n);
    } else {
      HeaderKept(rules, items, n, header);
    }
  }

  /** The header after the first n lines. */
  function HeaderAt(rules: Rules, items: seq<Item>, n: nat): Option<(string, string)>
    requires n <= |items|
  {
    if n == 0 then None else HeaderBy(rules, items, n - 1, HeaderAt(rules, items, n - 1))
  }

  lemma {:induction false} HeaderAtIs(rules: Rules, items: seq<Item>, n: nat)
    requires n <= |items|
    ensures After(rules, items, n).twoCol == HeaderAt(rules, items, n)
  {
    if n > 0 {
      HeaderAtIs(rules, items, n - 1);
      HeaderStep(rules, items, n - 1);
    }
  }

  lemma {:induction false} HeaderAtHolds(rules: Rules, items: seq<Item>, n: nat)
    requires n <= |items|
    ensures HeaderIs(rules, items, n, HeaderAt(rules, items, n))
  {
    if n > 0 {
      HeaderAtHolds(rules, items, n - 1);
      HeaderNext(rules, items, n - 1, HeaderAt(rules, items, n - 1));
    }
  }

  /** The header of the state is the one that holds. */
  lemma HeaderOver(rules: Rules, items: seq<Item>, n: nat)
    requires n <= |items|
    ensures HeaderIs(rules, items, n, After(rules, items, n).twoCol)
  {
    HeaderAtIs(rules, items, n);
    HeaderAtHolds(rules, items, n);
  }

  // ------------------------------------------------------------------ the alternative of a line

  /** The depth of the deepest title that holds. */
  function DeepestOf(ts: seq<(Depth, string)>): nat { if ts == [] then 0 else ts[|ts| - 1].0 }

  /** The depth that the latest ALTERNATIVELY among the first n lines separates. */
  function SeparatedDepth(rules: Rules, items: seq<Item>, n: nat): nat
    requires n <= |items|
  {
    if n == 0 then 0
    else if AlternativeLine(rules, items, n - 1) then DeepestOf(Minima(TitlesSince(rules, items, n - 1)))
    else SeparatedDepth(rules, items, n - 1)
  }

  /** The line ends a group of alternatives: it opens a category, or is a title above what they separate. */
  predicate Closes(rules: Rules, items: seq<Item>, q: nat)
    requires q < |items|
  {
    HeadingLine(rules, items, q)
    || (TitleLine(rules, items, q)
        && rules.subclause(LineAt(items, q)).value.depth < SeparatedDepth(rules, items, q))
  }

  function Alternatives(rules: Rules, items: seq<Item>, from: nat, n: nat): nat
    requires from <= n <= |items|
  {
    if from == n then 0
    else Alternatives(rules, items, from, n - 1) + (if AlternativeLine(rules, items, n - 1) then 1 else 0)
  }

  lemma {:induction false} DeepestIs(titles: map<Depth, string>, k: nat)
    requires 2 <= k <= 5
    ensures Held(titles, k) == [] <==> forall d: Depth :: k <= d ==> d !in titles
    ensures Held(titles, k) != [] ==>
      var d := DeepestOf(Held(titles, k)); k <= d <= 4 && d in titles && forall e: Depth :: d < e ==> e !in titles
    decreases 5 - k
  {
    if k < 5 {
      DeepestIs(titles, k + 1);
      var rest := Held(titles, k + 1);
      if k in titles && rest != [] { assert ([(k, titles[k])] + rest)[|rest|] == rest[|rest| - 1]; }
    }
  }

  lemma DeepestHeld(titles: map<Depth, string>)
    ensures Deepest(titles) == DeepestOf(Held(titles, 2))
  {
    DeepestIs(titles, 2);
  }

  lemma AlternativeOf(rules: Rules, s: State, item: Item)
    ensures var line, t := Text.Strip(item.raw), Step(rules, s, item);
      var more := IsConnector(rules, line) && rules.connector(line) == Some(Alternatively);
      && t.altDepth == (if more then Deepest(s.titles) else s.altDepth)
      && t.alternative ==
         if more then s.alternative + 1
         else if IsHeading(rules, line) then 0
         else if IsText(rules, line) && IsTitle(rules, s, line) && rules.subclause(line).value.depth < s.altDepth then 0
         else s.alternative
  {
  }

  lemma AlternativeStep(rules: Rules, items: seq<Item>, n: nat)
    requires n < |items|
    ensures var (s, t) := (After(rules, items, n), After(rules, items, n + 1));
      && t.altDepth == (if AlternativeLine(rules, items, n) then Deepest(s.titles) else s.altDepth)
      && t.alternative ==
         if AlternativeLine(rules, items, n) then s.alternative + 1
         else if HeadingLine(rules, items, n) then 0
         else if TitleLine(rules, items, n) && rules.subclause(LineAt(items, n)).value.depth < s.altDepth then 0
         else s.alternative
  {
    AlternativeOf(rules, After(rules, items, n), items[n]);
    TitleIs(rules, items, n);
  }

  lemma DepthStep(rules: Rules, items: seq<Item>, n: nat)
    requires n < |items|
    ensures After(rules, items, n + 1).altDepth ==
      if AlternativeLine(rules, items, n) then DeepestOf(Minima(TitlesSince(rules, items, n)))
      else After(rules, items, n).altDepth
  {
    AlternativeStep(rules, items, n);
    HeldAreMinima(rules, items, n);
    DeepestHeld(After(rules, items, n).titles);
  }

  lemma {:induction false} DepthSeparated(rules: Rules, items: seq<Item>, n: nat)
    requires n <= |items|
    ensures After(rules, items, n).altDepth == SeparatedDepth(rules, items, n)
  {
    if n > 0 {
      DepthSeparated(rules, items, n - 1);
      DepthStep(rules, items, n - 1);
    }
  }

  /** The alternative counts the ALTERNATIVELY lines from line `from` on; the line before that closed a group, and none
      has since. */
  ghost predicate CountedFrom(rules: Rules, items: seq<Item>, n: nat, from: nat, alternative: nat)
    requires n <= |items|
  {
    && from <= n && (from == 0 || Closes(rules, items, from - 1))
    && (forall q :: from <= q < n ==> !Closes(rules, items, q))
    && alternative == Alternatives(rules, items, from, n)
  }

  /** What line n makes of the alternative. */
  function AlternativeBy(rules: Rules, items: seq<Item>, n: nat, alternative: nat): nat
    requires n < |items|
  {
    if Closes(rules, items, n) then 0 else alternative + (if AlternativeLine(rules, items, n) then 1 else 0)
  }

  lemma CountedNext(rules: Rules, items: seq<Item>, n: nat, from: nat, alternative: nat, next: nat)
    requires n < |items| && CountedFrom(rules, items, n, from, alternative)
    requires next == AlternativeBy(rules, items, n, alternative)
    ensures CountedFrom(rules, items, n + 1, if Closes(rules, items, n) then n + 1 else from, next)
  {
  }

  lemma AlternativeNext(rules: Rules, items: seq<Item>, n: nat)
    requires n < |items|
    ensures After(rules, items, n + 1).alternative == AlternativeBy(rules, items, n, After(rules, items, n).alternative)
  {
    AlternativeStep(rules, items, n);
    DepthSeparated(rules, items, n);
  }

  /** The alternative after the first n lines. */
  function AlternativeAt(rules: Rules, items: seq<Item>, n: nat): nat
    requires n <= |items|
  {
    if n == 0 then 0 else AlternativeBy(rules, items, n - 1, AlternativeAt(rules, items, n - 1))
  }

  lemma {:induction false} AlternativeAtIs(rules: Rules, items: seq<Item>, n: nat)
    requires n <= |items|
    ensures After(rules, items, n).alternative == AlternativeAt(rules, items, n)
  {
    if n > 0 {
      AlternativeAtIs(rules, items, n - 1);
      AlternativeNext(rules, items, n - 1);
    }
  }

  lemma {:induction false} AlternativesFrom(rules: Rules, items: seq<Item>, n: nat) returns (from: nat)
    requires n <= |items|
    ensures CountedFrom(rules, items, n, from, AlternativeAt(rules, items, n))
  {
    if n == 0 {
      from := 0;
    } else {
      from := AlternativesFrom(rules, items, n - 1);
      CountedNext(rules, items, n - 1, from, AlternativeAt(rules, items, n - 1), AlternativeAt(rules, items, n));
      from := if Closes(rules, items, n - 1) then n else from;
    }
  }

  /** The alternative after n lines counts the ALTERNATIVELY lines since the line that last closed a group. */
  lemma AlternativeCounted(rules: Rules, items: seq<Item>, n: nat) returns (from: nat)
    requires n <= |items|
    ensures CountedFrom(rules, items, n, from, After(rules, items, n).alternative)
  {
    AlternativeAtIs(rules, items, n);
    from := AlternativesFrom(rules, items, n);
  }

  // ------------------------------------------------------------------ the role of a line

  /** Text k of the path counts, with one text left aside. */
  predicate CountsFor(path: seq<string>, aside: Option<string>, k: nat) { k < |path| && Some(path[k]) != aside }

  /** It is the deepest that counts and has a role. */
  ghost predicate GivesRole(rules: Rules, path: seq<string>, aside: Option<string>, k: nat) {
    && CountsFor(path, aside, k) && rules.roleOf(path[k]).Some?
    && forall i: nat :: k < i && CountsFor(path, aside, i) ==> rules.roleOf(path[i]).None?
  }

  ghost predicate DeepestRole(rules: Rules, path: seq<string>, aside: Option<string>, role: (Role, Option<int>)) {
    && (forall k: nat :: GivesRole(rules, path, aside, k) ==> rules.roleOf(path[k]) == Some(role))
    && ((forall k: nat :: CountsFor(path, aside, k) ==> rules.roleOf(path[k]).None?) ==> role == (Other, None))
  }

  /** The role and the sign of a line with this path: those of its deepest text that has one, the line itself left
      aside unless there is nothing else. */
  ghost predicate RoleIs(rules: Rules, path: seq<string>, line: string, role: (Role, Option<int>)) {
    DeepestRole(rules, path, if exists k: nat :: CountsFor(path, Some(line), k) then Some(line) else None, role)
  }

  lemma RoleSnoc(rules: Rules, path: seq<string>, p: string, aside: Option<string>, role: (Role, Option<int>),
        next: (Role, Option<int>))
    requires DeepestRole(rules, path, aside, role)
    requires next == if Some(p) != aside && rules.roleOf(p).Some? then rules.roleOf(p).value else role
    ensures DeepestRole(rules, path + [p], aside, next)
  {
    var all := path + [p];
    forall k: nat ensures CountsFor(all, aside, k) <==>
      CountsFor(path, aside, k) || (k == |path| && Some(p) != aside) { }
    if Some(p) != aside && rules.roleOf(p).Some? {
      forall k: nat | GivesRole(rules, all, aside, k) ensures k == |path| {
        assert CountsFor(all, aside, |path|) && all[|path|] == p;
      }
      assert CountsFor(all, aside, |path|) && all[|path|] == p;
    } else {
      forall k: nat | GivesRole(rules, all, aside, k) ensures GivesRole(rules, path, aside, k) { }
      assert forall k: nat :: CountsFor(path, aside, k) ==> all[k] == path[k];
    }
  }

  lemma {:induction false} OthersSnoc(path: seq<string>, p: string, line: string)
    ensures Others(path + [p], line) == Others(path, line) + (if p != line then [p] else [])
  {
    if path == [] {
      assert [] + [p] == [p] && [p][1..] == [];
    } else {
      OthersSnoc(path[1..], p, line);
      assert (path + [p])[1..] == path[1..] + [p];
    }
  }

  lemma RoleForSnoc(rules: Rules, path: seq<string>, p: string)
    ensures RoleFor(rules, path + [p]) == if rules.roleOf(p).Some? then rules.roleOf(p).value else RoleFor(rules, path)
  {
    assert (path + [p])[..|path|] == path;
  }

  lemma {:induction false} RoleForIs(rules: Rules, path: seq<string>)
    ensures DeepestRole(rules, path, None, RoleFor(rules, path))
    decreases |path|
  {
    if path != [] {
      var front, p := path[..|path| - 1], path[|path| - 1];
      assert path == front + [p];
      RoleForIs(rules, front);
      RoleForSnoc(rules, front, p);
      RoleSnoc(rules, front, p, None, RoleFor(rules, front), RoleFor(rules, path));
    }
  }

  lemma {:induction false} RoleForOthers(rules: Rules, path: seq<string>, line: string)
    ensures DeepestRole(rules, path, Some(line), RoleFor(rules, Others(path, line)))
    decreases |path|
  {
    if path != [] {
      var front, p := path[..|path| - 1], path[|path| - 1];
      assert path == front + [p];
      RoleForOthers(rules, front, line);
      OthersSnoc(front, p, line);
      var before := Others(front, line);
      if p != line { RoleForSnoc(rules, before, p); } else { assert before + [] == before; }
      RoleSnoc(rules, front, p, Some(line), RoleFor(rules, before), RoleFor(rules, Others(path, line)));
    }
  }

  lemma {:induction false} OthersSome(path: seq<string>, line: string)
    ensures Others(path, line) != [] <==> exists k: nat :: CountsFor(path, Some(line), k)
    decreases |path|
  {
    if path != [] {
      OthersSome(path[1..], line);
      if path[0] != line { assert CountsFor(path, Some(line), 0); }
      if k: nat :| CountsFor(path[1..], Some(line), k) { assert CountsFor(path, Some(line), k + 1); }
      if k: nat :| CountsFor(path, Some(line), k) && k > 0 { assert CountsFor(path[1..], Some(line), k - 1); }
    }
  }

  lemma RoleOfPath(rules: Rules, s: State, line: string)
    ensures RoleIs(rules, ItemPath(rules, s, line), line, RoleOfLine(rules, s, line))
  {
    var path := ItemPath(rules, s, line);
    OthersSome(path, line);
    RoleForIs(rules, path);
    RoleForOthers(rules, path, line);
  }

  // ------------------------------------------------------------------ what a line gives

  /** What all values of a line share. */
  datatype Shared = Shared(role: Role, sign: Option<int>, header: Option<(string, string)>)

  /** How many values hold an amount of the line: two under a two-column header, one when the further amounts are its
      thresholds, and else one for each amount. */
  function AmountValues(rules: Rules, line: string, sh: Shared): nat {
    var n := |rules.amounts(line)|;
    if sh.role == Condition then 0
    else if sh.header.Some? && n >= 2 then 2
    else if IsRuleRole(sh.role) && n > 1 then 1
    else n
  }

  /** Value i holds amount i; under a two-column header the first goes to the first column and the second to the
      second; the thresholds of a rule go with its first amount. */
  ghost predicate HoldsAmount(rules: Rules, line: string, sh: Shared, v: ClauseValue, i: nat)
    requires i < |rules.amounts(line)|
  {
    var amounts := rules.amounts(line);
    var columns := sh.header.Some? && |amounts| >= 2;
    var rule := !columns && IsRuleRole(sh.role) && |amounts| > 1;
    && v.kind == Value && v.amount == Some(amounts[i]) && v.target == None
    && v.header == (if columns then Some(if i == 0 then sh.header.value.0 else sh.header.value.1) else None)
    && v.parameters == (if rule then amounts[1..] else [])
    && v.slab == (if rule then None else rules.slab(Body(rules, line)))
    && v.window == (if columns then None else rules.window(line))
    && v.sign == (if !columns && rules.signOf(amounts[i]).Some? then rules.signOf(amounts[i]) else sh.sign)
  }

  /** It holds no amount as its own. */
  ghost predicate HoldsNone(v: ClauseValue)
  {
    v.amount == None && v.header == None && v.window == None && v.sign == None
  }

  /** A condition holds the amounts of its line as parameters. */
  ghost predicate IsConditionValue(rules: Rules, line: string, v: ClauseValue) {
    HoldsNone(v) && v.kind == ConditionClause && v.parameters == rules.amounts(line) && v.target == None
      && v.slab == None
  }

  /** A reference names its target; one that stands alone may have a slab. */
  ghost predicate IsReference(rules: Rules, line: string, v: ClauseValue) {
    && HoldsNone(v) && v.kind == CrossReference && v.parameters == []
    && v.target == rules.crossReference(Body(rules, line))
    && v.slab == if rules.amounts(line) == [] then rules.slab(Body(rules, line)) else None
  }

  /** The values of a line: one condition; or its amounts in order and then its reference. */
  ghost predicate GivesAll(rules: Rules, line: string, sh: Shared, vs: seq<ClauseValue>) {
    var k, xref := AmountValues(rules, line, sh), rules.crossReference(Body(rules, line));
    if sh.role == Condition then |vs| == 1 && IsConditionValue(rules, line, vs[0])
    else
      && k <= |rules.amounts(line)| && |vs| == k + (if xref.Some? || rules.amounts(line) == [] then 1 else 0)
      && (forall i :: 0 <= i < k ==> HoldsAmount(rules, line, sh, vs[i], i))
      && (|vs| > k ==> IsReference(rules, line, vs[k]))
  }

  lemma {:induction false} OneEachAt(rules: Rules, common: ClauseValue, slab: Option<string>, window: Option<string>,
      sign: Option<int>, amounts: seq<string>, i: nat)
    requires i < |amounts|
    ensures OneEach(rules, common, slab, window, sign, amounts)[i]
      == common.(amount := Some(amounts[i]), slab := slab, window := window, sign := SignOf(rules, amounts[i], sign))
    decreases i
  {
    if i > 0 { OneEachAt(rules, common, slab, window, sign, amounts[1..], i - 1); }
  }

  function SharedBy(rules: Rules, s: State, line: string): Shared {
    Shared(RoleOfLine(rules, s, line).0, RoleOfLine(rules, s, line).1, s.twoCol)
  }

  lemma AmountsHeld(rules: Rules, s: State, item: Item, line: string, i: nat)
    requires s.categories != [] && RoleOfLine(rules, s, line).0 != Condition && rules.amounts(line) != []
    requires i < AmountValues(rules, line, SharedBy(rules, s, line))
    ensures i < |ValuesOf(rules, s, item, line)| == AmountValues(rules, line, SharedBy(rules, s, line))
    ensures i < |rules.amounts(line)|
    ensures HoldsAmount(rules, line, SharedBy(rules, s, line), ValuesOf(rules, s, item, line)[i], i)
  {
    var common, role := Common(rules, s, item, line), RoleOfLine(rules, s, line);
    var amounts := rules.amounts(line);
    if !(s.twoCol.Some? && |amounts| >= 2) && !(IsRuleRole(role.0) && |amounts| > 1) {
      OneEachAt(rules, common, rules.slab(Body(rules, line)), rules.window(line), role.1, amounts, i);
    }
  }

  lemma EmittedIs(rules: Rules, s: State, item: Item, line: string)
    requires s.categories != [] && Speaks(rules, line)
    ensures GivesAll(rules, line, SharedBy(rules, s, line), Emitted(rules, s, item, line))
  {
    var sh := SharedBy(rules, s, line);
    if sh.role != Condition && rules.amounts(line) != [] {
      forall i: nat | i < AmountValues(rules, line, sh)
        ensures i < |ValuesOf(rules, s, item, line)| == AmountValues(rules, line, sh) && i < |rules.amounts(line)|
        ensures HoldsAmount(rules, line, sh, ValuesOf(rules, s, item, line)[i], i)
      {
        AmountsHeld(rules, s, item, line, i);
      }
      AmountsHeld(rules, s, item, line, 0);
    }
  }

  lemma {:induction false} OneEachShares(rules: Rules, common: ClauseValue, slab: Option<string>,
        window: Option<string>, sign: Option<int>, amounts: seq<string>, v: ClauseValue)
    requires v in OneEach(rules, common, slab, window, sign, amounts)
    ensures v.role == common.role && v.alternative == common.alternative && v.category == common.category
  {
    var head := common.(amount := Some(amounts[0]), slab := slab, window := window,
      sign := SignOf(rules, amounts[0], sign));
    if v != head { OneEachShares(rules, common, slab, window, sign, amounts[1..], v); }
  }

  lemma EmittedShares(rules: Rules, s: State, item: Item, line: string, v: ClauseValue)
    requires s.categories != [] && v in Emitted(rules, s, item, line)
    ensures v.role == RoleOfLine(rules, s, line).0 && v.alternative == s.alternative
    ensures v.category == s.categories[|s.categories| - 1].code
  {
    var common, slab := Common(rules, s, item, line), rules.slab(Body(rules, line));
    var sign := RoleOfLine(rules, s, line).1;
    if v in OneEach(rules, common, slab, rules.window(line), sign, rules.amounts(line)) {
      OneEachShares(rules, common, slab, rules.window(line), sign, rules.amounts(line), v);
    }
  }

  /** What a giving line leaves as it was. */
  lemma GivingKeeps(rules: Rules, items: seq<Item>, m: nat)
    requires m < |items| && Emits(rules, items, m)
    ensures var ready, t := Ready(rules, After(rules, items, m), LineAt(items, m)), After(rules, items, m + 1);
      t.twoCol == ready.twoCol && t.alternative == ready.alternative
      && ready.categories == After(rules, items, m).categories
  {
  }

  /** The values of a giving line: its amounts in order under the header that holds, with the role and the sign of its
      path and the alternative it stands in. */
  lemma LineGives(rules: Rules, items: seq<Item>, m: nat) returns (sh: Shared)
    requires m < |items| && Emits(rules, items, m)
    ensures GivesAll(rules, LineAt(items, m), sh, Given(rules, items, m))
    ensures RoleIs(rules, PathAt(rules, items, m), LineAt(items, m), (sh.role, sh.sign))
    ensures HeaderIs(rules, items, m + 1, sh.header)
    ensures forall v :: v in Given(rules, items, m) ==>
      v.role == sh.role && v.alternative == After(rules, items, m + 1).alternative
  {
    var line := LineAt(items, m);
    var ready := Ready(rules, After(rules, items, m), line);
    sh := SharedBy(rules, ready, line);
    GivingKeeps(rules, items, m);
    EmittedIs(rules, ready, items[m], line);
    ReadyPath(rules, items, m);
    RoleOfPath(rules, ready, line);
    HeaderOver(rules, items, m + 1);
    forall v | v in Given(rules, items, m)
      ensures v.role == sh.role && v.alternative == After(rules, items, m + 1).alternative
    {
      EmittedShares(rules, ready, items[m], line, v);
    }
  }

  /** A value with a header is the first or the second of its line. */
  lemma HeaderOfValue(rules: Rules, line: string, sh: Shared, vs: seq<ClauseValue>, v: ClauseValue)
    requires GivesAll(rules, line, sh, vs) && v in vs && v.header.Some?
    ensures sh.header.Some? && |rules.amounts(line)| >= 2
    ensures var amounts := rules.amounts(line);
      || (v.header == Some(sh.header.value.0) && v.amount == Some(amounts[0]))
      || (v.header == Some(sh.header.value.1) && v.amount == Some(amounts[1]))
  {
    var i :| 0 <= i < |vs| && vs[i] == v;
  }

  lemma HeaderFound(rules: Rules, items: seq<Item>, n: nat, header: Option<(string, string)>) returns (j: nat)
    requires n <= |items| && HeaderIs(rules, items, n, header) && header.Some?
    ensures HeaderHolds(rules, items, n, j) && rules.twoColumns(LineAt(items, j)) == header
  {
    j :| HeaderHolds(rules, items, n, j);
  }

  lemma GivenHeader(rules: Rules, items: seq<Item>, m: nat, v: ClauseValue) returns (j: nat, headers: (string, string))
    requires m < |items| && Emits(rules, items, m) && v in Given(rules, items, m) && v.header.Some?
    ensures HeaderHolds(rules, items, m + 1, j) && rules.twoColumns(LineAt(items, j)) == Some(headers)
    ensures var amounts := rules.amounts(LineAt(items, m));
      && |amounts| >= 2
      && ((v.header == Some(headers.0) && v.amount == Some(amounts[0]))
        || (v.header == Some(headers.1) && v.amount == Some(amounts[1])))
  {
    var sh := LineGives(rules, items, m);
    HeaderOfValue(rules, LineAt(items, m), sh, Given(rules, items, m), v);
    headers := sh.header.value;
    j := HeaderFound(rules, items, m + 1, sh.header);
  }

  /** The header that a value names: that of the latest header line before its line with no heading or title in between;
      the first amount of the line is under the first header and the second under the second. */
  lemma ValueHeader(rules: Rules, items: seq<Item>, n: nat, v: ClauseValue)
    returns (m: nat, j: nat, headers: (string, string))
    requires n <= |items| && v in After(rules, items, n).values && v.header.Some?
    ensures m < n && Emits(rules, items, m) && v in Given(rules, items, m)
    ensures HeaderHolds(rules, items, m + 1, j) && rules.twoColumns(LineAt(items, j)) == Some(headers)
    ensures var amounts := rules.amounts(LineAt(items, m));
      && |amounts| >= 2
      && ((v.header == Some(headers.0) && v.amount == Some(amounts[0]))
        || (v.header == Some(headers.1) && v.amount == Some(amounts[1])))
  {
    m := ValuePath(rules, items, n, v);
    j, headers := GivenHeader(rules, items, m, v);
  }

  // ------------------------------------------------------------------ the categories

  /** The values given by the lines from a to b. */
  function GivenFrom(rules: Rules, items: seq<Item>, a: nat, b: nat): seq<ClauseValue>
    requires a <= b <= |items|
  {
    if a == b then [] else GivenFrom(rules, items, a, b - 1) + Given(rules, items, b - 1)
  }

  /** The number of alternatives that the last ALTERNATIVELY from line a to b makes. */
  function AlternativesNoted(rules: Rules, items: seq<Item>, a: nat, b: nat): nat
    requires a <= b <= |items|
  {
    if a == b then 0
    else if AlternativeLine(rules, items, b - 1) then AlternativeAt(rules, items, b) + 1
    else AlternativesNoted(rules, items, a, b - 1)
  }

  /** The categories after one line, by its kind. */
  function NextCategories(rules: Rules, s: State, item: Item): seq<Category> {
    var line, k := Text.Strip(item.raw), |s.categories|;
    if IsHeading(rules, line) then
      s.categories + [Category(rules.category(line).value, line, item.page, item.line, 0, 0, 0, 0)]
    else if k == 0 then s.categories
    else if IsConnector(rules, line) && rules.connector(line) == Some(Alternatively) then
      s.categories[k - 1 := s.categories[k - 1].(alternatives := s.alternative + 2)]
    else s.categories[k - 1 := Tally(s.categories[k - 1], GivenBy(rules, s, item))]
  }

  lemma GivingCategories(rules: Rules, s: State, item: Item)
    requires Gives(rules, s, Text.Strip(item.raw))
    ensures var k := |s.categories|;
      Step(rules, s, item).categories == s.categories[k - 1 := Tally(s.categories[k - 1], GivenBy(rules, s, item))]
  {
  }

  lemma SilentCategories(rules: Rules, s: State, item: Item)
    requires IsText(rules, Text.Strip(item.raw)) && !Gives(rules, s, Text.Strip(item.raw))
    ensures Step(rules, s, item).categories == s.categories
  {
  }

  lemma StepCategories(rules: Rules, s: State, item: Item)
    ensures Step(rules, s, item).categories == NextCategories(rules, s, item)
  {
    var line := Text.Strip(item.raw);
    if Gives(rules, s, line) {
      GivingCategories(rules, s, item);
    } else if IsText(rules, line) {
      SilentCategories(rules, s, item);
    }
  }

  /** A category as its heading opens it. */
  function NewOne(rules: Rules, items: seq<Item>, j: nat): Category
    requires j < |items| && HeadingLine(rules, items, j)
  {
    var line := LineAt(items, j);
    Category(rules.category(line).value, line, items[j].page, items[j].line, 0, 0, 0, 0)
  }

  /** The last category after line n, which is no heading. */
  function LastBy(rules: Rules, items: seq<Item>, n: nat, c: Category): Category
    requires n < |items|
  {
    if AlternativeLine(rules, items, n) then c.(alternatives := AlternativeAt(rules, items, n + 1) + 1)
    else Tally(c, Given(rules, items, n))
  }

  /** What line n makes of the categories. */
  function CategoriesBy(rules: Rules, items: seq<Item>, n: nat, cs: seq<Category>): seq<Category>
    requires n < |items|
  {
    if HeadingLine(rules, items, n) then cs + [NewOne(rules, items, n)]
    else if cs == [] then []
    else cs[|cs| - 1 := LastBy(rules, items, n, cs[|cs| - 1])]
  }

  /** The categories after the first n lines. */
  function CategoriesAt(rules: Rules, items: seq<Item>, n: nat): seq<Category>
    requires n <= |items|
  {
    if n == 0 then [] else CategoriesBy(rules, items, n - 1, CategoriesAt(rules, items, n - 1))
  }

  lemma CategoriesMatch(rules: Rules, items: seq<Item>, n: nat, s: State)
    requires n < |items| && s.alternative == AlternativeAt(rules, items, n)
    requires GivenBy(rules, s, items[n]) == Given(rules, items, n)
    ensures NextCategories(rules, s, items[n]) == CategoriesBy(rules, items, n, s.categories)
  {
    NotClosing(rules, items, n);
  }

  lemma CategoriesNext(rules: Rules, items: seq<Item>, n: nat)
    requires n < |items|
    ensures After(rules, items, n + 1).categories == CategoriesBy(rules, items, n, After(rules, items, n).categories)
  {
    StepCategories(rules, After(rules, items, n), items[n]);
    AlternativeAtIs(rules, items, n);
    CategoriesMatch(rules, items, n, After(rules, items, n));
  }

  lemma NotClosing(rules: Rules, items: seq<Item>, n: nat)
    requires n < |items|
    ensures AlternativeLine(rules, items, n) ==>
      AlternativeAt(rules, items, n + 1) == AlternativeAt(rules, items, n) + 1
  {
  }

  lemma {:induction false} CategoriesAtIs(rules: Rules, items: seq<Item>, n: nat)
    requires n <= |items|
    ensures After(rules, items, n).categories == CategoriesAt(rules, items, n)
  {
    if n > 0 {
      CategoriesAtIs(rules, items, n - 1);
      CategoriesNext(rules, items, n - 1);
    }
  }

  /** The counters of the category are those of the values. */
  predicate CountsAre(c: Category, vs: seq<ClauseValue>) {
    && c.values == HowMany(vs, Value) && c.crossReferences == HowMany(vs, CrossReference)
    && c.conditions == HowMany(vs, ConditionClause)
  }

  /** Category c was opened by line j and counts what has been given since. */
  ghost predicate Opened(rules: Rules, items: seq<Item>, n: nat, j: nat, c: Category)
    requires j < n <= |items|
  {
    && HeadingLine(rules, items, j)
    && Some(c.code) == rules.category(LineAt(items, j)) && c.heading == LineAt(items, j)
    && c.page == items[j].page && c.line == items[j].line
    && c.alternatives == AlternativesNoted(rules, items, j + 1, n)
    && CountsAre(c, GivenFrom(rules, items, j + 1, n))
  }

  lemma JustOpened(rules: Rules, items: seq<Item>, j: nat)
    requires j < |items| && HeadingLine(rules, items, j)
    ensures Opened(rules, items, j + 1, j, NewOne(rules, items, j))
  {
  }

  lemma CountsGrow(c: Category, vs: seq<ClauseValue>, more: seq<ClauseValue>)
    requires CountsAre(c, vs)
    ensures CountsAre(Tally(c, more), vs + more)
  {
    HowManyJoined(vs, more, Value);
    HowManyJoined(vs, more, CrossReference);
    HowManyJoined(vs, more, ConditionClause);
    TallyCounts(c, more, Value);
    TallyCounts(c, more, CrossReference);
    TallyCounts(c, more, ConditionClause);
  }

  lemma StillOpen(rules: Rules, items: seq<Item>, n: nat, j: nat, c: Category, next: Category)
    requires j < n < |items| && Opened(rules, items, n, j, c) && !HeadingLine(rules, items, n)
    requires next == LastBy(rules, items, n, c)
    ensures Opened(rules, items, n + 1, j, next)
  {
    var more := Given(rules, items, n);
    TallyKeeps(c, more);
    CountsGrow(c, GivenFrom(rules, items, j + 1, n), more);
  }

  lemma {:induction false} TallyKeeps(c: Category, vs: seq<ClauseValue>)
    ensures var t := Tally(c, vs);
      t.code == c.code && t.heading == c.heading && t.page == c.page && t.line == c.line
      && t.alternatives == c.alternatives
    decreases |vs|
  {
    if vs != [] { TallyKeeps(Counted(c, vs[0].kind), vs[1..]); }
  }

  /** The last category was opened by line j, the latest heading; those before it are the ones of that time. */
  ghost predicate LastIs(rules: Rules, items: seq<Item>, n: nat, j: nat, cs: seq<Category>)
    requires n <= |items|
  {
    && j < n && (forall q :: j < q < n ==> !HeadingLine(rules, items, q))
    && cs != [] && Opened(rules, items, n, j, cs[|cs| - 1])
    && cs[..|cs| - 1] == CategoriesAt(rules, items, j)
  }

  lemma LastNext(rules: Rules, items: seq<Item>, n: nat, j: nat, cs: seq<Category>, next: seq<Category>)
    requires n < |items| && LastIs(rules, items, n, j, cs) && !HeadingLine(rules, items, n)
    requires next == cs[|cs| - 1 := LastBy(rules, items, n, cs[|cs| - 1])]
    ensures LastIs(rules, items, n + 1, j, next)
  {
    StillOpen(rules, items, n, j, cs[|cs| - 1], next[|cs| - 1]);
    LastFront(rules, items, n, j, cs, next);
  }

  lemma LastFront(rules: Rules, items: seq<Item>, n: nat, j: nat, cs: seq<Category>, next: seq<Category>)
    requires n < |items| && LastIs(rules, items, n, j, cs) && !HeadingLine(rules, items, n)
    requires |next| == |cs| && forall i :: 0 <= i < |cs| - 1 ==> next[i] == cs[i]
    requires Opened(rules, items, n + 1, j, next[|next| - 1])
    ensures LastIs(rules, items, n + 1, j, next)
  {
    assert next[..|next| - 1] == cs[..|cs| - 1];
  }

  lemma LastNew(rules: Rules, items: seq<Item>, n: nat)
    requires n < |items| && HeadingLine(rules, items, n)
    ensures LastIs(rules, items, n + 1, n, CategoriesAt(rules, items, n) + [NewOne(rules, items, n)])
  {
    var cs := CategoriesAt(rules, items, n);
    JustOpened(rules, items, n);
    assert (cs + [NewOne(rules, items, n)])[..|cs|] == cs;
  }

  lemma {:induction false} LastAt(rules: Rules, items: seq<Item>, n: nat) returns (j: nat)
    requires n <= |items| && CategoriesAt(rules, items, n) != []
    ensures LastIs(rules, items, n, j, CategoriesAt(rules, items, n))
  {
    if HeadingLine(rules, items, n - 1) {
      LastNew(rules, items, n - 1);
      j := n - 1;
    } else {
      j := LastAt(rules, items, n - 1);
      LastNext(rules, items, n - 1, j, CategoriesAt(rules, items, n - 1), CategoriesAt(rules, items, n));
    }
  }

  /** The last category is that of the latest heading: it has its code and place and counts what was given since, and
      the categories before it are those that were there before that heading. */
  lemma LastCategory(rules: Rules, items: seq<Item>, n: nat) returns (j: nat)
    requires n <= |items| && After(rules, items, n).categories != []
    ensures LastIs(rules, items, n, j, After(rules, items, n).categories)
    ensures CategoriesAt(rules, items, j) == After(rules, items, j).categories
  {
    CategoriesAtIs(rules, items, n);
    j := LastAt(rules, items, n);
    CategoriesAtIs(rules, items, j);
  }

  lemma GivenCategory(rules: Rules, items: seq<Item>, m: nat, v: ClauseValue)
    requires m < |items| && Emits(rules, items, m) && v in Given(rules, items, m)
    ensures var cs := After(rules, items, m).categories; cs != [] && v.category == cs[|cs| - 1].code
  {
    GivingKeeps(rules, items, m);
    EmittedShares(rules, Ready(rules, After(rules, items, m), LineAt(items, m)), items[m], LineAt(items, m), v);
  }

  lemma LastCode(rules: Rules, items: seq<Item>, n: nat, j: nat, cs: seq<Category>)
    requires n <= |items| && LastIs(rules, items, n, j, cs)
    ensures HeadingLine(rules, items, j) && rules.category(LineAt(items, j)) == Some(cs[|cs| - 1].code)
  {
  }

  lemma CategoryAt(rules: Rules, items: seq<Item>, m: nat, v: ClauseValue) returns (j: nat)
    requires m < |items| && Emits(rules, items, m) && v in Given(rules, items, m)
    ensures j < m && HeadingLine(rules, items, j) && forall q :: j < q < m ==> !HeadingLine(rules, items, q)
    ensures rules.category(LineAt(items, j)) == Some(v.category)
  {
    GivenCategory(rules, items, m, v);
    j := LastCategory(rules, items, m);
    LastCode(rules, items, m, j, After(rules, items, m).categories);
  }

  /** A value is in the category of the latest heading before its line. */
  lemma ValueCategory(rules: Rules, items: seq<Item>, n: nat, v: ClauseValue) returns (m: nat, j: nat)
    requires n <= |items| && v in After(rules, items, n).values
    ensures j < m < n && v in Given(rules, items, m) && HeadingLine(rules, items, j)
    ensures forall q :: j < q < m ==> !HeadingLine(rules, items, q)
    ensures rules.category(LineAt(items, j)) == Some(v.category)
  {
    m := ValuePath(rules, items, n, v);
    j := CategoryAt(rules, items, m, v);
  }

  // ------------------------------------------------------------------ lines left unresolved

  /** A line with an amount or a reference before any category, and not a header. */
  predicate Stray(rules: Rules, items: seq<Item>, m: nat)
    requires m < |items|
  {
    var line := LineAt(items, m);
    && IsText(rules, line) && Speaks(rules, line)
    && !(rules.twoColumns(line).Some? && rules.amounts(line) == [])
    && !Begun(rules, items, m)
  }

  ghost predicate LeftAt(rules: Rules, items: seq<Item>, m: nat, u: Unresolved)
    requires m < |items|
  {
    Stray(rules, items, m) && u == Unresolved(items[m].page, items[m].line, Shortened(LineAt(items, m)))
  }

  lemma UnresolvedOf(rules: Rules, s: State, item: Item)
    ensures var line := Text.Strip(item.raw);
      Step(rules, s, item).unresolved == s.unresolved
        + if s.categories == [] && IsText(rules, line) && Speaks(rules, line)
            && !(rules.twoColumns(line).Some? && rules.amounts(line) == [])
          then [Unresolved(item.page, item.line, Shortened(line))] else []
  {
  }

  /** What line n adds to the unresolved lines. */
  function LeftBy(rules: Rules, items: seq<Item>, n: nat): seq<Unresolved>
    requires n < |items|
  {
    if Stray(rules, items, n) then [Unresolved(items[n].page, items[n].line, Shortened(LineAt(items, n)))] else []
  }

  lemma UnresolvedNext(rules: Rules, items: seq<Item>, n: nat)
    requires n < |items|
    ensures After(rules, items, n + 1).unresolved == After(rules, items, n).unresolved + LeftBy(rules, items, n)
  {
    UnresolvedOf(rules, After(rules, items, n), items[n]);
    BegunIs(rules, items, n);
  }

  /** What the first n lines leave. */
  function LeftAll(rules: Rules, items: seq<Item>, n: nat): seq<Unresolved>
    requires n <= |items|
  {
    if n == 0 then [] else LeftAll(rules, items, n - 1) + LeftBy(rules, items, n - 1)
  }

  lemma {:induction false} LeftAllIs(rules: Rules, items: seq<Item>, n: nat)
    requires n <= |items|
    ensures After(rules, items, n).unresolved == LeftAll(rules, items, n)
  {
    if n > 0 {
      LeftAllIs(rules, items, n - 1);
      UnresolvedNext(rules, items, n - 1);
    }
  }

  lemma {:induction false} LeftAllHas(rules: Rules, items: seq<Item>, n: nat, u: Unresolved)
    requires n <= |items|
    ensures u in LeftAll(rules, items, n) <==> exists m :: 0 <= m < n && LeftAt(rules, items, m, u)
  {
    if n > 0 {
      LeftAllHas(rules, items, n - 1, u);
      assert u in LeftBy(rules, items, n - 1) <==> LeftAt(rules, items, n - 1, u);
    }
  }

  /** The unresolved lines are exactly those, with their places and the first 200 characters of their text. */
  lemma UnresolvedExactly(rules: Rules, items: seq<Item>, n: nat, u: Unresolved)
    requires n <= |items|
    ensures u in After(rules, items, n).unresolved <==> exists m :: 0 <= m < n && LeftAt(rules, items, m, u)
  {
    LeftAllIs(rules, items, n);
    LeftAllHas(rules, items, n, u);
  }
}
