/** The number path of value normalisation: grouped decimals, brackets for negatives, and what is
    kept of them. */
module Numbers {
  import opened Basics
  import Text

  datatype State = Value | Zero | Unknown

  datatype Rule =
    | BracketedSecondaryValue | ParenthesisedNegative | StraySpace
    | IndianGrouping | WesternGrouping | IrregularGrouping
    | ZeroForm | Number | Unparsed

  datatype Flag = SecondaryValue(text: string) | StraySpaceInNumber | IrregularlyGrouped | UnparsedText

  datatype Normalised = Normalised(state: State, value: Option<string>, rules: seq<Rule>, flags: seq<Flag>)

  // ------------------------------------------------------------------ shapes of text

  predicate IsDigit(c: char) { '0' <= c <= '9' }

  predicate Digits(s: string) { s == "" || (IsDigit(s[0]) && Digits(s[1..])) }

  /** The text before the first c, and what follows it, if there is one. */
  function Cut(s: string, c: char): (r: (string, Option<string>))
    ensures |r.0| <= |s| && (r.1.Some? ==> |r.1.value| < |s|)
  {
    if s == "" then ("", None)
    else if s[0] == c then ("", Some(s[1..]))
    else
      var rest := Cut(s[1..], c);
      ([s[0]] + rest.0, rest.1)
  }

  function Split(s: string, c: char): (parts: seq<string>)
    ensures parts != []
    decreases |s|
  {
    var r := Cut(s, c);
    if r.1.None? then [r.0] else [r.0] + Split(r.1.value, c)
  }

  function Without(s: string, c: char): string {
    if s == "" then "" else (if s[0] == c then "" else [s[0]]) + Without(s[1..], c)
  }

  predicate DigitsOrCommas(s: string) { s == "" || ((IsDigit(s[0]) || s[0] == ',') && DigitsOrCommas(s[1..])) }

  /** An optional fraction: a point and at least one digit. */
  predicate Fraction(f: Option<string>) { f.None? || (f.value != "" && Digits(f.value)) }

  /** Digits and commas with an optional fraction. */
  predicate Loose(s: string) {
    var r := Cut(s, '.');
    r.0 != "" && DigitsOrCommas(r.0) && Fraction(r.1)
  }

  predicate Group(p: string, a: nat, b: nat) { a <= |p| <= b && Digits(p) }

  predicate Groups(parts: seq<string>, a: nat, b: nat)
  {
    parts == [] || (Group(parts[0], a, b) && Groups(parts[1..], a, b))
  }

  /** One to three digits and groups of two or three, or plain digits, or only a fraction. */
  predicate IsNumber(s: string) {
    var r := Cut(s, '.');
    var parts := Split(r.0, ',');
    Fraction(r.1) &&
    ((Group(parts[0], 1, 3) && Groups(parts[1..], 2, 3)) || (r.0 != "" && Digits(r.0)) || (r.0 == "" && r.1.Some?))
  }

  predicate IsIndian(s: string) {
    var r := Cut(s, '.');
    var parts := Split(r.0, ',');
    Fraction(r.1) && IndianParts(parts)
  }

  predicate IndianParts(parts: seq<string>) {
    |parts| >= 2 && Group(parts[0], 1, 2) && Groups(parts[1..|parts| - 1], 2, 2) && Group(parts[|parts| - 1], 3, 3)
  }

  predicate IsWestern(s: string) {
    var r := Cut(s, '.');
    var parts := Split(r.0, ',');
    Fraction(r.1) && WesternParts(parts)
  }

  predicate WesternParts(parts: seq<string>) { |parts| >= 2 && Group(parts[0], 1, 3) && Groups(parts[1..], 3, 3) }

  // ------------------------------------------------------------------ the path

  /** A number with a second one in brackets behind it. */
  function Bracketed(body: string): Option<(string, string)> {
    var r := Cut(body, '(');
    if r.1.None? || r.1.value == "" || r.1.value[|r.1.value| - 1] != ')' then None
    else
      var num, second := Text.DropTrailing(r.0), Text.Strip(r.1.value[..|r.1.value| - 1]);
      var bare := if second != "" && second[|second| - 1] == '%' then second[..|second| - 1] else second;
      if Loose(num) && Loose(bare) then Some((num, second)) else None
  }

  function InBrackets(body: string): Option<string> {
    if |body| < 2 || body[0] != '(' || body[|body| - 1] != ')' then None
    else
      var num := Text.Strip(body[1..|body| - 1]);
      if Loose(num) then Some(num) else None
  }

  function LeadingDigits(s: string): string {
    if s != "" && IsDigit(s[0]) then [s[0]] + LeadingDigits(s[1..]) else ""
  }

  /** Digits and a fraction with a space beside the point or in its place. */
  function Stray(body: string): Option<(string, string)> {
    var a := LeadingDigits(body);
    var r := if |a| <= |body| then body[|a|..] else "";
    var r1 := Text.DropLeading(r);
    var b := if r1 != "" then Text.DropLeading(r1[1..]) else "";
    if a == "" || r == "" then None
    else if |r1| < |r| && r1 != "" && r1[0] == '.' && b != "" && Digits(b) then Some((a, b))
    else if r[0] == '.' && |b| < |r| - 1 && b != "" && Digits(b) then Some((a, b))
    else if |r1| < |r| && |r1| == 2 && Digits(r1) then Some((a, r1))
    else None
  }

  predicate AllZero(s: string) { s == "" || ((s[0] == '0' || s[0] == '.') && AllZero(s[1..])) }

  /** The number itself, after an optional sign. */
  function FromCore(neg: bool, core: string, rules: seq<Rule>, flags: seq<Flag>): Normalised {
    if !IsNumber(core) then Normalised(Unknown, None, rules + [Unparsed], flags + [UnparsedText])
    else
      var grouped := ',' in core;
      var rules' :=
        if !grouped then rules
        else rules + [if IsIndian(core) then IndianGrouping else if IsWestern(core) then WesternGrouping
          else IrregularGrouping];
      var flags' := if grouped && !IsIndian(core) && !IsWestern(core) then flags + [IrregularlyGrouped] else flags;
      var bare := if grouped then Without(core, ',') else core;
      var digits := if bare != "" && bare[0] == '.' then "0" + bare else bare;
      Normalised(
        if AllZero(digits) then Zero else Value,
        Some((if neg then "-" else "") + digits),
        rules' + [if AllZero(digits) then ZeroForm else Number],
        flags')
  }

  function FromBody(body: string, rules: seq<Rule>, flags: seq<Flag>): Normalised {
    var s := Stray(body);
    var text := if s.Some? then s.value.0 + "." + s.value.1 else body;
    var rules' := if s.Some? then rules + [StraySpace] else rules;
    var flags' := if s.Some? then flags + [StraySpaceInNumber] else flags;
    var neg := text != "" && text[0] == '-';
    FromCore(neg, if neg then text[1..] else text, rules', flags')
  }

  /** What normalise_value makes of a body from which currency, unit and frequency words are gone. */
  function NormaliseNumber(body: string): Normalised {
    var b := Bracketed(body);
    var text := if b.Some? then b.value.0 else body;
    var rules := if b.Some? then [BracketedSecondaryValue] else [];
    var flags := if b.Some? then [SecondaryValue(b.value.1)] else [];
    var p := InBrackets(text);
    if p.Some? then FromBody("-" + p.value, rules + [ParenthesisedNegative], flags) else FromBody(text, rules, flags)
  }

  // ------------------------------------------------------------------ printing with grouping

  datatype Style = Plain | Indian | Western

  function Pairs(w: string): (parts: seq<string>)
    ensures parts != []
  {
    if |w| <= 2 then [w] else Pairs(w[..|w| - 2]) + [w[|w| - 2..]]
  }

  function Threes(w: string): (parts: seq<string>)
    ensures parts != []
  {
    if |w| <= 3 then [w] else Threes(w[..|w| - 3]) + [w[|w| - 3..]]
  }

  function Grouping(w: string, style: Style): (parts: seq<string>)
    ensures parts != []
  {
    match style
    case Plain => [w]
    case Indian => if |w| <= 3 then [w] else Pairs(w[..|w| - 3]) + [w[|w| - 3..]]
    case Western => Threes(w)
  }

  function Join(parts: seq<string>): string {
    if parts == [] then "" else if |parts| == 1 then parts[0] else parts[0] + "," + Join(parts[1..])
  }

  function Concat(parts: seq<string>): string { if parts == [] then "" else parts[0] + Concat(parts[1..]) }

  function WithFraction(whole: string, frac: string): string { if frac == "" then whole else whole + "." + frac }

  function Printed(whole: string, frac: string, style: Style, brackets: bool): string {
    var num := WithFraction(Join(Grouping(whole, style)), frac);
    if brackets then "(" + num + ")" else num
  }

  // ------------------------------------------------------------------ the parts of a printed number

  lemma {:induction false} GroupsAppend(parts: seq<string>, p: string, a: nat, b: nat)
    requires Groups(parts, a, b) && Group(p, a, b)
    ensures Groups(parts + [p], a, b)
  {
    if parts != [] {
      GroupsAppend(parts[1..], p, a, b);
      assert (parts + [p])[1..] == parts[1..] + [p];
    } else {
      assert parts + [p] == [p];
    }
  }

  lemma {:induction false} ConcatAppend(parts: seq<string>, p: string)
    ensures Concat(parts + [p]) == Concat(parts) + p
  {
    if parts != [] {
      ConcatAppend(parts[1..], p);
      assert (parts + [p])[1..] == parts[1..] + [p];
    } else {
      assert parts + [p] == [p];
    }
  }

  lemma {:induction false} DigitsSplit(w: string, k: nat)
    requires Digits(w) && k <= |w|
    ensures Digits(w[..k]) && Digits(w[k..])
    decreases k
  {
    if k > 0 {
      DigitsSplit(w[1..], k - 1);
      assert w[..k][1..] == w[1..][..k - 1] && w[k..] == w[1..][k - 1..];
    }
  }

  /** A first group of one to c digits, then groups of c. */
  ghost predicate Shape(parts: seq<string>, c: nat, whole: string) {
    parts != [] && Group(parts[0], 1, c) && Groups(parts[1..], c, c) && Concat(parts) == whole
  }

  lemma ShapeOne(w: string, c: nat)
    requires Digits(w) && 1 <= |w| <= c
    ensures Shape([w], c, w)
  {
    assert [w][1..] == [];
  }

  lemma ShapeAppend(parts: seq<string>, c: nat, front: string, p: string, whole: string)
    requires Shape(parts, c, front) && Group(p, c, c) && whole == front + p
    ensures Shape(parts + [p], c, whole)
  {
    GroupsAppend(parts[1..], p, c, c);
    assert (parts + [p])[1..] == parts[1..] + [p];
    ConcatAppend(parts, p);
  }

  lemma {:induction false} PairsShape(w: string)
    requires Digits(w) && w != ""
    ensures Shape(Pairs(w), 2, w)
    decreases |w|
  {
    if |w| <= 2 {
      ShapeOne(w, 2);
    } else {
      DigitsSplit(w, |w| - 2);
      PairsShape(w[..|w| - 2]);
      ShapeAppend(Pairs(w[..|w| - 2]), 2, w[..|w| - 2], w[|w| - 2..], w);
    }
  }

  lemma {:induction false} ThreesShape(w: string)
    requires Digits(w) && w != ""
    ensures Shape(Threes(w), 3, w)
    decreases |w|
  {
    if |w| <= 3 {
      ShapeOne(w, 3);
    } else {
      DigitsSplit(w, |w| - 3);
      ThreesShape(w[..|w| - 3]);
      ShapeAppend(Threes(w[..|w| - 3]), 3, w[..|w| - 3], w[|w| - 3..], w);
    }
  }

  lemma {:induction false} GroupsWiden(parts: seq<string>, a: nat, b: nat, a': nat, b': nat)
    requires Groups(parts, a, b) && a' <= a && b <= b'
    ensures Groups(parts, a', b')
  {
    if parts != [] { GroupsWiden(parts[1..], a, b, a', b'); }
  }

  /** What a grouping is: its parts are the digits, and are recognised. */
  ghost predicate Recognised(parts: seq<string>, whole: string) {
    && parts != [] && Concat(parts) == whole && Groups(parts, 1, |whole|)
    && (|parts| > 1 ==>
         && Group(parts[0], 1, 3) && Groups(parts[1..], 2, 3)
         && (IndianParts(parts) || WesternParts(parts)))
  }

  lemma ShapeGroups(parts: seq<string>, c: nat, whole: string)
    requires 2 <= c <= 3 && Shape(parts, c, whole)
    ensures Group(parts[0], 1, 3) && Groups(parts[1..], 2, 3)
  {
    GroupsWiden(parts[1..], c, c, 2, 3);
  }

  lemma {:induction false} PartsFit(parts: seq<string>, n: nat)
    requires Groups(parts, 1, 3) && |Concat(parts)| <= n
    ensures Groups(parts, 1, n)
  {
    if parts != [] { PartsFit(parts[1..], n); }
  }

  lemma WesternRecognised(w: string)
    requires Digits(w) && w != ""
    ensures Recognised(Threes(w), w)
  {
    var parts := Threes(w);
    ThreesShape(w);
    ShapeGroups(parts, 3, w);
    GroupsWiden(parts[1..], 2, 3, 1, 3);
    PartsFit(parts, |w|);
  }

  lemma IndianShape(pairs: seq<string>, front: string, last: string)
    requires Shape(pairs, 2, front) && Group(last, 3, 3)
    ensures var parts := pairs + [last];
      Concat(parts) == front + last && Group(parts[0], 1, 2) && Groups(parts[1..], 2, 3) && IndianParts(parts)
  {
    var parts := pairs + [last];
    ConcatAppend(pairs, last);
    GroupsWiden(pairs[1..], 2, 2, 2, 3);
    GroupsAppend(pairs[1..], last, 2, 3);
    assert parts[1..] == pairs[1..] + [last];
    assert parts[1..|parts| - 1] == pairs[1..];
  }

  lemma IndianRecognised(w: string)
    requires Digits(w) && |w| > 3
    ensures Recognised(Pairs(w[..|w| - 3]) + [w[|w| - 3..]], w)
  {
    var front, last := w[..|w| - 3], w[|w| - 3..];
    var parts := Pairs(front) + [last];
    DigitsSplit(w, |w| - 3);
    PairsShape(front);
    IndianShape(Pairs(front), front, last);
    GroupsWiden(parts[1..], 2, 3, 1, 3);
    PartsFit(parts, |w|);
  }

  lemma GroupingRecognised(w: string, style: Style)
    requires Digits(w) && w != ""
    ensures Recognised(Grouping(w, style), w)
  {
    if style == Plain || (style == Indian && |w| <= 3) {
      assert Concat([w]) == w by { assert [w][1..] == []; }
    } else if style == Indian {
      IndianRecognised(w);
    } else {
      WesternRecognised(w);
    }
  }

  // ------------------------------------------------------------------ taking a printed number apart

  predicate Free(s: string, c: char) { c !in s }

  lemma {:induction false} DigitsFree(s: string, c: char)
    requires Digits(s) && !IsDigit(c)
    ensures Free(s, c)
  {
    if s != "" {
      DigitsFree(s[1..], c);
      assert s == [s[0]] + s[1..];
    }
  }

  lemma {:induction false} CutFree(s: string, c: char, t: string)
    requires Free(s, c)
    ensures Cut(s + [c] + t, c) == (s, Some(t)) && Cut(s, c) == (s, None)
    decreases |s|
  {
    if s != "" {
      assert Free(s[1..], c);
      CutFree(s[1..], c, t);
      assert (s + [c] + t)[1..] == s[1..] + [c] + t;
      assert [s[0]] + s[1..] == s;
    } else {
      assert s + [c] + t == [c] + t;
    }
  }

  lemma {:induction false} SplitJoin(parts: seq<string>, a: nat, b: nat)
    requires parts != [] && Groups(parts, a, b)
    ensures Split(Join(parts), ',') == parts
    decreases |parts|
  {
    DigitsFree(parts[0], ',');
    if |parts| == 1 {
      CutFree(parts[0], ',', "");
      assert parts == [parts[0]];
    } else {
      CutFree(parts[0], ',', Join(parts[1..]));
      SplitJoin(parts[1..], a, b);
    }
  }

  lemma {:induction false} WithoutFree(s: string, c: char, t: string)
    requires Free(s, c)
    ensures Without(s + t, c) == s + Without(t, c)
    decreases |s|
  {
    if s == "" {
      assert s + t == t;
    } else {
      assert Free(s[1..], c);
      WithoutFree(s[1..], c, t);
      assert (s + t)[1..] == s[1..] + t;
    }
  }

  lemma {:induction false} WithoutJoin(parts: seq<string>, a: nat, b: nat, rest: string)
    requires parts != [] && Groups(parts, a, b) && Free(rest, ',')
    ensures Without(Join(parts) + rest, ',') == Concat(parts) + rest
    decreases |parts|
  {
    DigitsFree(parts[0], ',');
    if |parts| == 1 {
      WithoutLast(parts[0], rest);
      assert Concat(parts) == parts[0] by { assert parts[1..] == []; }
    } else {
      WithoutJoin(parts[1..], a, b, rest);
      WithoutMore(parts[0], Join(parts[1..]), Concat(parts[1..]), rest);
    }
  }

  lemma WithoutLast(p: string, rest: string)
    requires Free(p, ',') && Free(rest, ',')
    ensures Without(p + rest, ',') == p + rest
  {
    WithoutFree(p, ',', rest);
    WithoutFree(rest, ',', "");
    assert rest + "" == rest;
  }

  lemma WithoutMore(p: string, joined: string, concat: string, rest: string)
    requires Free(p, ',') && Without(joined + rest, ',') == concat + rest
    ensures Without(p + "," + joined + rest, ',') == p + concat + rest
  {
    var tail := "," + (joined + rest);
    assert p + "," + joined + rest == p + tail;
    WithoutFree(p, ',', tail);
    assert tail[1..] == joined + rest;
    assert p + (concat + rest) == p + concat + rest;
  }

  /** Only digits and commas, so neither point nor bracket nor sign nor space. */
  lemma {:induction false} JoinLoose(parts: seq<string>, a: nat, b: nat)
    requires parts != [] && Groups(parts, a, b) && a >= 1
    ensures DigitsOrCommas(Join(parts)) && Join(parts) != "" && IsDigit(Join(parts)[0])
    ensures ',' in Join(parts) <==> |parts| > 1
    decreases |parts|
  {
    DigitsLoose(parts[0], "");
    assert parts[0] + "" == parts[0];
    if |parts| == 1 {
      DigitsFree(parts[0], ',');
    } else {
      JoinLoose(parts[1..], a, b);
      var tail := "," + Join(parts[1..]);
      assert tail[1..] == Join(parts[1..]);
      DigitsLoose(parts[0], tail);
      assert Join(parts) == parts[0] + tail;
      assert Join(parts)[|parts[0]|] == ',';
    }
  }

  lemma {:induction false} DigitsLoose(s: string, tail: string)
    requires Digits(s) && DigitsOrCommas(tail)
    ensures DigitsOrCommas(s + tail)
    decreases |s|
  {
    if s == "" {
      assert s + tail == tail;
    } else {
      DigitsLoose(s[1..], tail);
      assert (s + tail)[1..] == s[1..] + tail;
    }
  }

  lemma {:induction false} LooseFree(s: string, c: char)
    requires DigitsOrCommas(s) && !IsDigit(c) && c != ','
    ensures Free(s, c)
  {
    if s != "" {
      LooseFree(s[1..], c);
      assert s == [s[0]] + s[1..];
    }
  }

  // ------------------------------------------------------------------ no spaces, no brackets inside

  /** Only digits, commas and points. */
  predicate Bare(s: string) { s == "" || ((IsDigit(s[0]) || s[0] == ',' || s[0] == '.') && Bare(s[1..])) }

  lemma {:induction false} BareAt(s: string, k: nat)
    requires Bare(s) && k < |s|
    ensures IsDigit(s[k]) || s[k] == ',' || s[k] == '.'
    ensures Bare(s[k..])
    decreases k
  {
    if k > 0 {
      BareAt(s[1..], k - 1);
      assert s[1..][k - 1..] == s[k..];
    } else {
      assert s[0..] == s;
    }
  }

  lemma {:induction false} LooseIsBare(s: string, tail: string)
    requires DigitsOrCommas(s) && Bare(tail)
    ensures Bare(s + tail)
    decreases |s|
  {
    if s == "" {
      assert s + tail == tail;
    } else {
      LooseIsBare(s[1..], tail);
      assert (s + tail)[1..] == s[1..] + tail;
    }
  }

  lemma BareStrip(s: string)
    requires Bare(s)
    ensures Text.DropLeading(s) == s && Text.DropTrailing(s) == s
  {
    if s != "" { BareAt(s, |s| - 1); }
  }

  lemma {:induction false} LeadingShort(s: string)
    ensures |LeadingDigits(s)| <= |s|
  {
    if s != "" && IsDigit(s[0]) { LeadingShort(s[1..]); }
  }

  lemma NotStray(s: string)
    requires Bare(s)
    ensures Stray(s) == None
  {
    LeadingShort(s);
    var k := |LeadingDigits(s)|;
    if k < |s| {
      BareAt(s, k);
      BareStrip(s[k..]);
      if k + 1 < |s| {
        BareAt(s, k + 1);
        BareStrip(s[k + 1..]);
      }
      assert s[k..][1..] == s[k + 1..];
    }
  }

  lemma {:induction false} BareFree(s: string, c: char)
    requires Bare(s) && !IsDigit(c) && c != ',' && c != '.'
    ensures Free(s, c)
  {
    if s != "" {
      BareFree(s[1..], c);
      assert s == [s[0]] + s[1..];
    }
  }

  // ------------------------------------------------------------------ the theorem

  function Tail(frac: string): string { if frac == "" then "" else "." + frac }

  lemma PrintedIs(parts: seq<string>, frac: string)
    ensures WithFraction(Join(parts), frac) == Join(parts) + Tail(frac)
  {
  }

  /** A printed number holds no bracket, sign or space, and starts with a digit. */
  lemma PrintedBare(whole: string, frac: string, parts: seq<string>)
    requires Digits(frac) && Recognised(parts, whole)
    ensures var num := Join(parts) + Tail(frac); Bare(num) && num != "" && IsDigit(num[0])
  {
    JoinLoose(parts, 1, |whole|);
    TailBare(frac);
    LooseIsBare(Join(parts), Tail(frac));
  }

  /** Its point, if any, is found, and its groups. */
  lemma PrintedCut(whole: string, frac: string, parts: seq<string>)
    requires Digits(frac) && Recognised(parts, whole)
    ensures Cut(Join(parts) + Tail(frac), '.') == (Join(parts), if frac == "" then None else Some(frac))
    ensures Split(Join(parts), ',') == parts
  {
    JoinLoose(parts, 1, |whole|);
    SplitJoin(parts, 1, |whole|);
    LooseFree(Join(parts), '.');
    CutFree(Join(parts), '.', frac);
    if frac == "" {
      assert Join(parts) + Tail(frac) == Join(parts);
    } else {
      assert Join(parts) + Tail(frac) == Join(parts) + ['.'] + frac;
    }
  }

  /** Its digits stay when the commas go. */
  lemma PrintedDigits(whole: string, frac: string, parts: seq<string>)
    requires Digits(frac) && Recognised(parts, whole)
    ensures var num := Join(parts) + Tail(frac);
      Without(num, ',') == whole + Tail(frac) && (',' in num <==> |parts| > 1)
  {
    JoinLoose(parts, 1, |whole|);
    TailBare(frac);
    WithoutJoin(parts, 1, |whole|, Tail(frac));
  }

  lemma TailBare(frac: string)
    requires Digits(frac)
    ensures Bare(Tail(frac)) && Free(Tail(frac), ',')
  {
    DigitsLoose(frac, "");
    assert frac + "" == frac;
    LooseIsBare(frac, "");
    DigitsFree(frac, ',');
    assert frac != "" ==> Tail(frac)[1..] == frac;
  }

  lemma AlonePart(parts: seq<string>, whole: string)
    requires Recognised(parts, whole) && |parts| == 1
    ensures Join(parts) == whole
  {
    assert parts == [parts[0]];
    assert Concat([parts[0]]) == parts[0] by { assert [parts[0]][1..] == []; }
  }

  lemma PrintedIsNumber(whole: string, frac: string, parts: seq<string>)
    requires Digits(whole) && whole != "" && Digits(frac) && Recognised(parts, whole)
    ensures var num := Join(parts) + Tail(frac); IsNumber(num) && (|parts| > 1 ==> IsIndian(num) || IsWestern(num))
  {
    PrintedCut(whole, frac, parts);
    if |parts| == 1 { AlonePart(parts, whole); }
  }

  lemma FromCoreIs(neg: bool, core: string, digits: string, rules: seq<Rule>)
    requires IsNumber(core) && core != "" && IsDigit(core[0]) && digits != "" && IsDigit(digits[0])
    requires Without(core, ',') == digits && (',' !in core ==> core == digits)
    requires ',' in core ==> IsIndian(core) || IsWestern(core)
    requires IrregularGrouping !in rules
    ensures var r := FromCore(neg, core, rules, []);
      && r.value == Some((if neg then "-" else "") + digits) && r.flags == []
      && r.state == (if AllZero(digits) then Zero else Value) && IrregularGrouping !in r.rules
  {
  }

  /** The core keeps the digits, whatever the grouping. */
  lemma CoreReadsBack(whole: string, frac: string, parts: seq<string>, neg: bool, rules: seq<Rule>)
    requires Digits(whole) && whole != "" && Digits(frac) && Recognised(parts, whole) && IrregularGrouping !in rules
    ensures var digits := whole + Tail(frac); var r := FromCore(neg, Join(parts) + Tail(frac), rules, []);
      && r.value == Some((if neg then "-" else "") + digits) && r.flags == []
      && r.state == (if AllZero(digits) then Zero else Value) && IrregularGrouping !in r.rules
  {
    PrintedBare(whole, frac, parts);
    PrintedDigits(whole, frac, parts);
    PrintedIsNumber(whole, frac, parts);
    if |parts| == 1 { AlonePart(parts, whole); }
    FromCoreIs(neg, Join(parts) + Tail(frac), whole + Tail(frac), rules);
  }

  lemma NoBrackets(num: string)
    requires Bare(num) && num != "" && IsDigit(num[0])
    ensures NormaliseNumber(num) == FromCore(false, num, [], [])
  {
    BareFree(num, '(');
    CutFree(num, '(', "");
    NotStray(num);
  }

  lemma NotSecondary(num: string)
    ensures Bracketed("(" + num + ")") == None
  {
    assert "(" + num + ")" == "" + ['('] + (num + ")");
    CutFree("", '(', num + ")");
  }

  lemma InBracketsIs(num: string)
    requires Bare(num) && Loose(num)
    ensures InBrackets("(" + num + ")") == Some(num)
  {
    BareStrip(num);
    var body := "(" + num + ")";
    assert body[1..|body| - 1] == num;
  }

  lemma Signed(num: string, rules: seq<Rule>)
    ensures FromBody("-" + num, rules, []) == FromCore(true, num, rules, [])
  {
    assert ("-" + num)[1..] == num;
  }

  lemma WithBrackets(num: string)
    requires Bare(num) && Loose(num)
    ensures NormaliseNumber("(" + num + ")") == FromCore(true, num, [ParenthesisedNegative], [])
  {
    var body := "(" + num + ")";
    NotSecondary(num);
    InBracketsIs(num);
    assert NormaliseNumber(body) == FromBody("-" + num, [] + [ParenthesisedNegative], []);
    assert [] + [ParenthesisedNegative] == [ParenthesisedNegative];
    Signed(num, [ParenthesisedNegative]);
  }

  lemma PrintedLoose(whole: string, frac: string, parts: seq<string>)
    requires Digits(frac) && Recognised(parts, whole)
    ensures Loose(Join(parts) + Tail(frac))
  {
    JoinLoose(parts, 1, |whole|);
    PrintedCut(whole, frac, parts);
  }

  /** A decimal printed plainly, or in Indian or western grouping, and in brackets when negative,
      comes back with the same digits and sign, as zero exactly when all its digits are zero, and
      is never called irregular. */
  lemma GroupedDecimalReadsBack(whole: string, frac: string, style: Style, brackets: bool)
    requires Digits(whole) && whole != "" && Digits(frac)
    ensures var digits := whole + Tail(frac); var r := NormaliseNumber(Printed(whole, frac, style, brackets));
      && r.value == Some((if brackets then "-" else "") + digits) && r.flags == []
      && r.state == (if AllZero(digits) then Zero else Value)
      && IrregularGrouping !in r.rules
  {
    var parts := Grouping(whole, style);
    GroupingRecognised(whole, style);
    PrintedIs(parts, frac);
    PrintedBare(whole, frac, parts);
    if brackets {
      PrintedLoose(whole, frac, parts);
      WithBrackets(Join(parts) + Tail(frac));
      CoreReadsBack(whole, frac, parts, true, [ParenthesisedNegative]);
    } else {
      NoBrackets(Join(parts) + Tail(frac));
      CoreReadsBack(whole, frac, parts, false, []);
    }
  }
}
