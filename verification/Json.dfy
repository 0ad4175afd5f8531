/** JSON text as Python's json module reads it, and the text it prints without escaping
    non-ASCII (sections 2 to 7 of RFC 8259, plus NaN and the infinities that Python accepts).
    A text is a sequence of code points, so a lone surrogate is an ordinary element. */
module Json {

  type Text = seq<int>

  datatype Word = NullWord | TrueWord | FalseWord | NaNWord | InfinityWord | MinusInfinityWord

  datatype Member = Member(key: Text, value: Json)

  datatype Json =
    | JWord(word: Word)
    | JNumber(lexeme: Text)
    | JStr(str: Text)
    | JArr(items: seq<Json>)
    | JObj(members: seq<Member>)

  datatype Parse<T> = Fail | Ok(value: T, end: nat)

  const QUOTE := 34
  const COMMA := 44
  const MINUS := 45
  const DOT := 46
  const COLON := 58
  const LBRACKET := 91
  const BACKSLASH := 92
  const RBRACKET := 93
  const LOWER_U := 117
  const LBRACE := 123
  const RBRACE := 125

  const WORDS := [NullWord, TrueWord, FalseWord, NaNWord, InfinityWord, MinusInfinityWord]

  function WordText(w: Word): (t: Text)
    ensures |t| >= 2 && !IsDigit(t[0]) && !IsDigit(t[1])
  {
    match w
    case NullWord => [110, 117, 108, 108]
    case TrueWord => [116, 114, 117, 101]
    case FalseWord => [102, 97, 108, 115, 101]
    case NaNWord => [78, 97, 78]
    case InfinityWord => [73, 110, 102, 105, 110, 105, 116, 121]
    case MinusInfinityWord => [45, 73, 110, 102, 105, 110, 105, 116, 121]
  }

  // ------------------------------------------------------------------ characters

  const SPACES: seq<int> := [32, 9, 10, 13]

  predicate IsJsonSpace(c: int) { c in SPACES }

  predicate IsDigit(c: int) { 48 <= c <= 57 }

  predicate IsHex(c: int) { IsDigit(c) || 65 <= c <= 70 || 97 <= c <= 102 }

  function HexValue(c: int): int { if IsDigit(c) then c - 48 else if c <= 70 then c - 55 else c - 87 }

  /** The text `p` stands in `t` from position i on. */
  predicate At(t: Text, i: nat, p: Text)
    ensures At(t, i, p) ==> i + |p| <= |t|
    decreases |p|
  {
    if p == [] then i <= |t| else i < |t| && t[i] == p[0] && At(t, i + 1, p[1..])
  }

  function SkipSpace(s: Text, i: nat): (j: nat)
    requires i <= |s|
    ensures i <= j <= |s| && (j < |s| ==> !IsJsonSpace(s[j]))
    decreases |s| - i
  {
    if i < |s| && IsJsonSpace(s[i]) then SkipSpace(s, i + 1) else i
  }

  // ------------------------------------------------------------------ numbers

  function DigitsEnd(s: Text, i: nat): (j: nat)
    requires i <= |s|
    ensures i <= j <= |s| && (j < |s| ==> !IsDigit(s[j]))
    decreases |s| - i
  {
    if i < |s| && IsDigit(s[i]) then DigitsEnd(s, i + 1) else i
  }

  /** End of the integer part at i, or i itself when there is none. */
  function IntEnd(s: Text, i: nat): (j: nat)
    requires i <= |s|
    ensures i <= j <= |s|
  {
    if i < |s| && s[i] == 48 then i + 1 else DigitsEnd(s, i)
  }

  function FracEnd(s: Text, i: nat): (j: nat)
    requires i <= |s|
    ensures i <= j <= |s|
  {
    if i + 1 < |s| && s[i] == DOT && IsDigit(s[i + 1]) then DigitsEnd(s, i + 1) else i
  }

  function ExpEnd(s: Text, i: nat): (j: nat)
    requires i <= |s|
    ensures i <= j <= |s|
  {
    if i < |s| && (s[i] == 69 || s[i] == 101) then
      var k := if i + 1 < |s| && (s[i + 1] == 43 || s[i + 1] == 45) then i + 2 else i + 1;
      if k < |s| && IsDigit(s[k]) then DigitsEnd(s, k) else i
    else i
  }

  /** End of the longest number at the start of u (sign, integer part, fraction, exponent), or 0. */
  function NumberEnd(u: Text): (e: nat)
    ensures e <= |u|
  {
    var start := if 0 < |u| && u[0] == MINUS then 1 else 0;
    var whole := IntEnd(u, start);
    if whole == start then 0 else ExpEnd(u, FracEnd(u, whole))
  }

  function ParseNumber(s: Text, i: nat): (r: Parse<Text>)
    requires i <= |s|
    ensures r.Ok? ==> i < r.end <= |s| && r.value == s[i..r.end]
  {
    var e := NumberEnd(s[i..]);
    if e == 0 then Fail else Ok(s[i..i + e], i + e)
  }

  /** A number cannot go on at position i. */
  predicate Stops(t: Text, i: nat) {
    i >= |t| || !(IsDigit(t[i]) || t[i] == DOT || t[i] == 69 || t[i] == 101)
  }

  // ------------------------------------------------------------------ strings

  function SimpleEscape(c: int): int {
    if c in {34, 92, 47} then c
    else if c == 98 then 8 else if c == 102 then 12 else if c == 110 then 10
    else if c == 114 then 13 else if c == 116 then 9 else -1
  }

  /** The number written by n hex digits at i, or -1. */
  function Hex(s: Text, i: nat, n: nat): (u: int)
    ensures u >= 0 ==> i + n <= |s|
  {
    if n == 0 then (if i <= |s| then 0 else -1)
    else
      var front := Hex(s, i, n - 1);
      if front >= 0 && i + n <= |s| && IsHex(s[i + n - 1]) then 16 * front + HexValue(s[i + n - 1]) else -1
  }

  predicate IsHigh(u: int) { 0xd800 <= u <= 0xdbff }

  predicate IsLow(u: int) { 0xdc00 <= u <= 0xdfff }

  /** The low half of a surrogate pair escaped at i, or -1. */
  function LowHalf(s: Text, i: nat): (low: int)
    ensures low >= 0 ==> i + 6 <= |s|
  {
    if i + 2 <= |s| && s[i] == BACKSLASH && s[i + 1] == LOWER_U && IsLow(Hex(s, i + 2, 4)) then Hex(s, i + 2, 4) else -1
  }

  /** The rest of a string literal from i on; control characters are refused. */
  function ParseString(s: Text, i: nat): (r: Parse<Text>)
    requires i <= |s|
    ensures r.Ok? ==> i < r.end <= |s|
    decreases |s| - i, 1
  {
    if i >= |s| then Fail
    else if s[i] == QUOTE then Ok([], i + 1)
    else if s[i] == BACKSLASH then ParseEscaped(s, i)
    else if s[i] < 32 then Fail
    else
      var rest := ParseString(s, i + 1);
      if rest.Fail? then Fail else Ok([s[i]] + rest.value, rest.end)
  }

  /** The same from a backslash on: two escaped halves of a surrogate pair are one code point. */
  function ParseEscaped(s: Text, i: nat): (r: Parse<Text>)
    requires i < |s|
    ensures r.Ok? ==> i < r.end <= |s|
    decreases |s| - i, 0
  {
    if i + 1 >= |s| then Fail
    else if s[i + 1] != LOWER_U then
      var rest := ParseString(s, i + 2);
      if SimpleEscape(s[i + 1]) < 0 || rest.Fail? then Fail else Ok([SimpleEscape(s[i + 1])] + rest.value, rest.end)
    else
      var u := Hex(s, i + 2, 4);
      if u < 0 then Fail
      else
        var low := if IsHigh(u) then LowHalf(s, i + 6) else -1;
        var rest := ParseString(s, if low >= 0 then i + 12 else i + 6);
        if rest.Fail? then Fail
        else Ok([if low >= 0 then 0x10000 + (u - 0xd800) * 0x400 + (low - 0xdc00) else u] + rest.value, rest.end)
  }

  // ------------------------------------------------------------------ values

  /** A dict keeps the place of the first and the value of the last of equal keys. */
  function Put(members: seq<Member>, m: Member): seq<Member> {
    if members == [] then [m]
    else if members[0].key == m.key then [m] + members[1..]
    else [members[0]] + Put(members[1..], m)
  }

  function DictOf(done: seq<Member>, pairs: seq<Member>): seq<Member>
    decreases |pairs|
  {
    if pairs == [] then done else DictOf(Put(done, pairs[0]), pairs[1..])
  }

  function Values(members: seq<Member>): (r: seq<Json>)
    ensures |r| == |members|
  {
    if members == [] then [] else [members[0].value] + Values(members[1..])
  }

  function Close(keyed: bool): int { if keyed then RBRACE else RBRACKET }

  /** One value with its first character at i; nothing is skipped before it. */
  function ParseValue(s: Text, i: nat): (r: Parse<Json>)
    requires i <= |s|
    ensures r.Ok? ==> i < r.end <= |s|
    decreases |s| - i, 0
  {
    if i >= |s| then Fail
    else if s[i] == QUOTE then
      var t := ParseString(s, i + 1);
      if t.Fail? then Fail else Ok(JStr(t.value), t.end)
    else if s[i] == LBRACE || s[i] == LBRACKET then
      var body := ParseBody(s, i + 1, s[i] == LBRACE);
      if body.Fail? then Fail
      else Ok(if s[i] == LBRACE then JObj(DictOf([], body.value)) else JArr(Values(body.value)), body.end)
    else ParseAtom(s, i, WORDS)
  }

  /** A word or a number.  No word is the start of another or of a number, so the order does not matter. */
  function ParseAtom(s: Text, i: nat, words: seq<Word>): (r: Parse<Json>)
    requires i <= |s|
    ensures r.Ok? ==> i < r.end <= |s| && (r.value.JWord? || r.value.JNumber?)
    decreases |words|
  {
    if words == [] then
      var n := ParseNumber(s, i);
      if n.Ok? then Ok(JNumber(n.value), n.end) else Fail
    else if At(s, i, WordText(words[0])) then Ok(JWord(words[0]), i + |WordText(words[0])|)
    else ParseAtom(s, i, words[1..])
  }

  /** The inside of an object (keyed) or of an array, after its opening bracket.  The elements
      of an array are kept as members with an empty key. */
  function ParseBody(s: Text, i: nat, keyed: bool): (r: Parse<seq<Member>>)
    requires i <= |s|
    ensures r.Ok? ==> i < r.end <= |s|
    decreases |s| - i, 3
  {
    var j := SkipSpace(s, i);
    if j < |s| && s[j] == Close(keyed) then Ok([], j + 1) else ParseMembers(s, j, keyed)
  }

  function ParseMembers(s: Text, i: nat, keyed: bool): (r: Parse<seq<Member>>)
    requires i <= |s|
    ensures r.Ok? ==> i < r.end <= |s|
    decreases |s| - i, 2
  {
    var m := ParseMember(s, i, keyed);
    if m.Fail? then Fail
    else
      var rest := ParseRest(s, m.end, keyed);
      if rest.Fail? then Fail else Ok([m.value] + rest.value, rest.end)
  }

  /** What follows a member: the closing bracket, or a comma and more members. */
  function ParseRest(s: Text, i: nat, keyed: bool): (r: Parse<seq<Member>>)
    requires i <= |s|
    ensures r.Ok? ==> i < r.end <= |s|
    decreases |s| - i, 3
  {
    var j := SkipSpace(s, i);
    if j >= |s| then Fail
    else if s[j] == Close(keyed) then Ok([], j + 1)
    else if s[j] == COMMA then ParseMembers(s, SkipSpace(s, j + 1), keyed)
    else Fail
  }

  /** An element, or a key that starts at i with its colon and value. */
  function ParseMember(s: Text, i: nat, keyed: bool): (r: Parse<Member>)
    requires i <= |s|
    ensures r.Ok? ==> i < r.end <= |s|
    decreases |s| - i, 1
  {
    var k := if keyed then ParseKey(s, i) else Ok([], i);
    if k.Fail? then Fail
    else
      var v := ParseValue(s, k.end);
      if v.Fail? then Fail else Ok(Member(k.value, v.value), v.end)
  }

  /** A key, its colon and the white space after it. */
  function ParseKey(s: Text, i: nat): (r: Parse<Text>)
    requires i <= |s|
    ensures r.Ok? ==> i < r.end <= |s|
  {
    if i >= |s| || s[i] != QUOTE then Fail
    else
      var k := ParseString(s, i + 1);
      if k.Fail? then Fail
      else
        var j := SkipSpace(s, k.end);
        if j < |s| && s[j] == COLON then Ok(k.value, SkipSpace(s, j + 1)) else Fail
  }

  /** json.loads: one value with white space around it and nothing else. */
  function Loads(s: Text): Parse<Json> {
    var v := ParseValue(s, SkipSpace(s, 0));
    if v.Ok? && SkipSpace(s, v.end) == |s| then v else Fail
  }
}
