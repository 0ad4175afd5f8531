/** Printing JSON as Python's json.dumps does with ensure_ascii off, and reading it back. */
module JsonPrint {
  import opened Json
  import opened JsonLaws

  // ------------------------------------------------------------------ printing

  function HexDigit(n: int): int { if n < 10 then 48 + n else 87 + n }

  function Escape(c: int): (e: Text)
    ensures |e| >= 1
  {
    if c == QUOTE || c == BACKSLASH then [BACKSLASH, c]
    else if c == 10 then [BACKSLASH, 110] else if c == 13 then [BACKSLASH, 114]
    else if c == 9 then [BACKSLASH, 116] else if c == 8 then [BACKSLASH, 98]
    else if c == 12 then [BACKSLASH, 102]
    else if c < 32 then [BACKSLASH, LOWER_U, 48, 48, HexDigit(c / 16), HexDigit(c % 16)]
    else [c]
  }

  function Chars(str: Text): Text { if str == [] then [] else Escape(str[0]) + Chars(str[1..]) }

  function Quoted(str: Text): Text { [QUOTE] + Chars(str) + [QUOTE] }

  function Print(v: Json): Text
    decreases v
  {
    match v
    case JWord(w) => WordText(w)
    case JNumber(lexeme) => lexeme
    case JStr(str) => Quoted(str)
    case JArr(items) => [LBRACKET] + PrintItems(items) + [RBRACKET]
    case JObj(members) => [LBRACE] + PrintMembers(members) + [RBRACE]
  }

  const GAP: Text := [COMMA, 32]

  function PrintItems(items: seq<Json>): Text
    decreases items, 0
  {
    if items == [] then [] else Print(items[0]) + MoreItems(items[1..])
  }

  function MoreItems(items: seq<Json>): Text
    decreases items, 1
  {
    if items == [] then [] else GAP + PrintItems(items)
  }

  function PrintMember(m: Member): Text
    decreases m
  {
    Quoted(m.key) + ([COLON, 32] + Print(m.value))
  }

  function PrintMembers(members: seq<Member>): Text
    decreases members, 0
  {
    if members == [] then [] else PrintMember(members[0]) + MoreMembers(members[1..])
  }

  function MoreMembers(members: seq<Member>): Text
    decreases members, 1
  {
    if members == [] then [] else GAP + PrintMembers(members)
  }

  // ------------------------------------------------------------------ values that json.dumps is given

  predicate IsText(str: Text) { forall k :: 0 <= k < |str| ==> str[k] >= 0 }

  predicate IsNumber(lexeme: Text) { NumberEnd(lexeme) == |lexeme| > 0 }

  /** A number is one number, the keys of an object are distinct. */
  predicate Sound(v: Json)
    decreases v
  {
    match v
    case JWord(_) => true
    case JNumber(lexeme) => IsNumber(lexeme)
    case JStr(str) => IsText(str)
    case JArr(items) => SoundItems(items)
    case JObj(members) => SoundMembers(members) && DistinctKeys(members)
  }

  predicate SoundItems(items: seq<Json>)
    decreases items
  {
    items == [] || (Sound(items[0]) && SoundItems(items[1..]))
  }

  predicate SoundMembers(members: seq<Member>)
    decreases members
  {
    members == [] || (IsText(members[0].key) && Sound(members[0].value) && SoundMembers(members[1..]))
  }

  predicate DistinctKeys(members: seq<Member>) {
    forall a, b :: 0 <= a < b < |members| ==> members[a].key != members[b].key
  }

  // ------------------------------------------------------------------ reading strings back

  lemma {:induction false} AtFront(t: Text, i: nat, p: Text, q: Text)
    requires At(t, i, p + q)
    ensures At(t, i, p) && At(t, i + |p|, q)
    decreases |p|
  {
    if p == [] {
      assert p + q == q;
    } else {
      assert (p + q)[1..] == p[1..] + q;
      AtFront(t, i + 1, p[1..], q);
    }
  }

  lemma {:induction false} AtIndex(t: Text, i: nat, p: Text, k: nat)
    requires At(t, i, p) && k < |p|
    ensures t[i + k] == p[k]
    decreases k
  {
    if k > 0 { AtIndex(t, i + 1, p[1..], k - 1); }
  }

  lemma {:induction false} AtWhole(t: Text, i: nat, p: Text)
    requires i + |p| <= |t|
    ensures At(t, i, p) <==> t[i..i + |p|] == p
    decreases |p|
  {
    if p != [] {
      AtWhole(t, i + 1, p[1..]);
      assert t[i..i + |p|] == [t[i]] + t[i + 1..i + |p|];
      assert p == [p[0]] + p[1..];
    }
  }

  lemma HeadTail<T>(s: seq<T>)
    requires s != []
    ensures [s[0]] + s[1..] == s
  {
  }

  lemma ControlRead(t: Text, i: nat, c: int)
    requires 0 <= c < 32 && At(t, i, [48, 48, HexDigit(c / 16), HexDigit(c % 16)])
    ensures Hex(t, i, 4) == c
  {
    var p := [48, 48, HexDigit(c / 16), HexDigit(c % 16)];
    AtIndex(t, i, p, 0); AtIndex(t, i, p, 1); AtIndex(t, i, p, 2); AtIndex(t, i, p, 3);
    assert Hex(t, i, 0) == 0;
    assert Hex(t, i, 1) == 0;
    assert Hex(t, i, 2) == 0;
    assert Hex(t, i, 3) == c / 16;
  }

  /** An escaped character reads back as itself. */
  lemma EscapeRead(t: Text, i: nat, c: int)
    requires c >= 0 && At(t, i, Escape(c))
    requires ParseString(t, i + |Escape(c)|).Ok?
    ensures var rest := ParseString(t, i + |Escape(c)|); ParseString(t, i) == Ok([c] + rest.value, rest.end)
  {
    var e := Escape(c);
    AtIndex(t, i, e, 0);
    if |e| > 1 {
      AtIndex(t, i, e, 1);
      if |e| == 6 {
        AtFront(t, i, [BACKSLASH, LOWER_U], e[2..]);
        ControlRead(t, i + 2, c);
      }
    }
  }

  /** The first character of a printed literal takes e characters. */
  lemma CharsStep(t: Text, i: nat, str: Text) returns (e: nat)
    requires str != [] && str[0] >= 0 && At(t, i, Chars(str))
    ensures |Chars(str)| == e + |Chars(str[1..])| && At(t, i + e, Chars(str[1..]))
    ensures var rest := ParseString(t, i + e);
            rest.Ok? ==> ParseString(t, i) == Ok([str[0]] + rest.value, rest.end)
  {
    e := |Escape(str[0])|;
    AtFront(t, i, Escape(str[0]), Chars(str[1..]));
    if ParseString(t, i + e).Ok? { EscapeRead(t, i, str[0]); }
  }

  lemma {:induction false} CharsRead(t: Text, i: nat, str: Text)
    requires IsText(str) && At(t, i, Chars(str)) && i + |Chars(str)| < |t| && t[i + |Chars(str)|] == QUOTE
    ensures ParseString(t, i) == Ok(str, i + |Chars(str)| + 1)
    decreases |str|
  {
    if str != [] {
      var e := CharsStep(t, i, str);
      CharsRead(t, i + e, str[1..]);
      HeadTail(str);
    }
  }

  lemma QuotedRead(t: Text, i: nat, str: Text)
    requires IsText(str) && At(t, i, Quoted(str))
    ensures t[i] == QUOTE && ParseString(t, i + 1) == Ok(str, i + |Quoted(str)|)
  {
    AtFront(t, i, [QUOTE] + Chars(str), [QUOTE]);
    AtFront(t, i, [QUOTE], Chars(str));
    AtIndex(t, i, Quoted(str), 0);
    AtIndex(t, i, Quoted(str), |Quoted(str)| - 1);
    CharsRead(t, i + 1, str);
  }

  // ------------------------------------------------------------------ reading values back

  /** A printed value starts with none of the characters that end or separate values. */
  lemma PrintStart(v: Json)
    requires Sound(v)
    ensures Print(v) != [] && !IsJsonSpace(Print(v)[0])
    ensures Print(v)[0] !in {COMMA, COLON, RBRACKET, RBRACE}
  {
    if v.JNumber? { NumberFront(v.lexeme); }
  }

  lemma NumberFront(u: Text)
    requires NumberEnd(u) > 0
    ensures IsDigit(u[0]) || (u[0] == MINUS && |u| > 1 && IsDigit(u[1]))
  {
    if u[0] == MINUS {
      assert 1 < IntEnd(u, 1);
    } else {
      assert 0 < IntEnd(u, 0);
    }
  }

  lemma {:induction false} NoWordAt(t: Text, i: nat, words: seq<Word>)
    requires i < |t| && (IsDigit(t[i]) || (t[i] == MINUS && i + 1 < |t| && IsDigit(t[i + 1])))
    ensures ParseAtom(t, i, words) == ParseAtom(t, i, [])
    decreases |words|
  {
    if words != [] {
      if At(t, i, WordText(words[0])) {
        WordStart(t, i, words[0]);
      } else {
        NoWordAt(t, i, words[1..]);
      }
    }
  }

  lemma NumberRead(t: Text, i: nat, lexeme: Text)
    requires IsNumber(lexeme) && At(t, i, lexeme) && Stops(t, i + |lexeme|)
    ensures ParseValue(t, i) == Ok(JNumber(lexeme), i + |lexeme|)
  {
    NumberReadEnd(t, i, lexeme);
    NumberFront(t[i..]);
    NumberAtom(t, i, lexeme, WORDS);
  }

  lemma NumberAtom(t: Text, i: nat, lexeme: Text, words: seq<Word>)
    requires IsNumber(lexeme) && At(t, i, lexeme) && NumberEnd(t[i..]) == |lexeme|
    ensures ParseAtom(t, i, words) == Ok(JNumber(lexeme), i + |lexeme|)
  {
    NumberFront(t[i..]);
    NoWordAt(t, i, words);
    AtWhole(t, i, lexeme);
  }

  lemma NumberReadEnd(t: Text, i: nat, lexeme: Text)
    requires IsNumber(lexeme) && At(t, i, lexeme) && Stops(t, i + |lexeme|)
    ensures NumberEnd(t[i..]) == |lexeme|
  {
    var u := t[i..];
    forall x | 0 <= x < |lexeme| ensures u[x] == lexeme[x] { AtIndex(t, i, lexeme, x); }
    assert Agree(lexeme, u, |lexeme|);
    NumberEndLocal(lexeme, u);
  }

  lemma {:induction false} WordRead(t: Text, i: nat, w: Word, words: seq<Word>)
    requires At(t, i, WordText(w)) && w in words
    ensures ParseAtom(t, i, words) == Ok(JWord(w), i + |WordText(w)|)
    decreases |words|
  {
    if At(t, i, WordText(words[0])) {
      WordStart(t, i, w);
      WordStart(t, i, words[0]);
      OneWord(w, words[0]);
    } else {
      WordRead(t, i, w, words[1..]);
    }
  }

  /** A printed value reads back wherever it stands, as long as a number cannot go on there. */
  lemma {:induction false} ValueRead(t: Text, i: nat, v: Json)
    requires Sound(v) && At(t, i, Print(v)) && (v.JNumber? ==> Stops(t, i + |Print(v)|))
    ensures ParseValue(t, i) == Ok(v, i + |Print(v)|)
    decreases v, 1
  {
    match v
    case JWord(w) => WordValue(t, i, w);
    case JNumber(lexeme) => NumberRead(t, i, lexeme);
    case JStr(str) => StringValue(t, i, str);
    case JArr(items) => ArrayRead(t, i, items);
    case JObj(members) => ObjectRead(t, i, members);
  }

  lemma WordValue(t: Text, i: nat, w: Word)
    requires At(t, i, WordText(w))
    ensures ParseValue(t, i) == Ok(JWord(w), i + |WordText(w)|)
  {
    WordStart(t, i, w);
    WordRead(t, i, w, WORDS);
  }

  lemma StringValue(t: Text, i: nat, str: Text)
    requires IsText(str) && At(t, i, Quoted(str))
    ensures ParseValue(t, i) == Ok(JStr(str), i + |Quoted(str)|)
  {
    QuotedRead(t, i, str);
  }

  lemma Brackets(t: Text, i: nat, a: int, p: Text, b: int)
    requires At(t, i, [a] + p + [b])
    ensures t[i] == a && At(t, i + 1, p) && t[i + 1 + |p|] == b
  {
    AtFront(t, i, [a] + p, [b]);
    AtFront(t, i, [a], p);
    AtIndex(t, i, [a] + p + [b], 0);
    AtIndex(t, i, [a] + p + [b], 1 + |p|);
  }

  /** The elements of an array as the reader keeps them. */
  function Unkeyed(items: seq<Json>): (ms: seq<Member>)
    ensures |ms| == |items|
  {
    if items == [] then [] else [Member([], items[0])] + Unkeyed(items[1..])
  }

  lemma {:induction false} UnkeyedValues(items: seq<Json>)
    ensures Values(Unkeyed(items)) == items
  {
    if items != [] {
      UnkeyedValues(items[1..]);
      assert Unkeyed(items)[1..] == Unkeyed(items[1..]);
    }
  }

  lemma {:induction false} ArrayRead(t: Text, i: nat, items: seq<Json>)
    requires SoundItems(items) && At(t, i, Print(JArr(items)))
    ensures ParseValue(t, i) == Ok(JArr(items), i + |Print(JArr(items))|)
    decreases items, 3
  {
    Brackets(t, i, LBRACKET, PrintItems(items), RBRACKET);
    UnkeyedValues(items);
    ItemsBody(t, i + 1, items, i + 1 + |PrintItems(items)|);
  }

  lemma {:induction false} ItemsBody(t: Text, i: nat, items: seq<Json>, e: nat)
    requires SoundItems(items) && At(t, i, PrintItems(items))
    requires e == i + |PrintItems(items)| < |t| && t[e] == RBRACKET
    ensures ParseBody(t, i, false) == Ok(Unkeyed(items), e + 1)
    decreases items, 2
  {
    if items != [] {
      ItemsRead(t, i, items, e);
      ItemsStart(t, i, items);
    }
  }

  lemma ItemsStart(t: Text, i: nat, items: seq<Json>)
    requires items != [] && Sound(items[0]) && At(t, i, PrintItems(items))
    ensures i < |t| && !IsJsonSpace(t[i]) && t[i] != RBRACKET
  {
    PrintStart(items[0]);
    AtIndex(t, i, PrintItems(items), 0);
  }

  /** A gap, and the reader's way over it. */
  lemma GapRead(t: Text, j: nat, r: Text)
    requires At(t, j, GAP + r)
    ensures t[j] == COMMA && Stops(t, j) && SkipSpace(t, j) == j && At(t, j + 2, r)
    ensures j + 2 < |t| && !IsJsonSpace(t[j + 2]) ==> SkipSpace(t, j + 1) == j + 2
  {
    AtFront(t, j, GAP, r);
    AtIndex(t, j, GAP, 0);
    AtIndex(t, j, GAP, 1);
    if j + 2 < |t| && !IsJsonSpace(t[j + 2]) { assert SkipSpace(t, j + 2) == j + 2; }
  }

  lemma {:induction false} ItemsRead(t: Text, i: nat, items: seq<Json>, e: nat)
    requires items != [] && SoundItems(items) && At(t, i, PrintItems(items))
    requires e == i + |PrintItems(items)| < |t| && t[e] == RBRACKET
    ensures ParseMembers(t, i, false) == Ok(Unkeyed(items), e + 1)
    decreases items, 0
  {
    var j := i + |Print(items[0])|;
    AtFront(t, i, Print(items[0]), MoreItems(items[1..]));
    MoreItemsRead(t, j, items[1..], e);
    ItemRead(t, i, items[0], j);
  }

  lemma {:induction false} ItemRead(t: Text, i: nat, v: Json, j: nat)
    requires Sound(v) && At(t, i, Print(v)) && j == i + |Print(v)| && Stops(t, j)
    ensures ParseMember(t, i, false) == Ok(Member([], v), j)
    decreases v, 2
  {
    ValueRead(t, i, v);
  }

  lemma {:induction false} MoreItemsRead(t: Text, j: nat, items: seq<Json>, e: nat)
    requires SoundItems(items) && At(t, j, MoreItems(items))
    requires e == j + |MoreItems(items)| < |t| && t[e] == RBRACKET
    ensures Stops(t, j) && ParseRest(t, j, false) == Ok(Unkeyed(items), e + 1)
    decreases items, 1
  {
    if items != [] {
      GapRead(t, j, PrintItems(items));
      ItemsStart(t, j + 2, items);
      ItemsRead(t, j + 2, items, e);
    }
  }

  // ------------------------------------------------------------------ objects

  lemma {:induction false} PutNew(members: seq<Member>, m: Member)
    requires forall k :: 0 <= k < |members| ==> members[k].key != m.key
    ensures Put(members, m) == members + [m]
  {
    if members != [] { PutNew(members[1..], m); }
  }

  lemma {:induction false} DictOfDistinct(done: seq<Member>, pairs: seq<Member>)
    requires DistinctKeys(done + pairs)
    ensures DictOf(done, pairs) == done + pairs
    decreases |pairs|
  {
    if pairs == [] {
      assert done + pairs == done;
    } else {
      forall k | 0 <= k < |done| ensures done[k].key != pairs[0].key {
        assert (done + pairs)[k] == done[k] && (done + pairs)[|done|] == pairs[0];
      }
      PutNew(done, pairs[0]);
      assert done + [pairs[0]] + pairs[1..] == done + pairs;
      DictOfDistinct(done + [pairs[0]], pairs[1..]);
    }
  }

  lemma {:induction false} ObjectRead(t: Text, i: nat, members: seq<Member>)
    requires SoundMembers(members) && DistinctKeys(members) && At(t, i, Print(JObj(members)))
    ensures ParseValue(t, i) == Ok(JObj(members), i + |Print(JObj(members))|)
    decreases members, 3
  {
    Brackets(t, i, LBRACE, PrintMembers(members), RBRACE);
    assert [] + members == members;
    DictOfDistinct([], members);
    MembersBody(t, i + 1, members, i + 1 + |PrintMembers(members)|);
  }

  lemma {:induction false} MembersBody(t: Text, i: nat, members: seq<Member>, e: nat)
    requires SoundMembers(members) && At(t, i, PrintMembers(members))
    requires e == i + |PrintMembers(members)| < |t| && t[e] == RBRACE
    ensures ParseBody(t, i, true) == Ok(members, e + 1)
    decreases members, 2
  {
    if members != [] {
      MembersRead(t, i, members, e);
      MembersStart(t, i, members);
    }
  }

  lemma KeyRead(t: Text, i: nat, key: Text, c: nat)
    requires i < |t| && t[i] == QUOTE && ParseString(t, i + 1) == Ok(key, c)
    requires At(t, c, [COLON, 32]) && c + 2 < |t| && !IsJsonSpace(t[c + 2])
    ensures ParseKey(t, i) == Ok(key, c + 2)
  {
    AtIndex(t, c, [COLON, 32], 0);
    AtIndex(t, c, [COLON, 32], 1);
    assert SkipSpace(t, c + 2) == c + 2;
  }

  lemma ValueStart(t: Text, i: nat, v: Json)
    requires Sound(v) && At(t, i, Print(v))
    ensures i < |t| && !IsJsonSpace(t[i])
  {
    PrintStart(v);
    AtIndex(t, i, Print(v), 0);
  }

  /** Where the key ends and the value starts. */
  lemma MemberParts(t: Text, i: nat, m: Member) returns (c: nat)
    requires IsText(m.key) && Sound(m.value) && At(t, i, PrintMember(m))
    ensures ParseKey(t, i) == Ok(m.key, c) && At(t, c, Print(m.value)) && i + |PrintMember(m)| == c + |Print(m.value)|
  {
    AtFront(t, i, Quoted(m.key), [COLON, 32] + Print(m.value));
    AtFront(t, i + |Quoted(m.key)|, [COLON, 32], Print(m.value));
    c := i + |Quoted(m.key)| + 2;
    ValueStart(t, c, m.value);
    KeyParts(t, i, m.key);
  }

  lemma KeyParts(t: Text, i: nat, key: Text)
    requires IsText(key) && At(t, i, Quoted(key)) && At(t, i + |Quoted(key)|, [COLON, 32])
    requires i + |Quoted(key)| + 2 < |t| && !IsJsonSpace(t[i + |Quoted(key)| + 2])
    ensures ParseKey(t, i) == Ok(key, i + |Quoted(key)| + 2)
  {
    QuotedRead(t, i, key);
    KeyRead(t, i, key, i + |Quoted(key)|);
  }

  lemma {:induction false} MemberRead(t: Text, i: nat, m: Member, j: nat)
    requires IsText(m.key) && Sound(m.value) && At(t, i, PrintMember(m)) && j == i + |PrintMember(m)| && Stops(t, j)
    ensures ParseMember(t, i, true) == Ok(m, j)
    decreases m, 2
  {
    var c := MemberParts(t, i, m);
    ValueRead(t, c, m.value);
  }

  lemma MembersStart(t: Text, i: nat, members: seq<Member>)
    requires members != [] && At(t, i, PrintMembers(members))
    ensures i < |t| && t[i] == QUOTE
  {
    var p := PrintMember(members[0]);
    assert p[0] == QUOTE;
    assert PrintMembers(members)[0] == p[0];
    AtIndex(t, i, PrintMembers(members), 0);
  }

  lemma {:induction false} MembersRead(t: Text, i: nat, members: seq<Member>, e: nat)
    requires members != [] && SoundMembers(members) && At(t, i, PrintMembers(members))
    requires e == i + |PrintMembers(members)| < |t| && t[e] == RBRACE
    ensures ParseMembers(t, i, true) == Ok(members, e + 1)
    decreases members, 0
  {
    var j := i + |PrintMember(members[0])|;
    AtFront(t, i, PrintMember(members[0]), MoreMembers(members[1..]));
    MoreMembersRead(t, j, members[1..], e);
    MemberRead(t, i, members[0], j);
    HeadTail(members);
  }

  lemma {:induction false} MoreMembersRead(t: Text, j: nat, members: seq<Member>, e: nat)
    requires SoundMembers(members) && At(t, j, MoreMembers(members))
    requires e == j + |MoreMembers(members)| < |t| && t[e] == RBRACE
    ensures Stops(t, j) && ParseRest(t, j, true) == Ok(members, e + 1)
    decreases members, 1
  {
    if members != [] {
      GapRead(t, j, PrintMembers(members));
      MembersStart(t, j + 2, members);
      MembersRead(t, j + 2, members, e);
    }
  }

  /** json.loads undoes json.dumps. */
  lemma RoundTrip(v: Json)
    requires Sound(v)
    ensures Loads(Print(v)) == Ok(v, |Print(v)|)
  {
    var t := Print(v);
    PrintStart(v);
    AtWhole(t, 0, t);
    ValueRead(t, 0, v);
  }
}
