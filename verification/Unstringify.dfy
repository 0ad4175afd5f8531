/** Structured fields that a model returned as JSON text: parsing them back, at any nesting. */
module Unstringify {
  import opened Basics
  import opened Json
  import opened JsonPrint
  import opened Salvage

  // ------------------------------------------------------------------ sizes, for termination

  /** Room a value takes at least in any text it is read from; a string counts its characters. */
  function Size(v: Json): (n: nat)
    ensures n >= 1
    decreases v
  {
    match v
    case JWord(_) => 1
    case JNumber(_) => 1
    case JStr(s) => 1 + |s|
    case JArr(items) => 1 + SizeItems(items)
    case JObj(members) => 1 + SizeMembers(members)
  }

  function SizeItems(items: seq<Json>): nat
    decreases items
  {
    if items == [] then 0 else Size(items[0]) + SizeItems(items[1..])
  }

  function SizeMembers(members: seq<Member>): nat
    decreases members
  {
    if members == [] then 0 else Size(members[0].value) + SizeMembers(members[1..])
  }

  lemma {:induction false} StringSize(s: Text, i: nat)
    requires i <= |s| && ParseString(s, i).Ok?
    ensures |ParseString(s, i).value| < ParseString(s, i).end - i
    decreases |s| - i, 1
  {
    if s[i] == BACKSLASH {
      EscapedSize(s, i);
    } else if s[i] != QUOTE {
      StringSize(s, i + 1);
    }
  }

  lemma {:induction false} EscapedSize(s: Text, i: nat)
    requires i < |s| && ParseEscaped(s, i).Ok?
    ensures |ParseEscaped(s, i).value| < ParseEscaped(s, i).end - i
    decreases |s| - i, 0
  {
    if s[i + 1] != LOWER_U {
      StringSize(s, i + 2);
    } else {
      StringSize(s, if IsHigh(Hex(s, i + 2, 4)) && LowHalf(s, i + 6) >= 0 then i + 12 else i + 6);
    }
  }

  lemma {:induction false} PutSize(members: seq<Member>, m: Member)
    ensures SizeMembers(Put(members, m)) <= SizeMembers(members) + Size(m.value)
  {
    if members != [] && members[0].key != m.key {
      PutSize(members[1..], m);
      assert Put(members, m)[1..] == Put(members[1..], m);
    }
  }

  lemma {:induction false} DictSize(done: seq<Member>, pairs: seq<Member>)
    ensures SizeMembers(DictOf(done, pairs)) <= SizeMembers(done) + SizeMembers(pairs)
    decreases |pairs|
  {
    if pairs != [] {
      PutSize(done, pairs[0]);
      DictSize(Put(done, pairs[0]), pairs[1..]);
    }
  }

  lemma {:induction false} ValuesSize(members: seq<Member>)
    ensures SizeItems(Values(members)) == SizeMembers(members)
  {
    if members != [] {
      ValuesSize(members[1..]);
      assert Values(members)[1..] == Values(members[1..]);
    }
  }

  lemma {:induction false} ValueSize(s: Text, i: nat)
    requires i <= |s| && ParseValue(s, i).Ok?
    ensures Size(ParseValue(s, i).value) <= ParseValue(s, i).end - i
    decreases |s| - i, 0
  {
    if s[i] == QUOTE {
      StringSize(s, i + 1);
    } else if s[i] == LBRACE || s[i] == LBRACKET {
      BodySize(s, i + 1, s[i] == LBRACE);
      var ms := ParseBody(s, i + 1, s[i] == LBRACE).value;
      DictSize([], ms);
      ValuesSize(ms);
    }
  }

  lemma {:induction false} BodySize(s: Text, i: nat, keyed: bool)
    requires i <= |s| && ParseBody(s, i, keyed).Ok?
    ensures SizeMembers(ParseBody(s, i, keyed).value) < ParseBody(s, i, keyed).end - i
    decreases |s| - i, 3
  {
    var j := SkipSpace(s, i);
    if s[j] != Close(keyed) { MembersSize(s, j, keyed); }
  }

  lemma {:induction false} MembersSize(s: Text, i: nat, keyed: bool)
    requires i <= |s| && ParseMembers(s, i, keyed).Ok?
    ensures SizeMembers(ParseMembers(s, i, keyed).value) < ParseMembers(s, i, keyed).end - i
    decreases |s| - i, 2
  {
    var m := ParseMember(s, i, keyed);
    var rest := ParseRest(s, m.end, keyed);
    MemberSize(s, i, keyed);
    RestSize(s, m.end, keyed);
    assert ParseMembers(s, i, keyed).value[1..] == rest.value;
  }

  lemma {:induction false} MemberSize(s: Text, i: nat, keyed: bool)
    requires i <= |s| && ParseMember(s, i, keyed).Ok?
    ensures Size(ParseMember(s, i, keyed).value.value) <= ParseMember(s, i, keyed).end - i
    decreases |s| - i, 1
  {
    ValueSize(s, if keyed then ParseKey(s, i).end else i);
  }

  lemma {:induction false} RestSize(s: Text, i: nat, keyed: bool)
    requires i <= |s| && ParseRest(s, i, keyed).Ok?
    ensures SizeMembers(ParseRest(s, i, keyed).value) < ParseRest(s, i, keyed).end - i
    decreases |s| - i, 3
  {
    var j := SkipSpace(s, i);
    if s[j] != Close(keyed) { MembersSize(s, SkipSpace(s, j + 1), keyed); }
  }

  /** A value read from a text is no larger than the text. */
  lemma LoadsSize(s: Text)
    requires Loads(s).Ok?
    ensures Size(Loads(s).value) <= |s|
  {
    ValueSize(s, SkipSpace(s, 0));
  }

  lemma {:induction false} StripSize(t: Text)
    ensures |Strip(t)| <= |t|
  {
    StripStartSize(t);
  }

  lemma {:induction false} StripStartSize(t: Text)
    ensures |StripStart(t)| <= |t|
  {
    if t != [] { StripStartSize(t[1..]); }
  }

  // ------------------------------------------------------------------ unstringify

  predicate Bracketed(s: Text) {
    |s| > 0 && ((s[0] == LBRACKET && s[|s| - 1] == RBRACKET) || (s[0] == LBRACE && s[|s| - 1] == RBRACE))
  }

  /** A string that reads as a JSON array or object. */
  predicate Reads(str: Text) { Bracketed(Strip(str)) && Loads(Strip(str)).Ok? }

  function Inner(str: Text): (v: Json)
    requires Reads(str)
    ensures Size(v) <= |str|
  {
    LoadsSize(Strip(str));
    StripSize(str);
    Loads(Strip(str)).value
  }

  function Unstring(v: Json): Json
    decreases Size(v), 0
  {
    match v
    case JObj(members) => JObj(UnstringMembers(members))
    case JArr(items) => JArr(UnstringItems(items))
    case JStr(str) => if Reads(str) then Unstring(Inner(str)) else v
    case JWord(_) => v
    case JNumber(_) => v
  }

  function UnstringItems(items: seq<Json>): (r: seq<Json>)
    ensures |r| == |items|
    decreases SizeItems(items), 1, |items|
  {
    if items == [] then [] else [Unstring(items[0])] + UnstringItems(items[1..])
  }

  function UnstringMembers(members: seq<Member>): (r: seq<Member>)
    ensures |r| == |members|
    decreases SizeMembers(members), 1, |members|
  {
    if members == [] then []
    else [Member(members[0].key, Unstring(members[0].value))] + UnstringMembers(members[1..])
  }

  // ------------------------------------------------------------------ the normal form

  /** No string inside reads as an array or object. */
  predicate Plain(v: Json)
    decreases v
  {
    match v
    case JObj(members) => PlainMembers(members)
    case JArr(items) => PlainItems(items)
    case JStr(str) => !Reads(str)
    case JWord(_) => true
    case JNumber(_) => true
  }

  predicate PlainItems(items: seq<Json>)
    decreases items
  {
    items == [] || (Plain(items[0]) && PlainItems(items[1..]))
  }

  predicate PlainMembers(members: seq<Member>)
    decreases members
  {
    members == [] || (Plain(members[0].value) && PlainMembers(members[1..]))
  }

  predicate IsContainer(v: Json) { v.JArr? || v.JObj? }

  /** w is v with any of its arrays and objects, at any nesting, replaced by a text that reads
      as a value of the same kind, that is, as the container with the same done inside it. */
  predicate Stringified(v: Json, w: Json)
    decreases Size(w), 0
  {
    if w.JStr? && Reads(w.str) && IsContainer(v) then Stringified(v, Inner(w.str))
    else if v.JArr? && w.JArr? then StringifiedItems(v.items, w.items)
    else if v.JObj? && w.JObj? then StringifiedMembers(v.members, w.members)
    else v == w
  }

  predicate StringifiedItems(vs: seq<Json>, ws: seq<Json>)
    decreases SizeItems(ws), 1, |ws|
  {
    if vs == [] || ws == [] then vs == ws
    else Stringified(vs[0], ws[0]) && StringifiedItems(vs[1..], ws[1..])
  }

  predicate StringifiedMembers(vs: seq<Member>, ws: seq<Member>)
    decreases SizeMembers(ws), 1, |ws|
  {
    if vs == [] || ws == [] then vs == ws
    else
      vs[0].key == ws[0].key && Stringified(vs[0].value, ws[0].value) && StringifiedMembers(vs[1..], ws[1..])
  }

  /** Whichever containers were replaced by their text, un-stringifying gives the same. */
  lemma {:induction false} SameResult(v: Json, w: Json)
    requires Stringified(v, w)
    ensures Unstring(w) == Unstring(v)
    decreases Size(w), 0
  {
    if w.JStr? && Reads(w.str) && IsContainer(v) {
      SameResult(v, Inner(w.str));
    } else if v.JArr? && w.JArr? {
      SameItems(v.items, w.items);
    } else if v.JObj? && w.JObj? {
      SameMembers(v.members, w.members);
    }
  }

  lemma {:induction false} SameItems(vs: seq<Json>, ws: seq<Json>)
    requires StringifiedItems(vs, ws)
    ensures UnstringItems(ws) == UnstringItems(vs)
    decreases SizeItems(ws), 1, |ws|
  {
    if vs != [] && ws != [] {
      SameResult(vs[0], ws[0]);
      SameItems(vs[1..], ws[1..]);
    }
  }

  lemma {:induction false} SameMembers(vs: seq<Member>, ws: seq<Member>)
    requires StringifiedMembers(vs, ws)
    ensures UnstringMembers(ws) == UnstringMembers(vs)
    decreases SizeMembers(ws), 1, |ws|
  {
    if vs != [] && ws != [] {
      SameResult(vs[0].value, ws[0].value);
      SameMembers(vs[1..], ws[1..]);
    }
  }

  lemma InnerIsContainer(str: Text)
    requires Reads(str)
    ensures IsContainer(Inner(str))
  {
    var s := Strip(str);
    assert SkipSpace(s, 0) == 0;
  }

  /** The result is plain, and the input is a stringified form of it. */
  lemma {:induction false} ResultIsPlain(w: Json)
    ensures Plain(Unstring(w)) && Stringified(Unstring(w), w)
    ensures IsContainer(w) ==> IsContainer(Unstring(w))
    decreases Size(w), 0
  {
    match w
    case JObj(members) => MembersPlain(members);
    case JArr(items) => ItemsPlain(items);
    case JStr(str) =>
      if Reads(str) {
        InnerIsContainer(str);
        ResultIsPlain(Inner(str));
      }
    case JWord(_) =>
    case JNumber(_) =>
  }

  lemma {:induction false} ItemsPlain(ws: seq<Json>)
    ensures PlainItems(UnstringItems(ws)) && StringifiedItems(UnstringItems(ws), ws)
    decreases SizeItems(ws), 1, |ws|
  {
    if ws != [] {
      ResultIsPlain(ws[0]);
      ItemsPlain(ws[1..]);
      assert UnstringItems(ws)[1..] == UnstringItems(ws[1..]);
    }
  }

  lemma {:induction false} MembersPlain(ws: seq<Member>)
    ensures PlainMembers(UnstringMembers(ws)) && StringifiedMembers(UnstringMembers(ws), ws)
    decreases SizeMembers(ws), 1, |ws|
  {
    if ws != [] {
      ResultIsPlain(ws[0].value);
      MembersPlain(ws[1..]);
      assert UnstringMembers(ws)[1..] == UnstringMembers(ws[1..]);
    }
  }

  lemma {:induction false} PlainFixed(v: Json)
    requires Plain(v)
    ensures Unstring(v) == v
    decreases v
  {
    match v
    case JObj(members) => PlainMembersFixed(members);
    case JArr(items) => PlainItemsFixed(items);
    case JStr(_) =>
    case JWord(_) =>
    case JNumber(_) =>
  }

  lemma {:induction false} PlainItemsFixed(items: seq<Json>)
    requires PlainItems(items)
    ensures UnstringItems(items) == items
    decreases items
  {
    if items != [] {
      PlainFixed(items[0]);
      PlainItemsFixed(items[1..]);
    }
  }

  lemma {:induction false} PlainMembersFixed(members: seq<Member>)
    requires PlainMembers(members)
    ensures UnstringMembers(members) == members
    decreases members
  {
    if members != [] {
      PlainFixed(members[0].value);
      PlainMembersFixed(members[1..]);
    }
  }

  /** Un-stringifying finds the one plain value that the input is a stringified form of. */
  lemma UnstringIsTheNormalForm(p: Json, w: Json)
    ensures p == Unstring(w) <==> Plain(p) && Stringified(p, w)
  {
    ResultIsPlain(w);
    if Plain(p) && Stringified(p, w) {
      SameResult(p, w);
      PlainFixed(p);
    }
  }

  lemma UnstringIdempotent(v: Json)
    ensures Unstring(Unstring(v)) == Unstring(v)
  {
    ResultIsPlain(v);
    PlainFixed(Unstring(v));
  }

  // ------------------------------------------------------------------ printed text

  lemma {:induction false} StripStartFixed(t: Text)
    requires t != [] && !Cleaning.IsSpaceCode(t[0])
    ensures StripStart(t) == t
  {
  }

  /** A container's printed text reads as that container. */
  lemma PrintedReads(v: Json)
    requires Sound(v) && IsContainer(v)
    ensures Reads(Print(v)) && Inner(Print(v)) == v
  {
    RoundTrip(v);
    var t := Print(v);
    assert t[0] in {LBRACKET, LBRACE} && t[|t| - 1] in {RBRACKET, RBRACE};
    StripStartFixed(t);
    assert StripEnd(t) == t;
  }

  /** So a container may be replaced by its own printed text, or by the text of a stringified form of it. */
  lemma PrintedIsStringified(v: Json, w: Json)
    requires Stringified(v, w) && IsContainer(v) && IsContainer(w) && Sound(w)
    ensures Stringified(v, JStr(Print(w))) && Unstring(JStr(Print(w))) == Unstring(v)
  {
    PrintedReads(w);
    SameResult(v, JStr(Print(w)));
  }

  // ------------------------------------------------------------------ recover_truncated

  function Get(members: seq<Member>, key: Text): Option<Json> {
    if members == [] then None
    else if members[0].key == key then Some(members[0].value) else Get(members[1..], key)
  }

  /** The output with the complete items of its list, and how many there were when any were
      recovered or cut. */
  function RecoverTruncated(v: Json, key: Text): (r: (Json, Option<nat>)) {
    if !v.JObj? then (v, None)
    else
      match Get(v.members, key)
      case Some(JStr(str)) =>
        var s := SalvageText(str);
        if s.items == [] && !s.cut then (v, None)
        else (JObj(Put(v.members, Member(key, JArr(UnstringItems(s.items))))), Some(|s.items|))
      case _ => (v, None)
  }

  /** When the list arrived as a printed array of objects cut at n, the output keeps exactly the
      objects printed completely before the cut, un-stringified, and its other members. */
  lemma RecoverPrinted(members: seq<Member>, key: Text, objects: seq<Json>, n: nat) returns (k: nat)
    requires SoundItems(objects) && AllObjects(objects) && 1 <= n <= |Print(JArr(objects))|
    requires Get(members, key) == Some(JStr(Print(JArr(objects))[..n]))
    ensures k <= |objects|
    ensures forall a :: 0 < a <= |objects| ==> (PrintedEnd(objects, a) <= n <==> a <= k)
    ensures RecoverTruncated(JObj(members), key)
         == if k == 0 && n == |Print(JArr(objects))| then (JObj(members), None)
            else (JObj(Put(members, Member(key, JArr(UnstringItems(objects[..k]))))), Some(k))
  {
    k := SalvageOfPrinted(objects, n);
  }

  lemma {:induction false} PutGet(members: seq<Member>, m: Member, key: Text)
    ensures Get(Put(members, m), key) == if key == m.key then Some(m.value) else Get(members, key)
  {
    if members != [] && members[0].key != m.key {
      PutGet(members[1..], m, key);
      assert Put(members, m)[1..] == Put(members[1..], m);
    }
  }

  /** Recovery touches the member at the key and nothing else. */
  lemma RecoverKeepsOthers(members: seq<Member>, key: Text, other: Text)
    requires other != key
    ensures RecoverTruncated(JObj(members), key).0.JObj?
    ensures Get(RecoverTruncated(JObj(members), key).0.members, other) == Get(members, other)
  {
    match Get(members, key)
    case Some(JStr(str)) =>
      PutGet(members, Member(key, JArr(UnstringItems(SalvageText(str).items))), other);
    case _ =>
  }
}
