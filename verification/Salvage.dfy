/** Keeping the complete items of a JSON array that was cut off while it was written. */
module Salvage {
  import opened Basics
  import opened Json
  import opened JsonLaws
  import opened JsonPrint
  import Cleaning = Text

  datatype Salvaged = Salvaged(items: seq<Json>, cut: bool)

  // ------------------------------------------------------------------ str.strip

  function StripStart(t: Text): Text {
    if t != [] && Cleaning.IsSpaceCode(t[0]) then StripStart(t[1..]) else t
  }

  function StripEnd(t: Text): (r: Text)
    ensures |r| <= |t| && r == t[..|r|]
    ensures forall k :: |r| <= k < |t| ==> Cleaning.IsSpaceCode(t[k])
    ensures r != [] ==> !Cleaning.IsSpaceCode(r[|r| - 1])
  {
    if t != [] && Cleaning.IsSpaceCode(t[|t| - 1]) then StripEnd(t[..|t| - 1]) else t
  }

  function Strip(t: Text): Text { StripEnd(StripStart(t)) }

  // ------------------------------------------------------------------ what the loop computes

  const SEPARATORS: seq<int> := [32, 9, 13, 10, COMMA]

  function SkipSeparators(s: Text, i: nat): (j: nat)
    requires i <= |s|
    ensures i <= j <= |s| && (j < |s| ==> s[j] !in SEPARATORS)
    decreases |s| - i
  {
    if i < |s| && s[i] in SEPARATORS then SkipSeparators(s, i + 1) else i
  }

  function SalvageFrom(s: Text, i: nat): Salvaged
    requires i <= |s|
    decreases |s| - i
  {
    var j := SkipSeparators(s, i);
    if j >= |s| then Salvaged([], true)
    else if s[j] == RBRACKET then Salvaged([], false)
    else
      var v := ParseValue(s, j);
      if v.Fail? then Salvaged([], true)
      else
        var rest := SalvageFrom(s, v.end);
        Salvaged([v.value] + rest.items, rest.cut)
  }

  function SalvageText(text: Text): Salvaged {
    var s := Strip(text);
    if s == [] || s[0] != LBRACKET then Salvaged([], false) else SalvageFrom(s, 1)
  }

  method PassSeparators(s: Text, from: nat) returns (i: nat)
    requires from <= |s|
    ensures i == SkipSeparators(s, from)
  {
    i := from;
    while i < |s| && s[i] in SEPARATORS
      invariant from <= i <= |s| && SkipSeparators(s, i) == SkipSeparators(s, from)
    {
      i := i + 1;
    }
  }

  method SalvageTruncatedArray(text: Text) returns (items: seq<Json>, cut: bool)
    ensures Salvaged(items, cut) == SalvageText(text)
  {
    var s := Strip(text);
    if s == [] || s[0] != LBRACKET {
      return [], false;
    }
    var i := 1;
    items := [];
    while true
      invariant 1 <= i <= |s|
      invariant items + SalvageFrom(s, i).items == SalvageFrom(s, 1).items
      invariant SalvageFrom(s, i).cut == SalvageFrom(s, 1).cut
      decreases |s| - i
    {
      i := PassSeparators(s, i);
      if i >= |s| || s[i] == RBRACKET {
        return items, i >= |s|;
      }
      var v := ParseValue(s, i);
      if v.Fail? {
        return items, true;
      }
      items, i := items + [v.value], v.end;
    }
  }

  // ------------------------------------------------------------------ the items of a whole text

  /** An item with the position just after it. */
  datatype Piece = Piece(value: Json, end: nat)

  function Pieces(s: Text, i: nat): (ps: seq<Piece>)
    requires i <= |s|
    decreases |s| - i
  {
    var j := SkipSeparators(s, i);
    if j >= |s| || s[j] == RBRACKET || ParseValue(s, j).Fail? then []
    else
      var v := ParseValue(s, j);
      [Piece(v.value, v.end)] + Pieces(s, v.end)
  }

  /** Where the closing bracket stands, or the length of the text when it is not reached. */
  function Closing(s: Text, i: nat): (c: nat)
    requires i <= |s|
    ensures i <= c <= |s| && (c < |s| ==> s[c] == RBRACKET)
    decreases |s| - i
  {
    var j := SkipSeparators(s, i);
    if j >= |s| then |s|
    else if s[j] == RBRACKET then j
    else if ParseValue(s, j).Fail? then |s| else Closing(s, ParseValue(s, j).end)
  }

  function ValuesOf(ps: seq<Piece>): (vs: seq<Json>)
    ensures |vs| == |ps|
  {
    if ps == [] then [] else [ps[0].value] + ValuesOf(ps[1..])
  }

  /** The values of the leading pieces that end by n. */
  function EndingBy(ps: seq<Piece>, n: nat): seq<Json> {
    if ps == [] || ps[0].end > n then [] else [ps[0].value] + EndingBy(ps[1..], n)
  }

  /** A value of which no shorter beginning is a value: every value but a number tells where it ends, and
      of a number with one digit, signed or not, nothing shorter is a number. */
  predicate Firm(v: Json) {
    v.JNumber? ==> |v.lexeme| == 1 || (|v.lexeme| == 2 && v.lexeme[0] == MINUS)
  }

  predicate AllFirm(ps: seq<Piece>) { ps == [] || (Firm(ps[0].value) && AllFirm(ps[1..])) }

  /** The ends of the pieces rise from i on. */
  predicate Rising(ps: seq<Piece>, i: nat) { ps == [] || (i < ps[0].end && Rising(ps[1..], ps[0].end)) }

  lemma {:induction false} PiecesRise(s: Text, i: nat)
    requires i <= |s|
    ensures Rising(Pieces(s, i), i)
    decreases |s| - i
  {
    var j := SkipSeparators(s, i);
    if j < |s| && s[j] != RBRACKET && ParseValue(s, j).Ok? {
      PiecesRise(s, ParseValue(s, j).end);
      assert Pieces(s, i)[1..] == Pieces(s, ParseValue(s, j).end);
    }
  }

  // ------------------------------------------------------------------ cutting a text

  lemma {:induction false} SkipSeparatorsCut(s: Text, t: Text, i: nat)
    requires Agree(s, t, |t|) && i <= |t|
    ensures SkipSeparators(t, i) == if SkipSeparators(s, i) < |t| then SkipSeparators(s, i) else |t|
    decreases |t| - i
  {
    if i < |t| && s[i] in SEPARATORS { SkipSeparatorsCut(s, t, i + 1); }
  }

  /** A number read from a prefix is a number in the whole text. */
  lemma NumberGrows(s: Text, t: Text, j: nat)
    requires Agree(s, t, |t|) && j <= |t| && ParseValue(t, j).Ok? && ParseValue(t, j).value.JNumber?
    ensures ParseValue(s, j).Ok? && ParseValue(s, j).value.JNumber?
  {
    NumberStarts(t, j);
    var k := if t[j] == MINUS then 1 else 0;
    assert s[j] == t[j] && s[j + k] == t[j + k];
    NumberAhead(s, j, k);
  }

  lemma NumberStarts(t: Text, j: nat)
    requires j <= |t| && ParseValue(t, j).Ok? && ParseValue(t, j).value.JNumber?
    ensures IsDigit(t[j]) || (t[j] == MINUS && j + 1 < |t| && IsDigit(t[j + 1]))
  {
    AtomStart(t, j, WORDS);
    NumberStart(t, j);
  }

  lemma NumberAhead(s: Text, j: nat, k: nat)
    requires j + k < |s| && IsDigit(s[j + k]) && (k == 0 || (k == 1 && s[j] == MINUS))
    ensures ParseValue(s, j).Ok? && ParseValue(s, j).value.JNumber?
  {
    NoWordAt(s, j, WORDS);
    var u := s[j..];
    assert u[k] == s[j + k] && u[0] == s[j];
    assert DigitsEnd(u, k) > k;
    assert IntEnd(u, k) > k;
  }

  lemma {:induction false} DigitsCut(u: Text, v: Text, i: nat)
    requires Agree(u, v, |v|) && i <= |v| && DigitsEnd(u, i) <= |v|
    ensures DigitsEnd(v, i) == DigitsEnd(u, i)
    decreases |v| - i
  {
    if i < |v| && IsDigit(u[i]) { DigitsCut(u, v, i + 1); }
  }

  lemma ExpCut(u: Text, v: Text, i: nat)
    requires Agree(u, v, |v|) && i <= |v| && ExpEnd(u, i) <= |v|
    ensures ExpEnd(v, i) == ExpEnd(u, i)
  {
    if i < |v| && (u[i] == 69 || u[i] == 101) {
      var k := if i + 1 < |u| && (u[i + 1] == 43 || u[i + 1] == 45) then i + 2 else i + 1;
      if k < |v| && IsDigit(u[k]) { DigitsCut(u, v, k); }
    }
  }

  lemma FracCut(u: Text, v: Text, i: nat)
    requires Agree(u, v, |v|) && i <= |v| && FracEnd(u, i) <= |v|
    ensures FracEnd(v, i) == FracEnd(u, i)
  {
    if i + 1 < |v| && u[i] == DOT && IsDigit(u[i + 1]) { DigitsCut(u, v, i + 1); }
  }

  /** A text cut behind a number at its start still starts with that number. */
  lemma NumberCut(u: Text, v: Text)
    requires Agree(u, v, |v|) && 0 < NumberEnd(u) <= |v|
    ensures NumberEnd(v) == NumberEnd(u)
  {
    var start := if u[0] == MINUS then 1 else 0;
    var whole := IntEnd(u, start);
    if u[start] != 48 { DigitsCut(u, v, start); }
    FracCut(u, v, whole);
    ExpCut(u, v, FracEnd(u, whole));
  }

  lemma NumberValueCut(s: Text, t: Text, j: nat)
    requires Agree(s, t, |t|) && j < |t| && ParseValue(s, j).Ok? && ParseValue(s, j).value.JNumber?
    requires ParseValue(s, j).end <= |t|
    ensures ParseValue(t, j) == ParseValue(s, j)
  {
    AtomStart(s, j, WORDS);
    NumberStarts(s, j);
    var u, v, e := s[j..], t[j..], ParseValue(s, j).end;
    NumberCut(u, v);
    NoWordAt(t, j, WORDS);
    AtomIsNumber(t, j, v, e);
    assert s[j..e] == t[j..e];
  }

  /** Where no word stands, the atom is the number there. */
  lemma AtomIsNumber(t: Text, j: nat, v: Text, e: nat)
    requires j < |t| && v == t[j..] && j < e == j + NumberEnd(v) && t[j] != QUOTE && t[j] != LBRACE && t[j] != LBRACKET
    requires ParseAtom(t, j, WORDS) == ParseAtom(t, j, [])
    ensures ParseValue(t, j) == Ok(JNumber(t[j..e]), e)
  {
  }

  /** Of a firm number that is cut, no number is left. */
  lemma FirmNumberCut(s: Text, t: Text, j: nat)
    requires Agree(s, t, |t|) && j < |t| && ParseValue(s, j).Ok? && ParseValue(s, j).value.JNumber?
    requires Firm(ParseValue(s, j).value) && ParseValue(s, j).end > |t|
    ensures ParseValue(t, j).Fail?
  {
    AtomStart(s, j, WORDS);
    NumberStarts(s, j);
    if ParseValue(t, j).Ok? {
      if ParseValue(t, j).value.JNumber? { NumberStarts(t, j); } else { ValueLocal(t, s, |t|, j); }
    }
  }

  /** What a cut at |t| leaves of one value at j. */
  lemma ValueCut(s: Text, t: Text, j: nat)
    requires Agree(s, t, |t|) && j < |t|
    requires ParseValue(s, j).Ok? ==> Firm(ParseValue(s, j).value)
    ensures ParseValue(t, j) == if ParseValue(s, j).Ok? && ParseValue(s, j).end <= |t| then ParseValue(s, j) else Fail
  {
    if ParseValue(s, j).Ok? && ParseValue(s, j).value.JNumber? {
      if ParseValue(s, j).end <= |t| { NumberValueCut(s, t, j); } else { FirmNumberCut(s, t, j); }
    } else if ParseValue(s, j).Ok? && ParseValue(s, j).end <= |t| {
      ValueLocal(s, t, |t|, j);
    } else if ParseValue(t, j).Ok? {
      if ParseValue(t, j).value.JNumber? {
        NumberGrows(s, t, j);
      } else {
        ValueLocal(t, s, |t|, j);
      }
    }
  }

  lemma NothingBefore(ps: seq<Piece>, i: nat, n: nat)
    requires Rising(ps, i) && n <= i
    ensures EndingBy(ps, n) == []
  {
  }

  lemma {:induction false} CutFrom(s: Text, t: Text, i: nat)
    requires Agree(s, t, |t|) && i <= |t| && AllFirm(Pieces(s, i))
    ensures SalvageFrom(t, i) == Salvaged(EndingBy(Pieces(s, i), |t|), Closing(s, i) >= |t|)
    decreases |t| - i
  {
    var j := SkipSeparators(s, i);
    SkipSeparatorsCut(s, t, i);
    if j >= |t| {
      PiecesRise(s, j);
      SkipTwice(s, i);
      NothingBefore(Pieces(s, i), j, |t|);
    } else if s[j] != RBRACKET {
      CutItem(s, t, i, j);
    }
  }

  /** Nothing is lost by starting where the separators end. */
  lemma SkipTwice(s: Text, i: nat)
    requires i <= |s|
    ensures Pieces(s, i) == Pieces(s, SkipSeparators(s, i))
    ensures Closing(s, i) == Closing(s, SkipSeparators(s, i))
  {
    assert SkipSeparators(s, SkipSeparators(s, i)) == SkipSeparators(s, i);
  }

  lemma {:induction false} CutItem(s: Text, t: Text, i: nat, j: nat)
    requires Agree(s, t, |t|) && i <= j < |t| && AllFirm(Pieces(s, i))
    requires j == SkipSeparators(s, i) == SkipSeparators(t, i) && s[j] != RBRACKET
    ensures SalvageFrom(t, i) == Salvaged(EndingBy(Pieces(s, i), |t|), Closing(s, i) >= |t|)
    decreases |t| - i, 0
  {
    var v := ParseValue(s, j);
    if v.Ok? {
      assert Pieces(s, i)[1..] == Pieces(s, v.end);
      if v.end <= |t| { CutFrom(s, t, v.end); }
    }
    ValueCut(s, t, j);
  }

  // ------------------------------------------------------------------ white space after the cut

  /** The last character of a firm value is not white space. */
  lemma {:induction false} ValueLast(s: Text, j: nat)
    requires j <= |s| && ParseValue(s, j).Ok? && Firm(ParseValue(s, j).value)
    ensures !Cleaning.IsSpaceCode(s[ParseValue(s, j).end - 1])
  {
    if s[j] == QUOTE {
      StringLast(s, j + 1);
    } else if s[j] == LBRACE || s[j] == LBRACKET {
      BodyLast(s, j + 1, s[j] == LBRACE);
    } else if ParseValue(s, j).value.JNumber? {
      AtomStart(s, j, WORDS);
      NumberStart(s, j);
    } else {
      WordLast(s, j, WORDS);
    }
  }

  lemma {:induction false} StringLast(s: Text, i: nat)
    requires i <= |s| && ParseString(s, i).Ok?
    ensures s[ParseString(s, i).end - 1] == QUOTE
    decreases |s| - i
  {
    if s[i] == BACKSLASH {
      EscapeRoom(s, i);
      if s[i + 1] != LOWER_U {
        StringLast(s, i + 2);
      } else {
        StringLast(s, if IsHigh(Hex(s, i + 2, 4)) && LowHalf(s, i + 6) >= 0 then i + 12 else i + 6);
      }
    } else if s[i] != QUOTE {
      StringLast(s, i + 1);
    }
  }

  lemma {:induction false} BodyLast(s: Text, i: nat, keyed: bool)
    requires i <= |s| && ParseBody(s, i, keyed).Ok?
    ensures s[ParseBody(s, i, keyed).end - 1] == Close(keyed)
  {
    if s[SkipSpace(s, i)] != Close(keyed) { MembersLast(s, SkipSpace(s, i), keyed); }
  }

  lemma {:induction false} MembersLast(s: Text, i: nat, keyed: bool)
    requires i <= |s| && ParseMembers(s, i, keyed).Ok?
    ensures s[ParseMembers(s, i, keyed).end - 1] == Close(keyed)
    decreases |s| - i
  {
    var m := ParseMember(s, i, keyed).end;
    var j := SkipSpace(s, m);
    if s[j] != Close(keyed) { MembersLast(s, SkipSpace(s, j + 1), keyed); }
  }

  lemma {:induction false} WordLast(s: Text, i: nat, words: seq<Word>)
    requires i <= |s| && ParseAtom(s, i, words).Ok? && ParseAtom(s, i, words).value.JWord?
    ensures !Cleaning.IsSpaceCode(s[ParseAtom(s, i, words).end - 1])
  {
    AtomStart(s, i, words);
    var p := WordText(ParseAtom(s, i, words).value.word);
    AtIndex(s, i, p, |p| - 1);
  }

  /** White space between m and n holds neither the end of a piece nor the closing bracket. */
  lemma {:induction false} SpaceIsNoEnd(s: Text, i: nat, m: nat, n: nat)
    requires i <= |s| && m <= n <= |s| && AllFirm(Pieces(s, i))
    requires forall k :: m <= k < n ==> Cleaning.IsSpaceCode(s[k])
    ensures EndingBy(Pieces(s, i), m) == EndingBy(Pieces(s, i), n)
    ensures Closing(s, i) >= m <==> Closing(s, i) >= n
    decreases |s| - i
  {
    var j := SkipSeparators(s, i);
    if j < |s| && s[j] != RBRACKET && ParseValue(s, j).Ok? {
      var e := ParseValue(s, j).end;
      assert Pieces(s, i)[1..] == Pieces(s, e);
      ValueLast(s, j);
      SpaceIsNoEnd(s, e, m, n);
    }
  }

  // ------------------------------------------------------------------ the theorem

  /** The leading pieces that end by n are the pieces that end by n. */
  lemma {:induction false} EndingByIsPrefix(ps: seq<Piece>, i: nat, n: nat) returns (k: nat)
    requires Rising(ps, i)
    ensures k <= |ps| && EndingBy(ps, n) == ValuesOf(ps[..k])
    ensures forall a :: 0 <= a < |ps| ==> (ps[a].end <= n <==> a < k)
    decreases |ps|
  {
    if ps == [] || ps[0].end > n {
      k := 0;
      EndsAbove(ps, i);
    } else {
      var k' := EndingByIsPrefix(ps[1..], ps[0].end, n);
      k := k' + 1;
      assert ps[..k][1..] == ps[1..][..k'];
      forall a | 0 <= a < |ps| ensures ps[a].end <= n <==> a < k {
        if a > 0 { assert ps[1..][a - 1] == ps[a]; }
      }
    }
  }

  lemma {:induction false} EndsAbove(ps: seq<Piece>, i: nat)
    requires Rising(ps, i)
    ensures forall a :: 0 <= a < |ps| ==> ps[a].end >= ps[0].end > i
    decreases |ps|
  {
    if ps != [] {
      EndsAbove(ps[1..], ps[0].end);
      forall a | 0 < a < |ps| ensures ps[a].end >= ps[0].end { assert ps[1..][a - 1] == ps[a]; }
    }
  }

  /** Wherever a text that starts an array of firm items is cut, exactly the items complete in what is
      left are returned, in order, and a cut is reported exactly when the closing bracket is gone. */
  lemma SalvageOfCut(s: Text, n: nat) returns (k: nat)
    requires 1 <= n <= |s| && s[0] == LBRACKET && AllFirm(Pieces(s, 1))
    ensures k <= |Pieces(s, 1)|
    ensures forall a :: 0 <= a < |Pieces(s, 1)| ==> (Pieces(s, 1)[a].end <= n <==> a < k)
    ensures SalvageText(s[..n]) == Salvaged(ValuesOf(Pieces(s, 1)[..k]), Closing(s, 1) >= n)
  {
    var u := s[..n];
    assert u[0] == LBRACKET;
    var t := StripEnd(u);
    assert Strip(u) == t;
    assert t == s[..|t|];
    CutFrom(s, t, 1);
    forall x | |t| <= x < n ensures Cleaning.IsSpaceCode(s[x]) { assert u[x] == s[x]; }
    SpaceIsNoEnd(s, 1, |t|, n);
    PiecesRise(s, 1);
    k := EndingByIsPrefix(Pieces(s, 1), 1, n);
  }

  /** The cut after n characters is salvaged exactly: the items complete in what is left come back, in order,
      and a cut is reported exactly when the closing bracket is gone. */
  ghost predicate CutIsExact(s: Text, n: nat)
    requires 1 <= n <= |s|
  {
    exists k: nat :: Covers(Pieces(s, 1), k, n)
      && SalvageText(s[..n]) == Salvaged(ValuesOf(Pieces(s, 1)[..k]), Closing(s, 1) >= n)
  }

  /** The first k pieces are those that end by n. */
  ghost predicate Covers(ps: seq<Piece>, k: nat, n: nat) {
    k <= |ps| && forall a :: 0 <= a < |ps| ==> (ps[a].end <= n <==> a < k)
  }

  /** A cut behind the first digit of the first item that is not firm leaves one item too many. */
  lemma {:induction false} LooseCut(s: Text, i: nat) returns (n: nat)
    requires i <= |s| && !AllFirm(Pieces(s, i))
    ensures i < n <= |s| && IsDigit(s[n - 1])
    ensures |SalvageFrom(s[..n], i).items| == |EndingBy(Pieces(s, i), n)| + 1
    decreases |s| - i
  {
    var next := SomePiece(s, i);
    if next.Some? {
      n := LooseCut(s, next.value);
      AfterFirm(s, s[..n], i, next.value);
    } else {
      n := CutHere(s, i);
    }
  }

  /** The item at i, as far as it is there, is firm and ends at e. */
  predicate FirmAt(s: Text, i: nat, e: nat)
    requires i <= |s|
  {
    var j := SkipSeparators(s, i);
    j < |s| && s[j] != RBRACKET && ParseValue(s, j).Ok? && Firm(ParseValue(s, j).value) && ParseValue(s, j).end == e
  }

  predicate LooseAt(s: Text, i: nat)
    requires i <= |s|
  {
    var j := SkipSeparators(s, i);
    j < |s| && s[j] != RBRACKET && ParseValue(s, j).Ok? && !Firm(ParseValue(s, j).value)
  }

  /** Where some item is loose, the first one is, or it is firm and a later one is loose. */
  lemma SomePiece(s: Text, i: nat) returns (next: Option<nat>)
    requires i <= |s| && !AllFirm(Pieces(s, i))
    ensures next.None? ==> LooseAt(s, i)
    ensures next.Some? ==> i < next.value <= |s| && FirmAt(s, i, next.value) && !AllFirm(Pieces(s, next.value))
  {
    var v := ParseValue(s, SkipSeparators(s, i));
    assert Pieces(s, i)[1..] == Pieces(s, v.end);
    next := if Firm(v.value) then Some(v.end) else None;
  }

  lemma CutHere(s: Text, i: nat) returns (n: nat)
    requires i <= |s| && LooseAt(s, i)
    ensures i < n <= |s| && IsDigit(s[n - 1])
    ensures |SalvageFrom(s[..n], i).items| == |EndingBy(Pieces(s, i), n)| + 1
  {
    n := LooseNumberCut(s, SkipSeparators(s, i));
    AtLoose(s, s[..n], i, SkipSeparators(s, i));
  }

  /** Of a loose number cut behind its first digit one item is left, where none is complete. */
  lemma AtLoose(s: Text, t: Text, i: nat, j: nat)
    requires Agree(s, t, |t|) && i <= |s| && j == SkipSeparators(s, i) < |t| && s[j] != RBRACKET
    requires ParseValue(s, j).Ok? && |t| < ParseValue(s, j).end
    requires ParseValue(t, j).Ok? && ParseValue(t, j).end == |t|
    ensures |SalvageFrom(t, i).items| == 1 && |EndingBy(Pieces(s, i), |t|)| == 0
  {
    SkipSeparatorsCut(s, t, i);
    assert SalvageFrom(t, |t|) == Salvaged([], true);
  }

  /** A firm item before the cut comes back, and is one of the complete ones. */
  lemma AfterFirm(s: Text, t: Text, i: nat, e: nat)
    requires Agree(s, t, |t|) && i <= |t| && i < e <= |t| && FirmAt(s, i, e)
    ensures |SalvageFrom(t, i).items| == 1 + |SalvageFrom(t, e).items|
    ensures |EndingBy(Pieces(s, i), |t|)| == 1 + |EndingBy(Pieces(s, e), |t|)|
  {
    var j := SkipSeparators(s, i);
    SkipSeparatorsCut(s, t, i);
    ValueCut(s, t, j);
    assert Pieces(s, i)[1..] == Pieces(s, e);
  }

  /** A number that is not firm, cut behind its first digit, is another number. */
  lemma LooseNumberCut(s: Text, j: nat) returns (n: nat)
    requires j < |s| && ParseValue(s, j).Ok? && !Firm(ParseValue(s, j).value)
    ensures j < n < ParseValue(s, j).end && IsDigit(s[n - 1])
    ensures ParseValue(s[..n], j).Ok? && ParseValue(s[..n], j).end == n
  {
    AtomStart(s, j, WORDS);
    NumberStarts(s, j);
    n := if s[j] == MINUS then j + 2 else j + 1;
    var t := s[..n];
    NumberAhead(t, j, n - 1 - j);
    AtomStart(t, j, WORDS);
    NumberStart(t, j);
  }

  /** Every cut of a text that starts an array is salvaged exactly if and only if every item is firm, that is,
      if and only if every item that is a number has one digit, signed or not. */
  lemma CutsAreExact(s: Text)
    requires s != [] && s[0] == LBRACKET
    ensures (forall n :: 1 <= n <= |s| ==> CutIsExact(s, n)) <==> AllFirm(Pieces(s, 1))
  {
    if AllFirm(Pieces(s, 1)) {
      forall n | 1 <= n <= |s| ensures CutIsExact(s, n) {
        var k := SalvageOfCut(s, n);
        assert Covers(Pieces(s, 1), k, n);
      }
    } else {
      var n := LooseCut(s, 1);
      LooseCutIsWrong(s, n);
    }
  }

  lemma LooseCutIsWrong(s: Text, n: nat)
    requires 1 < n <= |s| && s[0] == LBRACKET && IsDigit(s[n - 1])
    requires |SalvageFrom(s[..n], 1).items| == |EndingBy(Pieces(s, 1), n)| + 1
    ensures !CutIsExact(s, n)
  {
    var t := s[..n];
    assert t[0] == LBRACKET && t[n - 1] == s[n - 1];
    assert Strip(t) == t;
    PiecesRise(s, 1);
    var k := EndingByIsPrefix(Pieces(s, 1), 1, n);
    forall m: nat | Covers(Pieces(s, 1), m, n) ensures m == k { CoversOnce(Pieces(s, 1), k, m, n); }
  }

  lemma CoversOnce(ps: seq<Piece>, k: nat, m: nat, n: nat)
    requires Covers(ps, k, n) && Covers(ps, m, n)
    ensures k == m
  {
    var a := if k < m then k else m;
    assert a < |ps| ==> (ps[a].end <= n <==> a < k) && (ps[a].end <= n <==> a < m);
  }

  /** A number does not tell where it ends: a cut may leave another number. */
  lemma NumbersCanBeCut()
    ensures Pieces([LBRACKET, 49, 50, RBRACKET], 1) == [Piece(JNumber([49, 50]), 3)]
    ensures SalvageText([LBRACKET, 49]) == Salvaged([JNumber([49])], true)
  {
    NumberPieces([LBRACKET, 49, 50, RBRACKET]);
    NumberSalvaged([LBRACKET, 49]);
  }

  lemma NumberSalvaged(t: Text)
    requires t == [LBRACKET, 49]
    ensures SalvageText(t) == Salvaged([JNumber([49])], true)
  {
    NumberItem(t, 2);
    assert t[1..2] == [49];
    assert SalvageFrom(t, 2) == Salvaged([], true);
    assert Strip(t) == t;
  }

  lemma NumberPieces(s: Text)
    requires s == [LBRACKET, 49, 50, RBRACKET]
    ensures Pieces(s, 1) == [Piece(JNumber([49, 50]), 3)]
  {
    NumberItem(s, 3);
    assert s[1..3] == [49, 50];
    assert Pieces(s, 3) == [];
  }

  lemma NumberItem(s: Text, e: nat)
    requires 1 < e <= 3 && e <= |s| <= e + 1 && s[1] == 49 && (e == 3 ==> s[2] == 50)
    requires |s| > e ==> s[e] == RBRACKET
    ensures ParseValue(s, 1) == Ok(JNumber(s[1..e]), e) && SkipSeparators(s, 1) == 1 && SkipSeparators(s, e) == e
  {
    var u := s[1..];
    assert DigitsEnd(u, e - 1) == e - 1;
    assert DigitsEnd(u, 0) == e - 1;
    assert NumberEnd(u) == e - 1;
    NoWordAt(s, 1, WORDS);
  }

  // ------------------------------------------------------------------ printed arrays of objects

  predicate AllObjects(vs: seq<Json>) { vs == [] || (vs[0].JObj? && AllObjects(vs[1..])) }

  /** Where the a-th of the printed values ends in the printed array. */
  function PrintedEnd(objects: seq<Json>, a: nat): nat
    requires a <= |objects|
  {
    |Print(JArr(objects[..a]))| - 1
  }

  /** The pieces of a printed list are its values, each ending where its print ends. */
  function PrintedPieces(i: nat, vs: seq<Json>): (ps: seq<Piece>)
    ensures |ps| == |vs|
    decreases |vs|
  {
    if vs == [] then []
    else [Piece(vs[0], i + |Print(vs[0])|)] + PrintedPieces(i + |Print(vs[0])| + 2, vs[1..])
  }

  lemma {:induction false} ReadPrinted(s: Text, i: nat, vs: seq<Json>, e: nat)
    requires vs != [] && SoundItems(vs) && AllObjects(vs) && At(s, i, PrintItems(vs))
    requires e == i + |PrintItems(vs)| < |s| && s[e] == RBRACKET
    ensures Pieces(s, i) == PrintedPieces(i, vs) && Closing(s, i) == e
    decreases |vs|, 0
  {
    var j := i + |Print(vs[0])|;
    AtFront(s, i, Print(vs[0]), MoreItems(vs[1..]));
    ReadMore(s, j, vs[1..], e);
    ObjectStart(s, i, vs[0]);
    ReadOne(s, i, vs[0], j);
    PrintedHead(i, vs, j);
  }

  lemma ReadOne(s: Text, i: nat, v: Json, j: nat)
    requires v.JObj? && Sound(v) && At(s, i, Print(v)) && j == i + |Print(v)|
    requires i < |s| && s[i] == LBRACE && SkipSeparators(s, i) == i
    ensures j <= |s| && Pieces(s, i) == [Piece(v, j)] + Pieces(s, j) && Closing(s, i) == Closing(s, j)
  {
    ValueRead(s, i, v);
    PieceAt(s, i, v, j);
  }

  lemma PrintedHead(i: nat, vs: seq<Json>, j: nat)
    requires vs != [] && j == i + |Print(vs[0])|
    ensures PrintedPieces(i, vs) == [Piece(vs[0], j)] + PrintedPieces(j + 2, vs[1..])
  {
  }

  lemma PieceAt(s: Text, i: nat, v: Json, j: nat)
    requires i < |s| && s[i] != RBRACKET && SkipSeparators(s, i) == i && ParseValue(s, i) == Ok(v, j)
    ensures Pieces(s, i) == [Piece(v, j)] + Pieces(s, j) && Closing(s, i) == Closing(s, j)
  {
  }

  lemma {:induction false} ReadMore(s: Text, j: nat, vs: seq<Json>, e: nat)
    requires SoundItems(vs) && AllObjects(vs) && At(s, j, MoreItems(vs))
    requires e == j + |MoreItems(vs)| < |s| && s[e] == RBRACKET
    ensures Pieces(s, j) == PrintedPieces(j + 2, vs) && Closing(s, j) == e
    decreases |vs|, 1
  {
    if vs == [] {
      assert SkipSeparators(s, j) == j;
    } else {
      GapSkipped(s, j, vs);
      ReadPrinted(s, j + 2, vs, e);
    }
  }

  lemma ObjectStart(s: Text, i: nat, v: Json)
    requires v.JObj? && At(s, i, Print(v))
    ensures i < |s| && s[i] == LBRACE && SkipSeparators(s, i) == i
  {
    AtIndex(s, i, Print(v), 0);
  }

  /** The gap before more objects is skipped as separators. */
  lemma GapSkipped(s: Text, j: nat, vs: seq<Json>)
    requires vs != [] && vs[0].JObj? && At(s, j, MoreItems(vs))
    ensures At(s, j + 2, PrintItems(vs))
    ensures Pieces(s, j) == Pieces(s, j + 2) && Closing(s, j) == Closing(s, j + 2)
  {
    AtFront(s, j, GAP, PrintItems(vs));
    AtIndex(s, j, GAP, 0);
    AtIndex(s, j, GAP, 1);
    AtFront(s, j + 2, Print(vs[0]), MoreItems(vs[1..]));
    ObjectStart(s, j + 2, vs[0]);
    assert SkipSeparators(s, j + 1) == j + 2;
    SkipTwice(s, j);
  }

  lemma {:induction false} PrintedFirm(i: nat, vs: seq<Json>)
    requires AllObjects(vs)
    ensures AllFirm(PrintedPieces(i, vs)) && ValuesOf(PrintedPieces(i, vs)) == vs
    decreases |vs|
  {
    if vs != [] {
      var k := i + |Print(vs[0])| + 2;
      PrintedFirm(k, vs[1..]);
      assert PrintedPieces(i, vs)[1..] == PrintedPieces(k, vs[1..]);
    }
  }

  lemma {:induction false} PrintedEnds(i: nat, vs: seq<Json>, a: nat)
    requires 0 < a <= |vs|
    ensures PrintedPieces(i, vs)[a - 1].end == i + |PrintItems(vs[..a])|
    decreases a
  {
    var first := vs[..a];
    assert first[1..] == vs[1..][..a - 1];
    if a > 1 { PrintedEnds(i + |Print(vs[0])| + 2, vs[1..], a - 1); }
  }

  lemma ArrayLength(vs: seq<Json>)
    ensures |Print(JArr(vs))| == |PrintItems(vs)| + 2
  {
  }

  lemma {:induction false} ValuesOfPrefix(ps: seq<Piece>, k: nat)
    requires k <= |ps|
    ensures ValuesOf(ps[..k]) == ValuesOf(ps)[..k]
    decreases k
  {
    if k > 0 {
      assert ps[..k][1..] == ps[1..][..k - 1];
      ValuesOfPrefix(ps[1..], k - 1);
    }
  }

  /** From any prefix of a printed array of objects, exactly the objects printed completely in
      that prefix come back, and a cut is reported exactly when the bracket is missing. */
  lemma SalvageOfPrinted(objects: seq<Json>, n: nat) returns (k: nat)
    requires SoundItems(objects) && AllObjects(objects) && 1 <= n <= |Print(JArr(objects))|
    ensures k <= |objects|
    ensures forall a :: 0 < a <= |objects| ==> (PrintedEnd(objects, a) <= n <==> a <= k)
    ensures SalvageText(Print(JArr(objects))[..n]) == Salvaged(objects[..k], n < |Print(JArr(objects))|)
  {
    PrintedPiecesOf(objects);
    PrintedFirm(1, objects);
    k := SalvageOfCut(Print(JArr(objects)), n);
    ValuesOfPrefix(PrintedPieces(1, objects), k);
    forall a | 0 < a <= |objects| ensures PrintedEnd(objects, a) <= n <==> a <= k {
      PrintedEndIs(objects, a);
    }
  }

  lemma PrintedEndIs(objects: seq<Json>, a: nat)
    requires 0 < a <= |objects|
    ensures PrintedPieces(1, objects)[a - 1].end == PrintedEnd(objects, a)
  {
    PrintedEnds(1, objects, a);
    ArrayLength(objects[..a]);
  }

  lemma PrintedPiecesOf(objects: seq<Json>)
    requires SoundItems(objects) && AllObjects(objects)
    ensures var s := Print(JArr(objects));
            s[0] == LBRACKET && Pieces(s, 1) == PrintedPieces(1, objects) && Closing(s, 1) == |s| - 1
  {
    var s := Print(JArr(objects));
    AtWhole(s, 0, s);
    Brackets(s, 0, LBRACKET, PrintItems(objects), RBRACKET);
    if objects != [] { ReadPrinted(s, 1, objects, |s| - 1); }
  }
}
