/** Reading JSON is local: what is read depends only on the characters it consumes.  Each
    lemma compares a reading in s with the reading at the same place in a text t that has the
    same first `hi` characters. */
module JsonLaws {
  import opened Json

  ghost predicate Agree(s: Text, t: Text, hi: nat) {
    hi <= |s| && hi <= |t| && forall x {:trigger s[x]} {:trigger t[x]} :: 0 <= x < hi ==> t[x] == s[x]
  }

  lemma {:induction false} SkipSpaceLocal(s: Text, t: Text, hi: nat, i: nat)
    requires Agree(s, t, hi) && i <= |s| && SkipSpace(s, i) < hi
    ensures SkipSpace(t, i) == SkipSpace(s, i)
    decreases |s| - i
  {
    if IsJsonSpace(s[i]) { SkipSpaceLocal(s, t, hi, i + 1); }
  }

  // ------------------------------------------------------------------ numbers

  /** A run of digits in s that ends before e, or at e where t stops. */
  lemma {:induction false} DigitsLocal(s: Text, t: Text, e: nat, i: nat)
    requires Agree(s, t, e) && i <= |s| && DigitsEnd(s, i) <= e
    requires DigitsEnd(s, i) == e ==> Stops(t, e)
    ensures DigitsEnd(t, i) == DigitsEnd(s, i)
    decreases |s| - i
  {
    if i < e && IsDigit(s[i]) { DigitsLocal(s, t, e, i + 1); }
  }

  lemma IntLocal(s: Text, t: Text, e: nat, i: nat)
    requires Agree(s, t, e) && i <= |s| && i < IntEnd(s, i) <= e
    requires IntEnd(s, i) == e ==> Stops(t, e)
    ensures IntEnd(t, i) == IntEnd(s, i)
  {
    if s[i] != 48 { DigitsLocal(s, t, e, i); }
  }

  lemma FracLocal(s: Text, t: Text, e: nat, i: nat)
    requires Agree(s, t, e) && i <= |s| && FracEnd(s, i) <= e
    requires FracEnd(s, i) == e ==> Stops(t, e)
    requires FracEnd(s, i) == i < e ==> s[i] == 69 || s[i] == 101
    ensures FracEnd(t, i) == FracEnd(s, i)
  {
    if i < FracEnd(s, i) { DigitsLocal(s, t, e, i + 1); }
  }

  lemma ExpLocal(s: Text, t: Text, e: nat, i: nat)
    requires Agree(s, t, e) && i <= |s| && ExpEnd(s, i) == e && Stops(t, e)
    ensures ExpEnd(t, i) == e
  {
    if i < e {
      var x := if i + 1 < |s| && (s[i + 1] == 43 || s[i + 1] == 45) then i + 2 else i + 1;
      DigitsLocal(s, t, e, x);
    }
  }

  lemma NumberEndLocal(s: Text, t: Text)
    requires 0 < NumberEnd(s) && Agree(s, t, NumberEnd(s)) && Stops(t, NumberEnd(s))
    ensures NumberEnd(t) == NumberEnd(s)
  {
    var e := NumberEnd(s);
    var start := if s[0] == MINUS then 1 else 0;
    var whole := IntEnd(s, start);
    IntLocal(s, t, e, start);
    FracLocal(s, t, e, whole);
    ExpLocal(s, t, e, FracEnd(s, whole));
  }

  lemma NumberLocal(s: Text, t: Text, hi: nat, i: nat)
    requires Agree(s, t, hi) && i <= |s| && ParseNumber(s, i).Ok? && ParseNumber(s, i).end <= hi
    requires Stops(t, ParseNumber(s, i).end)
    ensures ParseNumber(t, i) == ParseNumber(s, i)
  {
    var u, v := s[i..], t[i..];
    NumberEndLocal(u, v);
    assert s[i..i + NumberEnd(u)] == t[i..i + NumberEnd(u)];
  }

  // ------------------------------------------------------------------ strings

  lemma {:induction false} HexLocal(s: Text, t: Text, hi: nat, i: nat, n: nat)
    requires Agree(s, t, hi) && i + n <= hi
    ensures Hex(t, i, n) == Hex(s, i, n)
  {
    if n > 0 { HexLocal(s, t, hi, i, n - 1); }
  }

  /** An escape inside a literal that is read to its end has room there. */
  lemma EscapeRoom(s: Text, i: nat)
    requires i < |s| && ParseString(s, i).Ok? && s[i] == BACKSLASH
    ensures ParseString(s, i) == ParseEscaped(s, i) && ParseString(s, i).end >= i + 2
    ensures s[i + 1] == LOWER_U ==> ParseString(s, i).end >= i + 6
  {
  }

  /** Whether a low half follows can be told from the characters of a literal that is read to its end. */
  lemma LowHalfLocal(s: Text, t: Text, hi: nat, i: nat)
    requires Agree(s, t, hi) && i < hi
    requires if LowHalf(s, i) >= 0 then i + 6 <= hi else ParseString(s, i).Ok? && ParseString(s, i).end <= hi
    ensures LowHalf(t, i) == LowHalf(s, i)
  {
    if s[i] == BACKSLASH {
      if LowHalf(s, i) < 0 { EscapeRoom(s, i); }
      if s[i + 1] == LOWER_U { HexLocal(s, t, hi, i + 2, 4); }
    }
  }

  lemma {:induction false} StringLocal(s: Text, t: Text, hi: nat, i: nat)
    requires Agree(s, t, hi) && i <= |s| && ParseString(s, i).Ok? && ParseString(s, i).end <= hi
    ensures ParseString(t, i) == ParseString(s, i)
    decreases |s| - i, 1
  {
    if s[i] == BACKSLASH {
      EscapedLocal(s, t, hi, i);
    } else if s[i] != QUOTE {
      StringLocal(s, t, hi, i + 1);
    }
  }

  lemma {:induction false} EscapedLocal(s: Text, t: Text, hi: nat, i: nat)
    requires Agree(s, t, hi) && i < |s| && ParseEscaped(s, i).Ok? && ParseEscaped(s, i).end <= hi
    ensures i < |t| && ParseEscaped(t, i) == ParseEscaped(s, i)
    decreases |s| - i, 0
  {
    if s[i + 1] != LOWER_U {
      StringLocal(s, t, hi, i + 2);
    } else {
      HexLocal(s, t, hi, i + 2, 4);
      if IsHigh(Hex(s, i + 2, 4)) { LowHalfLocal(s, t, hi, i + 6); }
      StringLocal(s, t, hi, if IsHigh(Hex(s, i + 2, 4)) && LowHalf(s, i + 6) >= 0 then i + 12 else i + 6);
    }
  }

  // ------------------------------------------------------------------ words and numbers

  /** What the first two characters of a number are, and of a word. */
  lemma NumberStart(s: Text, i: nat)
    requires i <= |s| && ParseNumber(s, i).Ok?
    ensures IsDigit(s[i]) || (s[i] == MINUS && i + 1 < ParseNumber(s, i).end && IsDigit(s[i + 1]))
  {
    var u := s[i..];
    if u[0] == MINUS {
      assert 1 < IntEnd(u, 1);
    } else {
      assert 0 < IntEnd(u, 0);
    }
  }

  lemma WordStart(t: Text, i: nat, w: Word)
    requires At(t, i, WordText(w))
    ensures t[i] == WordText(w)[0] && t[i + 1] == WordText(w)[1]
  {
    assert At(t, i + 1, WordText(w)[1..]);
  }

  /** Two words that start alike are the same word. */
  lemma OneWord(v: Word, w: Word)
    requires WordText(v)[0] == WordText(w)[0]
    ensures v == w
  {
  }

  lemma {:induction false} AtomStart(s: Text, i: nat, words: seq<Word>)
    requires i <= |s| && ParseAtom(s, i, words).Ok?
    ensures var r := ParseAtom(s, i, words);
      if r.value.JWord? then r.end == i + |WordText(r.value.word)| && At(s, i, WordText(r.value.word))
      else ParseNumber(s, i) == Ok(r.value.lexeme, r.end)
    decreases |words|
  {
    if words != [] && !At(s, i, WordText(words[0])) { AtomStart(s, i, words[1..]); }
  }

  lemma {:induction false} AtLocal(s: Text, t: Text, hi: nat, i: nat, p: Text)
    requires Agree(s, t, hi) && i + |p| <= hi
    ensures At(t, i, p) <==> At(s, i, p)
    decreases |p|
  {
    if p != [] { AtLocal(s, t, hi, i + 1, p[1..]); }
  }

  /** A text whose reading is known cannot turn out to start with a word that is not there. */
  lemma NotThisWord(s: Text, t: Text, hi: nat, i: nat, words: seq<Word>, w: Word)
    requires Agree(s, t, hi) && i <= |s|
    requires ParseAtom(s, i, words).Ok? && ParseAtom(s, i, words).end <= hi
    requires At(t, i, WordText(w))
    ensures At(s, i, WordText(w))
  {
    var r := ParseAtom(s, i, words);
    AtomStart(s, i, words);
    WordStart(t, i, w);
    if r.value.JWord? {
      WordStart(s, i, r.value.word);
      OneWord(w, r.value.word);
    } else {
      NumberStart(s, i);
    }
  }

  lemma AtomFound(t: Text, i: nat, words: seq<Word>)
    requires i <= |t| && words != []
    ensures ParseAtom(t, i, words)
         == if At(t, i, WordText(words[0])) then Ok(JWord(words[0]), i + |WordText(words[0])|)
            else ParseAtom(t, i, words[1..])
  {
  }

  lemma {:induction false} AtomLocal(s: Text, t: Text, hi: nat, i: nat, words: seq<Word>)
    requires Agree(s, t, hi) && i <= |s|
    requires ParseAtom(s, i, words).Ok? && ParseAtom(s, i, words).end <= hi
    requires ParseAtom(s, i, words).value.JNumber? ==> Stops(t, ParseAtom(s, i, words).end)
    ensures ParseAtom(t, i, words) == ParseAtom(s, i, words)
    decreases |words|
  {
    if words == [] {
      NumberLocal(s, t, hi, i);
      return;
    }
    AtomFound(s, i, words);
    AtomFound(t, i, words);
    if At(s, i, WordText(words[0])) {
      AtLocal(s, t, hi, i, WordText(words[0]));
    } else {
      AtomLocal(s, t, hi, i, words[1..]);
      if At(t, i, WordText(words[0])) { NotThisWord(s, t, hi, i, words[1..], words[0]); }
    }
  }

  // ------------------------------------------------------------------ values

  /** In a list, the separator after a value bounds it in t as well. */
  lemma AfterValue(s: Text, t: Text, hi: nat, m: nat, keyed: bool)
    requires Agree(s, t, hi) && m <= |s| && ParseRest(s, m, keyed).Ok? && ParseRest(s, m, keyed).end <= hi
    ensures Stops(t, m)
  {
    assert t[m] == s[m];
  }

  lemma KeyLocal(s: Text, t: Text, hi: nat, i: nat)
    requires Agree(s, t, hi) && i <= |s| && ParseKey(s, i).Ok? && ParseKey(s, i).end < hi
    ensures ParseKey(t, i) == ParseKey(s, i)
  {
    var k := ParseString(s, i + 1).end;
    var c := SkipSpace(s, k);
    StringLocal(s, t, hi, i + 1);
    SkipSpaceLocal(s, t, hi, k);
    SkipSpaceLocal(s, t, hi, c + 1);
  }

  /** The same characters give the same value, as long as a number cannot go on there. */
  lemma {:induction false} ValueLocal(s: Text, t: Text, hi: nat, i: nat)
    requires Agree(s, t, hi) && i <= |s| && ParseValue(s, i).Ok? && ParseValue(s, i).end <= hi
    requires ParseValue(s, i).value.JNumber? ==> Stops(t, ParseValue(s, i).end)
    ensures ParseValue(t, i) == ParseValue(s, i)
    decreases |s| - i, 0
  {
    if s[i] == QUOTE {
      StringLocal(s, t, hi, i + 1);
    } else if s[i] == LBRACE || s[i] == LBRACKET {
      BodyLocal(s, t, hi, i + 1, s[i] == LBRACE);
    } else {
      AtomLocal(s, t, hi, i, WORDS);
    }
  }

  lemma {:induction false} BodyLocal(s: Text, t: Text, hi: nat, i: nat, keyed: bool)
    requires Agree(s, t, hi) && i <= |s| && ParseBody(s, i, keyed).Ok? && ParseBody(s, i, keyed).end <= hi
    ensures ParseBody(t, i, keyed) == ParseBody(s, i, keyed)
    decreases |s| - i, 3
  {
    var j := SkipSpace(s, i);
    SkipSpaceLocal(s, t, hi, i);
    if s[j] != Close(keyed) { MembersLocal(s, t, hi, j, keyed); }
  }

  lemma {:induction false} MemberLocal(s: Text, t: Text, hi: nat, i: nat, keyed: bool)
    requires Agree(s, t, hi) && i <= |s| && ParseMember(s, i, keyed).Ok? && ParseMember(s, i, keyed).end <= hi
    requires Stops(t, ParseMember(s, i, keyed).end)
    ensures ParseMember(t, i, keyed) == ParseMember(s, i, keyed)
    decreases |s| - i, 1
  {
    if keyed {
      KeyLocal(s, t, hi, i);
      ValueLocal(s, t, hi, ParseKey(s, i).end);
    } else {
      ValueLocal(s, t, hi, i);
    }
  }

  lemma {:induction false} MembersLocal(s: Text, t: Text, hi: nat, i: nat, keyed: bool)
    requires Agree(s, t, hi) && i <= |s| && ParseMembers(s, i, keyed).Ok? && ParseMembers(s, i, keyed).end <= hi
    ensures ParseMembers(t, i, keyed) == ParseMembers(s, i, keyed)
    decreases |s| - i, 2
  {
    var m := ParseMember(s, i, keyed).end;
    AfterValue(s, t, hi, m, keyed);
    RestLocal(s, t, hi, m, keyed);
    MemberLocal(s, t, hi, i, keyed);
  }

  lemma {:induction false} RestLocal(s: Text, t: Text, hi: nat, i: nat, keyed: bool)
    requires Agree(s, t, hi) && i <= |s| && ParseRest(s, i, keyed).Ok? && ParseRest(s, i, keyed).end <= hi
    ensures ParseRest(t, i, keyed) == ParseRest(s, i, keyed)
    decreases |s| - i, 3
  {
    var j := SkipSpace(s, i);
    SkipSpaceLocal(s, t, hi, i);
    if s[j] == COMMA { TailLocal(s, t, hi, j + 1, keyed); }
  }

  lemma {:induction false} TailLocal(s: Text, t: Text, hi: nat, i: nat, keyed: bool)
    requires Agree(s, t, hi) && i <= |s|
    requires var r := ParseMembers(s, SkipSpace(s, i), keyed); r.Ok? && r.end <= hi
    ensures i <= |t| && ParseMembers(t, SkipSpace(t, i), keyed) == ParseMembers(s, SkipSpace(s, i), keyed)
    decreases |s| - i, 3
  {
    SkipSpaceLocal(s, t, hi, i);
    MembersLocal(s, t, hi, SkipSpace(s, i), keyed);
  }
}
