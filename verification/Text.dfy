/** Whitespace cleaning of cell text: runs of whitespace become one space, ends are stripped. */
module Text {

  /** The characters that \s matches and str.strip removes. */
  predicate IsSpace(c: char) { IsSpaceCode(c as int) }

  predicate IsSpaceCode(n: int) {
    9 <= n <= 13 || 28 <= n <= 32 || n == 0x85 || n == 0xa0 || n == 0x1680 || 0x2000 <= n <= 0x200a
    || n == 0x2028 || n == 0x2029 || n == 0x202f || n == 0x205f || n == 0x3000
  }

  function DropLeading(s: string): (r: string)
    ensures |r| <= |s| && (s != "" && IsSpace(s[0]) ==> |r| < |s|)
  {
    if s != "" && IsSpace(s[0]) then DropLeading(s[1..]) else s
  }

  function DropTrailing(s: string): string {
    if s != "" && IsSpace(s[|s| - 1]) then DropTrailing(s[..|s| - 1]) else s
  }

  lemma {:induction false} DropLeadingIs(s: string)
    ensures var r := DropLeading(s); r == s[|s| - |r|..] && (r == "" || !IsSpace(r[0]))
  {
    if s != "" && IsSpace(s[0]) { DropLeadingIs(s[1..]); }
  }

  lemma {:induction false} DropTrailingIs(s: string)
    ensures var r := DropTrailing(s); |r| <= |s| && r == s[..|r|] && (r == "" || !IsSpace(r[|r| - 1]))
    decreases |s|
  {
    if s != "" && IsSpace(s[|s| - 1]) { DropTrailingIs(s[..|s| - 1]); }
  }

  function Collapse(s: string): string
    decreases |s|
  {
    if s == "" then ""
    else if IsSpace(s[0]) then " " + Collapse(DropLeading(s))
    else [s[0]] + Collapse(s[1..])
  }

  function Strip(s: string): string { DropTrailing(DropLeading(s)) }

  function Clean(s: string): string { Strip(Collapse(s)) }

  /** Only single interior spaces are left of any whitespace. */
  ghost predicate Collapsed(s: string) {
    forall i :: 0 <= i < |s| && IsSpace(s[i]) ==> s[i] == ' ' && (i + 1 < |s| ==> !IsSpace(s[i + 1]))
  }

  ghost predicate IsClean(s: string) {
    Collapsed(s) && (s != "" ==> !IsSpace(s[0]) && !IsSpace(s[|s| - 1]))
  }

  lemma CollapsedCons(c: char, t: string)
    requires Collapsed(t) && (IsSpace(c) ==> c == ' ' && (t == "" || !IsSpace(t[0])))
    ensures Collapsed([c] + t)
  {
    var s := [c] + t;
    forall i | 0 <= i < |s| && IsSpace(s[i]) ensures s[i] == ' ' && (i + 1 < |s| ==> !IsSpace(s[i + 1])) {
      if i > 0 { assert s[i] == t[i - 1]; }
    }
  }

  lemma {:induction false} CollapseCollapses(s: string)
    ensures Collapsed(Collapse(s))
    ensures s == "" ==> Collapse(s) == ""
    ensures s != "" && !IsSpace(s[0]) ==> Collapse(s) != "" && Collapse(s)[0] == s[0]
    decreases |s|
  {
    if s != "" {
      if IsSpace(s[0]) {
        DropLeadingIs(s);
        CollapseCollapses(DropLeading(s));
        CollapsedCons(' ', Collapse(DropLeading(s)));
      } else {
        CollapseCollapses(s[1..]);
        CollapsedCons(s[0], Collapse(s[1..]));
      }
    }
  }

  lemma {:induction false} CollapseFixed(s: string)
    requires Collapsed(s)
    ensures Collapse(s) == s
    decreases |s|
  {
    if s != "" {
      assert Collapsed(s[1..]);
      CollapseFixed(s[1..]);
      if IsSpace(s[0]) { assert DropLeading(s) == s[1..]; }
    }
  }

  lemma CleanIsClean(s: string)
    ensures IsClean(Clean(s))
  {
    CollapseCollapses(s);
    var a := DropLeading(Collapse(s));
    DropLeadingIs(Collapse(s));
    DropTrailingIs(a);
    assert Collapsed(a);
    assert Collapsed(DropTrailing(a));
  }

  lemma CleanFixed(s: string)
    requires IsClean(s)
    ensures Clean(s) == s
  {
    CollapseFixed(s);
  }

  // ------------------------------------------------------------------ the words of a text

  /** What stands between white space, in order. */
  function Words(s: string): (ws: seq<string>)
    ensures s != "" && !IsSpace(s[0]) ==> ws != []
  {
    if s == "" then []
    else if IsSpace(s[0]) then Words(s[1..])
    else if |s| == 1 || IsSpace(s[1]) then [[s[0]]] + Words(s[1..])
    else
      var ws := Words(s[1..]);
      [[s[0]] + ws[0]] + ws[1..]
  }

  /** Words with one space between them. */
  function Join(ws: seq<string>): string {
    if ws == [] then "" else if |ws| == 1 then ws[0] else ws[0] + " " + Join(ws[1..])
  }

  lemma {:induction false} WordsDropLeading(s: string)
    ensures Words(DropLeading(s)) == Words(s)
  {
    if s != "" && IsSpace(s[0]) { WordsDropLeading(s[1..]); }
  }

  lemma {:induction false} WordsDropLast(s: string)
    requires s != "" && IsSpace(s[|s| - 1])
    ensures Words(s[..|s| - 1]) == Words(s)
  {
    if |s| > 1 {
      WordsDropLast(s[1..]);
      assert s[..|s| - 1][1..] == s[1..][..|s| - 2];
    }
  }

  lemma {:induction false} WordsDropTrailing(s: string)
    ensures Words(DropTrailing(s)) == Words(s)
    decreases |s|
  {
    if s != "" && IsSpace(s[|s| - 1]) {
      WordsDropLast(s);
      WordsDropTrailing(s[..|s| - 1]);
    }
  }

  lemma CollapseFirst(s: string)
    requires s != ""
    ensures Collapse(s) != "" && (IsSpace(Collapse(s)[0]) <==> IsSpace(s[0]))
  {
  }

  lemma {:induction false} WordsCollapse(s: string)
    ensures Words(Collapse(s)) == Words(s)
    decreases |s|
  {
    if s != "" {
      if IsSpace(s[0]) {
        WordsCollapse(DropLeading(s));
        WordsDropLeading(s);
        assert (" " + Collapse(DropLeading(s)))[1..] == Collapse(DropLeading(s));
      } else {
        WordsCollapse(s[1..]);
        assert ([s[0]] + Collapse(s[1..]))[1..] == Collapse(s[1..]);
        if |s| > 1 { CollapseFirst(s[1..]); }
      }
    }
  }

  /** A longer first word. */
  lemma JoinFirst(c: char, ws: seq<string>)
    requires ws != []
    ensures Join([[c] + ws[0]] + ws[1..]) == [c] + Join(ws)
  {
    var more := [[c] + ws[0]] + ws[1..];
    assert more[1..] == ws[1..];
    if |ws| > 1 { assert ([c] + ws[0]) + " " + Join(ws[1..]) == [c] + (ws[0] + " " + Join(ws[1..])); }
  }

  /** A character before a text that starts with a word lengthens that word. */
  lemma WordsFirst(c: char, t: string)
    requires !IsSpace(c) && t != "" && !IsSpace(t[0])
    ensures Words([c] + t) == [[c] + Words(t)[0]] + Words(t)[1..]
  {
    assert ([c] + t)[1..] == t;
  }

  lemma JoinLonger(c: char, t: string)
    requires !IsSpace(c) && t != "" && !IsSpace(t[0]) && t == Join(Words(t))
    ensures [c] + t == Join(Words([c] + t))
  {
    WordsFirst(c, t);
    JoinFirst(c, Words(t));
  }

  /** A character and a space before it make a word of their own. */
  lemma WordsApart(c: char, t: string)
    requires !IsSpace(c) && t != "" && !IsSpace(t[0])
    ensures Words([c] + " " + t) == [[c]] + Words(t)
  {
    var s := [c] + " " + t;
    assert s[1..] == " " + t && (" " + t)[1..] == t;
  }

  lemma JoinApart(c: char, t: string)
    requires !IsSpace(c) && t != "" && !IsSpace(t[0]) && t == Join(Words(t))
    ensures [c] + " " + t == Join(Words([c] + " " + t))
  {
    WordsApart(c, t);
    assert ([[c]] + Words(t))[1..] == Words(t);
  }

  lemma CleanRest(t: string)
    requires IsClean(t) && |t| > 1
    ensures if IsSpace(t[1]) then |t| > 2 && IsClean(t[2..]) && t == [t[0]] + " " + t[2..]
            else IsClean(t[1..]) && t == [t[0]] + t[1..]
  {
  }

  lemma {:induction false} CleanIsJoined(t: string)
    requires IsClean(t)
    ensures t == Join(Words(t))
    decreases |t|
  {
    if |t| > 1 {
      CleanRest(t);
      if IsSpace(t[1]) {
        CleanIsJoined(t[2..]);
        JoinApart(t[0], t[2..]);
      } else {
        CleanIsJoined(t[1..]);
        JoinLonger(t[0], t[1..]);
      }
    }
  }

  /** Cleaning keeps the words of a text, in order, and puts one space between them. */
  lemma CleanKeepsWords(s: string)
    ensures Words(Clean(s)) == Words(s) && Clean(s) == Join(Words(s))
  {
    var a := Collapse(s);
    WordsCollapse(s);
    WordsDropLeading(a);
    WordsDropTrailing(DropLeading(a));
    CleanIsClean(s);
    CleanIsJoined(Clean(s));
  }
}
