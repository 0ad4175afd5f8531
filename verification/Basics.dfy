/** Small shared vocabulary: options, and lists put together from parts. */
module Basics {
  datatype Option<+T> = None | Some(value: T)

  lemma Assoc<T>(a: seq<T>, b: seq<T>, c: seq<T>)
    ensures (a + b) + c == a + (b + c)
  {
  }

  // ------------------------------------------------------------------ the values that are there

  function Somes<T>(s: seq<Option<T>>): seq<T> {
    if s == [] then [] else (if s[0].Some? then [s[0].value] else []) + Somes(s[1..])
  }

  lemma {:induction false} SomesAt<T>(s: seq<Option<T>>, k: nat) returns (c: nat)
    requires k < |Somes(s)|
    ensures c < |s| && s[c] == Some(Somes(s)[k])
    decreases |s|
  {
    if s[0].Some? && k == 0 {
      c := 0;
    } else {
      var d := SomesAt(s[1..], if s[0].Some? then k - 1 else k);
      c := d + 1;
    }
  }

  lemma {:induction false} SomesOrder<T>(s: seq<Option<T>>, a: nat, b: nat) returns (c: nat, d: nat)
    requires a < b < |Somes(s)|
    ensures c < d < |s| && s[c] == Some(Somes(s)[a]) && s[d] == Some(Somes(s)[b])
    decreases |s|
  {
    if s[0].Some? && a == 0 {
      var e := SomesAt(s[1..], b - 1);
      c, d := 0, e + 1;
    } else {
      var e, f := SomesOrder(s[1..], if s[0].Some? then a - 1 else a, if s[0].Some? then b - 1 else b);
      c, d := e + 1, f + 1;
    }
  }

  lemma {:induction false} SomesHas<T>(s: seq<Option<T>>, c: nat) returns (k: nat)
    requires c < |s| && s[c].Some?
    ensures k < |Somes(s)| && Somes(s)[k] == s[c].value
    decreases |s|
  {
    if c == 0 {
      k := 0;
    } else {
      var j := SomesHas(s[1..], c - 1);
      k := if s[0].Some? then j + 1 else j;
    }
  }

  // ------------------------------------------------------------------ lists one after the other

  function Flatten<T>(r: seq<seq<T>>): seq<T> {
    if r == [] then [] else Flatten(r[..|r| - 1]) + r[|r| - 1]
  }

  lemma {:induction false} FlattenAt<T>(r: seq<seq<T>>, k: nat) returns (t: nat, i: nat)
    requires k < |Flatten(r)|
    ensures t < |r| && i < |r[t]| && Flatten(r)[k] == r[t][i]
    decreases |r|
  {
    var m := |Flatten(r[..|r| - 1])|;
    if k < m {
      t, i := FlattenAt(r[..|r| - 1], k);
    } else {
      t, i := |r| - 1, k - m;
    }
  }

  lemma {:induction false} FlattenOrder<T>(r: seq<seq<T>>, a: nat, b: nat) returns (t: nat, i: nat, u: nat, j: nat)
    requires a < b < |Flatten(r)|
    ensures t < |r| && i < |r[t]| && Flatten(r)[a] == r[t][i]
    ensures u < |r| && j < |r[u]| && Flatten(r)[b] == r[u][j]
    ensures t < u || (t == u && i < j)
    decreases |r|
  {
    var m := |Flatten(r[..|r| - 1])|;
    if b < m {
      t, i, u, j := FlattenOrder(r[..|r| - 1], a, b);
    } else {
      u, j := |r| - 1, b - m;
      if a < m {
        t, i := FlattenAt(r[..|r| - 1], a);
      } else {
        t, i := |r| - 1, a - m;
      }
    }
  }

  lemma {:induction false} FlattenHas<T>(r: seq<seq<T>>, t: nat, i: nat) returns (k: nat)
    requires t < |r| && i < |r[t]|
    ensures k < |Flatten(r)| && Flatten(r)[k] == r[t][i]
    decreases |r|
  {
    if t == |r| - 1 {
      k := |Flatten(r[..|r| - 1])| + i;
    } else {
      k := FlattenHas(r[..|r| - 1], t, i);
    }
  }
}
