/** Folding readings of the same thing into one: each new element is merged into the first kept
    one that has its key and fits it, or is kept as it is. */
module Merging {
  import opened Basics

  /** How elements are told apart and put together.  An element without a key is never merged. */
  datatype Way<!T(==), !K(==)> = Way(key: T -> Option<K>, fits: (T, T) -> bool, merge: (T, T) -> T)

  /** The first index from i on whose element has the key k and fits c, or the length. */
  function FirstFit<T, K>(w: Way<T, K>, kept: seq<T>, c: T, k: K, i: nat): (idx: nat)
    requires i <= |kept|
    ensures i <= idx <= |kept|
    decreases |kept| - i
  {
    if i == |kept| || (w.key(kept[i]) == Some(k) && w.fits(kept[i], c)) then i else FirstFit(w, kept, c, k, i + 1)
  }

  /** Where c goes: the index of the element it is merged into, or the length when it is kept. */
  function Target<T, K>(w: Way<T, K>, kept: seq<T>, c: T): (idx: nat)
    ensures idx <= |kept|
  {
    if w.key(c).None? then |kept| else FirstFit(w, kept, c, w.key(c).value, 0)
  }

  function Absorb<T, K>(w: Way<T, K>, kept: seq<T>, c: T): seq<T> {
    var idx := Target(w, kept, c);
    if idx < |kept| then kept[idx := w.merge(kept[idx], c)] else kept + [c]
  }

  /** What is kept of the first n elements. */
  function Kept<T, K>(w: Way<T, K>, xs: seq<T>, n: nat): seq<T>
    requires n <= |xs|
  {
    if n == 0 then [] else Absorb(w, Kept(w, xs, n - 1), xs[n - 1])
  }

  /** The elements that went into each kept one, in order. */
  function Groups<T, K>(w: Way<T, K>, xs: seq<T>, n: nat): (gs: seq<seq<T>>)
    requires n <= |xs|
    ensures |gs| == |Kept(w, xs, n)|
  {
    if n == 0 then []
    else
      var gs, idx := Groups(w, xs, n - 1), Target(w, Kept(w, xs, n - 1), xs[n - 1]);
      if idx < |gs| then gs[idx := gs[idx] + [xs[n - 1]]] else gs + [[xs[n - 1]]]
  }

  lemma {:induction false} FirstFitIs<T, K>(w: Way<T, K>, kept: seq<T>, c: T, k: K, i: nat)
    requires i <= |kept|
    ensures var idx := FirstFit(w, kept, c, k, i); idx < |kept| ==> w.key(kept[idx]) == Some(k) && w.fits(kept[idx], c)
    decreases |kept| - i
  {
    if i < |kept| && !(w.key(kept[i]) == Some(k) && w.fits(kept[i], c)) { FirstFitIs(w, kept, c, k, i + 1); }
  }

  /** No element before the first fit fits. */
  lemma {:induction false} NoneBefore<T, K>(w: Way<T, K>, kept: seq<T>, c: T, k: K, i: nat, j: nat)
    requires i <= |kept| && i <= j < FirstFit(w, kept, c, k, i)
    ensures !(w.key(kept[j]) == Some(k) && w.fits(kept[j], c))
    decreases |kept| - i
  {
    if i < j { NoneBefore(w, kept, c, k, i + 1, j); }
  }

  /** An element is merged only into one with its own key that fits it. */
  lemma TargetIs<T, K>(w: Way<T, K>, kept: seq<T>, c: T)
    ensures var idx := Target(w, kept, c);
      idx < |kept| ==> w.key(c).Some? && w.key(kept[idx]) == w.key(c) && w.fits(kept[idx], c)
  {
    if w.key(c).Some? { FirstFitIs(w, kept, c, w.key(c).value, 0); }
  }

  // ------------------------------------------------------------------ what every group keeps

  ghost predicate Starts<T(!new)>(law: (T, seq<T>) -> bool) { forall c :: law(c, [c]) }

  /** A law about a survivor and its members that merging keeps. */
  ghost predicate Stays<T(!new), K>(w: Way<T, K>, law: (T, seq<T>) -> bool) {
    forall s, ms, c :: law(s, ms) && w.key(c).Some? && w.key(s) == w.key(c) && w.fits(s, c) ==>
      law(w.merge(s, c), ms + [c])
  }

  ghost predicate AllObey<T(!new)>(law: (T, seq<T>) -> bool, kept: seq<T>, gs: seq<seq<T>>)
    requires |kept| == |gs|
  {
    forall i :: 0 <= i < |kept| ==> law(kept[i], gs[i])
  }

  lemma {:induction false} GroupsObey<T(!new), K>(w: Way<T, K>, xs: seq<T>, n: nat, law: (T, seq<T>) -> bool)
    requires n <= |xs| && Starts(law) && Stays(w, law)
    ensures AllObey(law, Kept(w, xs, n), Groups(w, xs, n))
  {
    if n > 0 {
      GroupsObey(w, xs, n - 1, law);
      ObeysOnce(w, Kept(w, xs, n - 1), Groups(w, xs, n - 1), xs[n - 1], law);
    }
  }

  lemma ObeysOnce<T(!new), K>(w: Way<T, K>, kept: seq<T>, gs: seq<seq<T>>, c: T, law: (T, seq<T>) -> bool)
    requires |kept| == |gs| && AllObey(law, kept, gs) && Starts(law) && Stays(w, law)
    ensures var idx := Target(w, kept, c);
      var next := if idx < |gs| then gs[idx := gs[idx] + [c]] else gs + [[c]];
      |Absorb(w, kept, c)| == |next| && AllObey(law, Absorb(w, kept, c), next)
  {
    TargetIs(w, kept, c);
  }

  // ------------------------------------------------------------------ nothing is lost or mixed up

  /** All elements of all groups, with how often they occur. */
  function Bag<T>(gs: seq<seq<T>>): multiset<T> {
    if gs == [] then multiset{} else Bag(gs[..|gs| - 1]) + multiset(gs[|gs| - 1])
  }

  lemma {:induction false} BagUpdate<T>(gs: seq<seq<T>>, i: nat, c: T)
    requires i < |gs|
    ensures Bag(gs[i := gs[i] + [c]]) == Bag(gs) + multiset{c}
    decreases |gs|
  {
    var n := |gs| - 1;
    var out := gs[i := gs[i] + [c]];
    if i == n {
      assert out[..n] == gs[..n];
    } else {
      BagUpdate(gs[..n], i, c);
      assert out[..n] == gs[..n][i := gs[i] + [c]];
    }
  }

  lemma BagAppend<T>(gs: seq<seq<T>>, c: T)
    ensures Bag(gs + [[c]]) == Bag(gs) + multiset{c}
  {
    assert (gs + [[c]])[..|gs|] == gs;
  }

  lemma PrefixGrows<T>(xs: seq<T>, n: nat)
    requires 0 < n <= |xs|
    ensures multiset(xs[..n]) == multiset(xs[..n - 1]) + multiset{xs[n - 1]}
  {
    assert xs[..n] == xs[..n - 1] + [xs[n - 1]];
  }

  /** The groups hold each element exactly as often as it was given. */
  lemma {:induction false} GroupsHoldAll<T, K>(w: Way<T, K>, xs: seq<T>, n: nat)
    requires n <= |xs|
    ensures Bag(Groups(w, xs, n)) == multiset(xs[..n])
  {
    if n > 0 {
      GroupsHoldAll(w, xs, n - 1);
      PrefixGrows(xs, n);
      var gs, idx := Groups(w, xs, n - 1), Target(w, Kept(w, xs, n - 1), xs[n - 1]);
      if idx < |gs| { BagUpdate(gs, idx, xs[n - 1]); } else { BagAppend(gs, xs[n - 1]); }
    }
  }

  /** The elements that have no key, in order. */
  function Keyless<T, K>(w: Way<T, K>, xs: seq<T>): seq<T> {
    if xs == [] then []
    else Keyless(w, xs[..|xs| - 1]) + (if w.key(xs[|xs| - 1]).None? then [xs[|xs| - 1]] else [])
  }

  /** Merging keeps the key. */
  ghost predicate KeepsKeys<T(!new), K>(w: Way<T, K>) {
    forall s, c :: w.key(c).Some? && w.key(s) == w.key(c) && w.fits(s, c) ==> w.key(w.merge(s, c)) == w.key(c)
  }

  lemma {:induction false} KeylessUpdate<T, K>(w: Way<T, K>, xs: seq<T>, i: nat, x: T)
    requires i < |xs| && w.key(xs[i]).Some? && w.key(x).Some?
    ensures Keyless(w, xs[i := x]) == Keyless(w, xs)
    decreases |xs|
  {
    var n := |xs| - 1;
    if i < n {
      KeylessUpdate(w, xs[..n], i, x);
      assert xs[i := x][..n] == xs[..n][i := x];
    } else {
      assert xs[i := x][..n] == xs[..n];
    }
  }

  /** Elements without a key pass through unchanged and in order. */
  lemma {:induction false} KeylessPass<T(!new), K>(w: Way<T, K>, xs: seq<T>, n: nat)
    requires n <= |xs| && KeepsKeys(w)
    ensures Keyless(w, Kept(w, xs, n)) == Keyless(w, xs[..n])
  {
    if n > 0 {
      KeylessPass(w, xs, n - 1);
      var kept, c := Kept(w, xs, n - 1), xs[n - 1];
      var idx := Target(w, kept, c);
      TargetIs(w, kept, c);
      assert xs[..n][..n - 1] == xs[..n - 1];
      if idx < |kept| {
        KeylessUpdate(w, kept, idx, w.merge(kept[idx], c));
      } else {
        assert (kept + [c])[..|kept|] == kept;
      }
    }
  }

  /** Some element has the key. */
  predicate HasKey<T, K(==)>(w: Way<T, K>, xs: seq<T>, k: K)
  {
    xs != [] && (w.key(xs[|xs| - 1]) == Some(k) || HasKey(w, xs[..|xs| - 1], k))
  }

  lemma {:induction false} HasKeyUpdate<T, K>(w: Way<T, K>, xs: seq<T>, i: nat, x: T, k: K)
    requires i < |xs| && w.key(xs[i]) == w.key(x)
    ensures HasKey(w, xs[i := x], k) == HasKey(w, xs, k)
    decreases |xs|
  {
    var n := |xs| - 1;
    if i < n {
      HasKeyUpdate(w, xs[..n], i, x, k);
      assert xs[i := x][..n] == xs[..n][i := x];
    } else {
      assert xs[i := x][..n] == xs[..n];
    }
  }

  lemma {:induction false} HasKeyAt<T, K>(w: Way<T, K>, xs: seq<T>, i: nat, k: K)
    requires i < |xs| && w.key(xs[i]) == Some(k)
    ensures HasKey(w, xs, k)
    decreases |xs|
  {
    if i < |xs| - 1 { HasKeyAt(w, xs[..|xs| - 1], i, k); }
  }

  /** Exactly the given keys are kept. */
  lemma {:induction false} KeysKept<T(!new), K>(w: Way<T, K>, xs: seq<T>, n: nat, k: K)
    requires n <= |xs| && KeepsKeys(w)
    ensures HasKey(w, Kept(w, xs, n), k) <==> HasKey(w, xs[..n], k)
  {
    if n > 0 {
      KeysKept(w, xs, n - 1, k);
      var kept, c := Kept(w, xs, n - 1), xs[n - 1];
      var idx := Target(w, kept, c);
      TargetIs(w, kept, c);
      assert xs[..n][..n - 1] == xs[..n - 1];
      if idx < |kept| {
        HasKeyUpdate(w, kept, idx, w.merge(kept[idx], c), k);
        if w.key(c) == Some(k) { HasKeyAt(w, kept, idx, k); }
      } else {
        assert (kept + [c])[..|kept|] == kept;
      }
    }
  }

  // ------------------------------------------------------------------ an index by key

  /** The kept indices from i on with key k: what the index by key lists. */
  function IndicesFrom<T, K>(w: Way<T, K>, kept: seq<T>, k: K, i: nat): seq<nat>
    requires i <= |kept|
    decreases |kept| - i
  {
    if i == |kept| then [] else (if w.key(kept[i]) == Some(k) then [i] else []) + IndicesFrom(w, kept, k, i + 1)
  }

  predicate AllBelow(listed: seq<nat>, n: nat) { listed == [] || (listed[0] < n && AllBelow(listed[1..], n)) }

  function FirstIn<T, K>(w: Way<T, K>, kept: seq<T>, c: T, listed: seq<nat>): nat
    requires AllBelow(listed, |kept|)
  {
    if listed == [] then |kept| else if w.fits(kept[listed[0]], c) then listed[0] else FirstIn(w, kept, c, listed[1..])
  }

  lemma FirstInHead<T, K>(w: Way<T, K>, kept: seq<T>, c: T, i: nat, rest: seq<nat>)
    requires i < |kept| && AllBelow(rest, |kept|)
    ensures AllBelow([i] + rest, |kept|)
    ensures FirstIn(w, kept, c, [i] + rest) == if w.fits(kept[i], c) then i else FirstIn(w, kept, c, rest)
  {
    assert ([i] + rest)[1..] == rest;
  }

  /** Scanning the indices of a key finds the first fit. */
  lemma {:induction false} FirstInIsFirstFit<T, K>(w: Way<T, K>, kept: seq<T>, c: T, k: K, i: nat)
    requires i <= |kept|
    ensures AllBelow(IndicesFrom(w, kept, k, i), |kept|)
    ensures FirstIn(w, kept, c, IndicesFrom(w, kept, k, i)) == FirstFit(w, kept, c, k, i)
    decreases |kept| - i
  {
    if i < |kept| {
      FirstInIsFirstFit(w, kept, c, k, i + 1);
      FirstInHead(w, kept, c, i, IndicesFrom(w, kept, k, i + 1));
      assert [] + IndicesFrom(w, kept, k, i + 1) == IndicesFrom(w, kept, k, i + 1);
    }
  }

  /** The index by key lists, for every key, the kept indices with that key. */
  ghost predicate Indexed<T, K(!new)>(w: Way<T, K>, kept: seq<T>, byKey: map<K, seq<nat>>) {
    forall k :: (if k in byKey then byKey[k] else []) == IndicesFrom(w, kept, k, 0)
  }

  lemma {:induction false} IndicesUpdate<T, K>(w: Way<T, K>, kept: seq<T>, j: nat, x: T, k: K, i: nat)
    requires i <= |kept| && j < |kept| && w.key(kept[j]) == w.key(x)
    ensures IndicesFrom(w, kept[j := x], k, i) == IndicesFrom(w, kept, k, i)
    decreases |kept| - i
  {
    if i < |kept| { IndicesUpdate(w, kept, j, x, k, i + 1); }
  }

  lemma {:induction false} IndicesAppend<T, K>(w: Way<T, K>, kept: seq<T>, x: T, k: K, i: nat)
    requires i <= |kept|
    ensures IndicesFrom(w, kept + [x], k, i) == IndicesFrom(w, kept, k, i)
      + (if w.key(x) == Some(k) then [|kept|] else [])
    decreases |kept| - i
  {
    var last := if w.key(x) == Some(k) then [|kept|] else [];
    if i == |kept| {
      assert IndicesFrom(w, kept + [x], k, i + 1) == [];
      assert last + [] == last && [] + last == last;
    } else {
      IndicesAppend(w, kept, x, k, i + 1);
      Assoc(if w.key(kept[i]) == Some(k) then [i] else [], IndicesFrom(w, kept, k, i + 1), last);
    }
  }

  lemma IndexedUpdate<T, K(!new)>(w: Way<T, K>, kept: seq<T>, byKey: map<K, seq<nat>>, j: nat, x: T)
    requires Indexed(w, kept, byKey) && j < |kept| && w.key(kept[j]) == w.key(x)
    ensures Indexed(w, kept[j := x], byKey)
  {
    forall k ensures IndicesFrom(w, kept[j := x], k, 0) == IndicesFrom(w, kept, k, 0) {
      IndicesUpdate(w, kept, j, x, k, 0);
    }
  }

  function AddIndex<K(==)>(byKey: map<K, seq<nat>>, k: Option<K>, n: nat): map<K, seq<nat>> {
    if k.None? then byKey else byKey[k.value := (if k.value in byKey then byKey[k.value] else []) + [n]]
  }

  lemma IndexedAppend<T, K(!new)>(w: Way<T, K>, kept: seq<T>, byKey: map<K, seq<nat>>, x: T)
    requires Indexed(w, kept, byKey)
    ensures Indexed(w, kept + [x], AddIndex(byKey, w.key(x), |kept|))
  {
    var next := AddIndex(byKey, w.key(x), |kept|);
    forall k ensures (if k in next then next[k] else []) == IndicesFrom(w, kept + [x], k, 0) {
      IndicesAppend(w, kept, x, k, 0);
      assert IndicesFrom(w, kept, k, 0) + [] == IndicesFrom(w, kept, k, 0);
    }
  }

  /** Scans the indices listed under the element's key. */
  method Find<T, K(==, !new)>(w: Way<T, K>, kept: seq<T>, byKey: map<K, seq<nat>>, c: T) returns (idx: nat)
    requires Indexed(w, kept, byKey)
    ensures idx == Target(w, kept, c)
  {
    var k := w.key(c);
    if k.None? {
      return |kept|;
    }
    ghost var all := IndicesFrom(w, kept, k.value, 0);
    FirstInIsFirstFit(w, kept, c, k.value, 0);
    var listed := if k.value in byKey then byKey[k.value] else [];
    var p := 0;
    while p < |listed|
      invariant 0 <= p <= |listed| && AllBelow(listed[p..], |kept|)
      invariant FirstIn(w, kept, c, listed[p..]) == FirstIn(w, kept, c, all)
    {
      assert listed[p..][0] == listed[p] && listed[p..][1..] == listed[p + 1..];
      if w.fits(kept[listed[p]], c) {
        return listed[p];
      }
      p := p + 1;
    }
    idx := |kept|;
  }

  /** One element after the other is merged into the first kept one that fits it, or kept. */
  method MergeAll<T(!new), K(==, !new)>(w: Way<T, K>, xs: seq<T>) returns (kept: seq<T>)
    requires KeepsKeys(w)
    ensures kept == Kept(w, xs, |xs|)
  {
    kept := [];
    var byKey: map<K, seq<nat>> := map[];
    for i := 0 to |xs|
      invariant kept == Kept(w, xs, i) && Indexed(w, kept, byKey)
    {
      var idx := Find(w, kept, byKey, xs[i]);
      if idx < |kept| {
        TargetIs(w, kept, xs[i]);
        IndexedUpdate(w, kept, byKey, idx, w.merge(kept[idx], xs[i]));
        kept := kept[idx := w.merge(kept[idx], xs[i])];
      } else {
        IndexedAppend(w, kept, byKey, xs[i]);
        byKey := AddIndex(byKey, w.key(xs[i]), |kept|);
        kept := kept + [xs[i]];
      }
    }
  }
}
