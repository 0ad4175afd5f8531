/** Stable sorting by a comparison, as sorted() and list.sort() do. */
module Sorting {

  /** x goes before the first element that x comes strictly before; equal elements keep their order. */
  function Insert<T>(x: T, xs: seq<T>, le: (T, T) -> bool): seq<T> {
    if xs == [] || le(x, xs[0]) then [x] + xs else [xs[0]] + Insert(x, xs[1..], le)
  }

  function Sort<T>(xs: seq<T>, le: (T, T) -> bool): seq<T> {
    if xs == [] then [] else Insert(xs[0], Sort(xs[1..], le), le)
  }

  ghost predicate Sorted<T(!new)>(xs: seq<T>, le: (T, T) -> bool) {
    |xs| < 2 || (le(xs[0], xs[1]) && Sorted(xs[1..], le))
  }

  ghost predicate Total<T(!new)>(le: (T, T) -> bool) { forall x, y :: le(x, y) || le(y, x) }

  lemma {:induction false} InsertSorted<T(!new)>(x: T, xs: seq<T>, le: (T, T) -> bool)
    requires Total(le) && Sorted(xs, le)
    ensures Sorted(Insert(x, xs, le), le)
  {
    if xs != [] && !le(x, xs[0]) {
      InsertSorted(x, xs[1..], le);
      assert Insert(x, xs, le)[1..] == Insert(x, xs[1..], le);
    } else {
      assert Insert(x, xs, le)[1..] == xs;
    }
  }

  lemma {:induction false} SortSorted<T(!new)>(xs: seq<T>, le: (T, T) -> bool)
    requires Total(le)
    ensures Sorted(Sort(xs, le), le)
  {
    if xs != [] {
      SortSorted(xs[1..], le);
      InsertSorted(xs[0], Sort(xs[1..], le), le);
    }
  }

  function Count<T>(xs: seq<T>, p: T -> bool): nat {
    if xs == [] then 0 else (if p(xs[0]) then 1 else 0) + Count(xs[1..], p)
  }

  lemma {:induction false} CountConcat<T>(xs: seq<T>, ys: seq<T>, p: T -> bool)
    ensures Count(xs + ys, p) == Count(xs, p) + Count(ys, p)
  {
    if xs == [] {
      assert xs + ys == ys;
    } else {
      CountConcat(xs[1..], ys, p);
      assert (xs + ys)[1..] == xs[1..] + ys;
    }
  }

  lemma {:induction false} InsertCount<T>(x: T, xs: seq<T>, le: (T, T) -> bool, p: T -> bool)
    ensures Count(Insert(x, xs, le), p) == (if p(x) then 1 else 0) + Count(xs, p)
  {
    if xs != [] && !le(x, xs[0]) {
      InsertCount(x, xs[1..], le, p);
      assert Insert(x, xs, le)[1..] == Insert(x, xs[1..], le);
    } else {
      assert Insert(x, xs, le)[1..] == xs;
    }
  }

  /** Sorting keeps how many elements have a property. */
  lemma {:induction false} SortCount<T>(xs: seq<T>, le: (T, T) -> bool, p: T -> bool)
    ensures Count(Sort(xs, le), p) == Count(xs, p)
  {
    if xs != [] {
      SortCount(xs[1..], le, p);
      InsertCount(xs[0], Sort(xs[1..], le), le, p);
    }
  }

  lemma {:induction false} InsertHas<T>(x: T, xs: seq<T>, le: (T, T) -> bool, y: T)
    ensures y in Insert(x, xs, le) <==> y == x || y in xs
  {
    if xs != [] && !le(x, xs[0]) { InsertHas(x, xs[1..], le, y); }
  }

  /** Sorting keeps the elements. */
  lemma {:induction false} SortHas<T>(xs: seq<T>, le: (T, T) -> bool, y: T)
    ensures y in Sort(xs, le) <==> y in xs
  {
    if xs != [] {
      SortHas(xs[1..], le, y);
      InsertHas(xs[0], Sort(xs[1..], le), le, y);
    }
  }

  // ------------------------------------------------------------------ what a list holds

  /** All that f finds in the elements, with how often it occurs. */
  function Gather<T, U>(xs: seq<T>, f: T -> multiset<U>): multiset<U> {
    if xs == [] then multiset{} else f(xs[0]) + Gather(xs[1..], f)
  }

  lemma {:induction false} GatherConcat<T, U>(xs: seq<T>, ys: seq<T>, f: T -> multiset<U>)
    ensures Gather(xs + ys, f) == Gather(xs, f) + Gather(ys, f)
  {
    if xs == [] {
      assert xs + ys == ys;
    } else {
      GatherConcat(xs[1..], ys, f);
      assert (xs + ys)[1..] == xs[1..] + ys;
    }
  }

  lemma {:induction false} GatherInsert<T, U>(x: T, xs: seq<T>, le: (T, T) -> bool, f: T -> multiset<U>)
    ensures Gather(Insert(x, xs, le), f) == f(x) + Gather(xs, f)
  {
    if xs != [] && !le(x, xs[0]) {
      GatherInsert(x, xs[1..], le, f);
      assert Insert(x, xs, le)[1..] == Insert(x, xs[1..], le);
    } else {
      assert Insert(x, xs, le)[1..] == xs;
    }
  }

  /** Sorting keeps all there is, with how often it occurs. */
  lemma {:induction false} GatherSort<T, U>(xs: seq<T>, le: (T, T) -> bool, f: T -> multiset<U>)
    ensures Gather(Sort(xs, le), f) == Gather(xs, f)
  {
    if xs != [] {
      GatherSort(xs[1..], le, f);
      GatherInsert(xs[0], Sort(xs[1..], le), le, f);
    }
  }

  /** Text order, character by character. */
  predicate TextLe(a: string, b: string) {
    a == "" || (b != "" && (a[0] < b[0] || (a[0] == b[0] && TextLe(a[1..], b[1..]))))
  }

  lemma {:induction false} TextTotal(a: string, b: string)
    ensures TextLe(a, b) || TextLe(b, a)
  {
    if a != "" && b != "" && a[0] == b[0] { TextTotal(a[1..], b[1..]); }
  }

  lemma {:induction false} TextLeTrans(a: string, b: string, c: string)
    requires TextLe(a, b) && TextLe(b, c)
    ensures TextLe(a, c)
  {
    if a != "" && a[0] == b[0] && b[0] == c[0] { TextLeTrans(a[1..], b[1..], c[1..]); }
  }

  lemma {:induction false} TextLeSame(a: string, b: string)
    requires TextLe(a, b) && TextLe(b, a)
    ensures a == b
  {
    if a != "" {
      TextLeSame(a[1..], b[1..]);
      assert a == [a[0]] + a[1..] && b == [b[0]] + b[1..];
    }
  }
}
