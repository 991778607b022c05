/**
 * `Array.prototype.sort` with a comparator, as the route handlers and pages use it.
 * Since ES2019 the sort is stable; the model is an insertion sort that keeps
 * equal elements in their input order. `leq(a, b)` stands for `cmp(a, b) <= 0`.
 */
module Sorting {

  /** `leq` is total and transitive: what a consistent comparator gives. */
  ghost predicate TotalPreorder<T(!new)>(leq: (T, T) -> bool) {
    && (forall a, b :: leq(a, b) || leq(b, a))
    && (forall a, b, c :: leq(a, b) && leq(b, c) ==> leq(a, c))
  }

  ghost predicate SortedBy<T>(s: seq<T>, leq: (T, T) -> bool) {
    forall i, j :: 0 <= i < j < |s| ==> leq(s[i], s[j])
  }

  /** `f` applied to every element, in order (`s.map(f)`). */
  function Project<T, U>(s: seq<T>, f: T -> U): (r: seq<U>)
    ensures |r| == |s|
    ensures forall i :: 0 <= i < |s| ==> r[i] == f(s[i])
  {
    if s == [] then [] else [f(s[0])] + Project(s[1..], f)
  }

  /** `x` placed just before the first element of `s` it may precede. */
  function Insert<T>(x: T, s: seq<T>, leq: (T, T) -> bool): (r: seq<T>)
    ensures |r| == |s| + 1
    ensures multiset(r) == multiset(s) + multiset{x}
  {
    if s == [] || leq(x, s[0]) then [x] + s
    else
      assert s == [s[0]] + s[1..];
      [s[0]] + Insert(x, s[1..], leq)
  }

  /** Stable insertion sort: the model of `s.sort(cmp)`. */
  function Sort<T>(s: seq<T>, leq: (T, T) -> bool): (r: seq<T>)
    ensures |r| == |s|
    ensures multiset(r) == multiset(s)
  {
    if s == [] then []
    else
      assert s == [s[0]] + s[1..];
      Insert(s[0], Sort(s[1..], leq), leq)
  }

  lemma {:induction false} InsertSorted<T(!new)>(x: T, s: seq<T>, leq: (T, T) -> bool)
    requires TotalPreorder(leq)
    requires SortedBy(s, leq)
    ensures SortedBy(Insert(x, s, leq), leq)
  {
    if s == [] || leq(x, s[0]) {
    } else {
      var t := Insert(x, s[1..], leq);
      InsertSorted(x, s[1..], leq);
      forall e | e in t
        ensures leq(s[0], e)
      {
        assert e in multiset(t);
        if e != x {
          assert e in multiset(s[1..]);
          assert e in s[1..];
        }
      }
    }
  }

  /** The sort's output is ordered by `leq`. */
  lemma {:induction false} SortSorted<T(!new)>(s: seq<T>, leq: (T, T) -> bool)
    requires TotalPreorder(leq)
    ensures SortedBy(Sort(s, leq), leq)
  {
    if s != [] {
      SortSorted(s[1..], leq);
      InsertSorted(s[0], Sort(s[1..], leq), leq);
    }
  }

  lemma {:induction false} InsertProject<T, U>(x: T, s: seq<T>, leq: (T, T) -> bool, f: T -> U)
    ensures multiset(Project(Insert(x, s, leq), f)) == multiset(Project(s, f)) + multiset{f(x)}
  {
    if s == [] || leq(x, s[0]) {
      assert ([x] + s)[1..] == s;
    } else {
      var t := Insert(x, s[1..], leq);
      InsertProject(x, s[1..], leq, f);
      assert ([s[0]] + t)[1..] == t;
      assert Project([s[0]] + t, f) == [f(s[0])] + Project(t, f);
    }
  }

  /** Sorting and then projecting gives the projections of the input, rearranged. */
  lemma {:induction false} SortProject<T, U>(s: seq<T>, leq: (T, T) -> bool, f: T -> U)
    ensures multiset(Project(Sort(s, leq), f)) == multiset(Project(s, f))
  {
    if s != [] {
      var t := Sort(s[1..], leq);
      SortProject(s[1..], leq, f);
      InsertProject(s[0], t, leq, f);
      assert Sort(s, leq) == Insert(s[0], t, leq);
    }
  }
}
