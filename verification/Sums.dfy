/** Sums over finite sets. */
module Sums {

  ghost function SumOver<T>(s: set<T>, f: T -> int): int {
    if s == {} then 0
    else
      var x :| x in s;
      f(x) + SumOver(s - {x}, f)
  }

  /** The order of summation does not matter. */
  lemma {:induction false} SumRemove<T>(s: set<T>, f: T -> int, k: T)
    requires k in s
    ensures SumOver(s, f) == f(k) + SumOver(s - {k}, f)
  {
    var x :| x in s && SumOver(s, f) == f(x) + SumOver(s - {x}, f);
    if x != k {
      SumRemove(s - {x}, f, k);
      SumRemove(s - {k}, f, x);
      assert s - {x} - {k} == s - {k} - {x};
    }
  }

  lemma {:induction false} SumSame<T>(s: set<T>, f: T -> int, g: T -> int)
    requires forall x :: x in s ==> f(x) == g(x)
    ensures SumOver(s, f) == SumOver(s, g)
  {
    if s != {} {
      var x :| x in s;
      SumSame(s - {x}, f, g);
      SumRemove(s, f, x);
      SumRemove(s, g, x);
    }
  }

  lemma {:induction false} SumZero<T>(s: set<T>, f: T -> int)
    requires forall x :: x in s ==> f(x) == 0
    ensures SumOver(s, f) == 0
  {
    if s != {} {
      var x :| x in s;
      SumZero(s - {x}, f);
      SumRemove(s, f, x);
    }
  }

  lemma {:induction false} SumDifference<T>(s: set<T>, f: T -> int, g: T -> int, h: T -> int)
    requires forall x :: x in s ==> h(x) == f(x) - g(x)
    ensures SumOver(s, h) == SumOver(s, f) - SumOver(s, g)
  {
    if s != {} {
      var x :| x in s;
      SumDifference(s - {x}, f, g, h);
      SumRemove(s, f, x);
      SumRemove(s, g, x);
      SumRemove(s, h, x);
    }
  }

  /** Terms outside a subset that are zero do not count. */
  lemma {:induction false} SumSubset<T>(s: set<T>, t: set<T>, f: T -> int)
    requires s <= t
    requires forall x :: x in t - s ==> f(x) == 0
    ensures SumOver(s, f) == SumOver(t, f)
  {
    if t - s != {} {
      var x :| x in t - s;
      SumSubset(s, t - {x}, f);
      SumRemove(t, f, x);
    } else {
      assert forall x :: x in t ==> x in s || x in t - s;
      assert s == t;
    }
  }

  /** How often a key occurs. */
  function Count<T(==)>(xs: seq<T>, k: T): nat {
    if xs == [] then 0 else Count(xs[..|xs| - 1], k) + (if xs[|xs| - 1] == k then 1 else 0)
  }

  /** Counting by key loses nothing: the counts of all keys add up to the length. */
  lemma {:induction false} CountsAddUp<T>(xs: seq<T>, keys: set<T>)
    requires forall x :: x in xs ==> x in keys
    ensures SumOver(keys, k => Count(xs, k)) == |xs|
  {
    var f := k => Count(xs, k);
    if xs == [] {
      SumZero(keys, f);
    } else {
      var init, last := xs[..|xs| - 1], xs[|xs| - 1];
      CountsAddUp(init, keys);
      var g := k => Count(init, k);
      assert last in xs;
      SumRemove(keys, f, last);
      SumRemove(keys, g, last);
      SumSame(keys - {last}, f, g);
    }
  }
}
