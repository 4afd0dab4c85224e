/** Concatenation, selection and counting over sequences. */
module Sequences {

  /** The elements of the parts, one part after the other: a nested list comprehension. */
  function Flatten<T>(parts: seq<seq<T>>): seq<T> {
    if parts == [] then [] else Flatten(parts[..|parts| - 1]) + parts[|parts| - 1]
  }

  /** The elements that satisfy `p`, in order. */
  function Filter<T>(xs: seq<T>, p: T -> bool): seq<T> {
    if xs == [] then []
    else Filter(xs[..|xs| - 1], p) + (if p(xs[|xs| - 1]) then [xs[|xs| - 1]] else [])
  }

  lemma {:induction false} FilterAppend<T>(xs: seq<T>, ys: seq<T>, p: T -> bool)
    ensures Filter(xs + ys, p) == Filter(xs, p) + Filter(ys, p)
  {
    if ys == [] {
      assert xs + ys == xs;
    } else {
      FilterAppend(xs, ys[..|ys| - 1], p);
      assert (xs + ys)[..|xs + ys| - 1] == xs + ys[..|ys| - 1];
    }
  }

  lemma {:induction false} FilterFlatten<T>(parts: seq<seq<T>>, p: T -> bool)
    ensures Filter(Flatten(parts), p) == Flatten(seq(|parts|, i requires 0 <= i < |parts| => Filter(parts[i], p)))
  {
    if parts != [] {
      var n := |parts| - 1;
      FilterFlatten(parts[..n], p);
      FilterAppend(Flatten(parts[..n]), parts[n], p);
      assert seq(|parts|, i requires 0 <= i < |parts| => Filter(parts[i], p))[..n]
          == seq(n, i requires 0 <= i < n => Filter(parts[..n][i], p));
    }
  }

  lemma {:induction false} FilterMembers<T>(xs: seq<T>, p: T -> bool)
    ensures forall x :: x in Filter(xs, p) <==> x in xs && p(x)
    ensures |Filter(xs, p)| <= |xs|
  {
    if xs != [] {
      FilterMembers(xs[..|xs| - 1], p);
      assert xs == xs[..|xs| - 1] + [xs[|xs| - 1]];
    }
  }

  /** Where the elements that satisfy `p` are. */
  ghost function Positions<T>(xs: seq<T>, p: T -> bool): set<int> {
    set i | 0 <= i < |xs| && p(xs[i])
  }

  lemma {:induction false} FilterCounts<T>(xs: seq<T>, p: T -> bool)
    ensures |Filter(xs, p)| == |Positions(xs, p)|
  {
    if xs != [] {
      var n := |xs| - 1;
      FilterCounts(xs[..n], p);
      assert Positions(xs, p) == Positions(xs[..n], p) + (if p(xs[n]) then {n} else {});
    }
  }

  lemma {:induction false} FilterTwice<T>(xs: seq<T>, p: T -> bool, q: T -> bool, both: T -> bool)
    requires forall x :: both(x) <==> p(x) && q(x)
    ensures Filter(Filter(xs, p), q) == Filter(xs, both)
  {
    if xs != [] {
      var n := |xs| - 1;
      FilterTwice(xs[..n], p, q, both);
      if p(xs[n]) {
        assert Filter(xs, p) == Filter(xs[..n], p) + [xs[n]];
      } else {
        assert Filter(xs, p) == Filter(xs[..n], p);
      }
    }
  }

  lemma {:induction false} FlattenMember<T>(parts: seq<seq<T>>, x: T)
    ensures x in Flatten(parts) <==> exists i :: 0 <= i < |parts| && x in parts[i]
  {
    if parts != [] {
      var n := |parts| - 1;
      FlattenMember(parts[..n], x);
      assert forall i :: 0 <= i < n ==> parts[..n][i] == parts[i];
    }
  }

  lemma {:induction false} FlattenEmpty<T>(parts: seq<seq<T>>)
    ensures Flatten(parts) == [] <==> forall i :: 0 <= i < |parts| ==> parts[i] == []
  {
    if parts != [] {
      var n := |parts| - 1;
      FlattenEmpty(parts[..n]);
      if Flatten(parts) == [] {
        forall i | 0 <= i < |parts| ensures parts[i] == [] {
          if i < n { assert parts[..n][i] == []; }
        }
      }
    }
  }

  /** When every part but the k-th is empty, only the k-th remains. */
  lemma {:induction false} FlattenSingle<T>(parts: seq<seq<T>>, k: nat)
    requires k < |parts|
    requires forall i :: 0 <= i < |parts| && i != k ==> parts[i] == []
    ensures Flatten(parts) == parts[k]
  {
    var n := |parts| - 1;
    if k == n {
      FlattenEmpty(parts[..n]);
    } else {
      FlattenSingle(parts[..n], k);
    }
  }

  /** Parts that are empty except for the k-th, if there is one. */
  lemma {:induction false} FlattenAt<T>(parts: seq<seq<T>>, k: int, content: seq<T>)
    requires k < |parts|
    requires forall i :: 0 <= i < |parts| ==> parts[i] == if i == k then content else []
    ensures Flatten(parts) == if k >= 0 then content else []
  {
    if k >= 0 {
      FlattenSingle(parts, k);
    } else {
      FlattenEmpty(parts);
    }
  }

  /** No element twice. */
  predicate Distinct<T(==)>(xs: seq<T>) {
    forall i, j :: 0 <= i < j < |xs| ==> xs[i] != xs[j]
  }

  /** There are as many members as elements exactly when none comes twice. */
  lemma {:induction false} SizeOfMembers<T>(xs: seq<T>)
    ensures |set x | x in xs| <= |xs|
    ensures |set x | x in xs| == |xs| <==> Distinct(xs)
  {
    if xs != [] {
      var init, last := xs[..|xs| - 1], xs[|xs| - 1];
      SizeOfMembers(init);
      assert xs == init + [last];
      if last in init {
        assert (set x | x in xs) == (set x | x in init);
        var k :| 0 <= k < |init| && init[k] == last;
        assert xs[k] == xs[|init|];
      } else {
        assert (set x | x in xs) == (set x | x in init) + {last};
        if Distinct(init) {
          forall i, j | 0 <= i < j < |xs| ensures xs[i] != xs[j] { assert xs[i] == init[i] && init[i] in init; }
        } else {
          var i, j :| 0 <= i < j < |init| && init[i] == init[j];
          assert xs[i] == xs[j];
        }
      }
    }
  }
}
