/**
 Python's order on strings and on tuples of strings, and the stable sort `sorted(..., key=...)`.
 */
module Ordering {

  /** `a <= b` by code point. */
  predicate StrLe(a: string, b: string) {
    a == "" || (b != "" && (a[0] < b[0] || (a[0] == b[0] && StrLe(a[1..], b[1..]))))
  }

  lemma {:induction false} StrLeTotal(a: string, b: string)
    ensures StrLe(a, b) || StrLe(b, a)
  {
    if a != "" && b != "" && a[0] == b[0] {
      StrLeTotal(a[1..], b[1..]);
    }
  }

  lemma {:induction false} StrLeAntisymmetric(a: string, b: string)
    requires StrLe(a, b) && StrLe(b, a)
    ensures a == b
  {
    if a != "" && b != "" {
      StrLeAntisymmetric(a[1..], b[1..]);
      assert a == [a[0]] + a[1..] && b == [b[0]] + b[1..];
    }
  }

  lemma {:induction false} StrLeTransitive(a: string, b: string, c: string)
    requires StrLe(a, b) && StrLe(b, c)
    ensures StrLe(a, c)
  {
    if a != "" && b != "" && c != "" && a[0] == b[0] && b[0] == c[0] {
      StrLeTransitive(a[1..], b[1..], c[1..]);
    }
  }

  /** `a <= b` on tuples: the first difference decides. */
  predicate KeyLe(a: seq<string>, b: seq<string>) {
    a == [] || (b != [] && if a[0] == b[0] then KeyLe(a[1..], b[1..]) else StrLe(a[0], b[0]))
  }

  lemma {:induction false} KeyLeTotal(a: seq<string>, b: seq<string>)
    ensures KeyLe(a, b) || KeyLe(b, a)
  {
    if a != [] && b != [] {
      if a[0] == b[0] { KeyLeTotal(a[1..], b[1..]); } else { StrLeTotal(a[0], b[0]); }
    }
  }

  lemma {:induction false} KeyLeTransitive(a: seq<string>, b: seq<string>, c: seq<string>)
    requires KeyLe(a, b) && KeyLe(b, c)
    ensures KeyLe(a, c)
  {
    if a != [] && b != [] && c != [] {
      if a[0] == b[0] == c[0] {
        KeyLeTransitive(a[1..], b[1..], c[1..]);
      } else {
        StrLeTotal(a[0], a[0]);
        if a[0] != b[0] && b[0] != c[0] {
          StrLeTransitive(a[0], b[0], c[0]);
          if a[0] == c[0] { StrLeAntisymmetric(a[0], b[0]); }
        }
      }
    }
  }

  /** A prefix comes first, and otherwise the first difference decides. */
  lemma {:induction false} StrLeExact(a: string, b: string)
    ensures StrLe(a, b) <==>
      a <= b || exists k :: 0 <= k < |a| && k < |b| && a[..k] == b[..k] && a[k] as int < b[k] as int
  {
    if a != "" && b != "" && a[0] == b[0] {
      var s, t := a[1..], b[1..];
      StrLeExact(s, t);
      assert a == [a[0]] + s && b == [b[0]] + t;
      if k :| 0 <= k < |s| && k < |t| && s[..k] == t[..k] && s[k] as int < t[k] as int {
        assert a[..k + 1] == [a[0]] + s[..k] && b[..k + 1] == [b[0]] + t[..k];
      }
      if k :| 0 <= k < |a| && k < |b| && a[..k] == b[..k] && a[k] as int < b[k] as int {
        assert s[..k - 1] == a[..k][1..] && t[..k - 1] == b[..k][1..];
      }
    } else if a != "" && b != "" {
      assert a[..0] == b[..0];
      if k :| 0 < k < |a| && k < |b| && a[..k] == b[..k] {
        assert a[..k][0] == b[..k][0];
      }
    }
  }

  lemma {:induction false} KeyLeExact(a: seq<string>, b: seq<string>)
    ensures KeyLe(a, b) <==>
      a <= b || exists k :: 0 <= k < |a| && k < |b| && a[..k] == b[..k] && a[k] != b[k] && StrLe(a[k], b[k])
  {
    if a != [] && b != [] && a[0] == b[0] {
      var s, t := a[1..], b[1..];
      KeyLeExact(s, t);
      assert a == [a[0]] + s && b == [b[0]] + t;
      if k :| 0 <= k < |s| && k < |t| && s[..k] == t[..k] && s[k] != t[k] && StrLe(s[k], t[k]) {
        assert a[..k + 1] == [a[0]] + s[..k] && b[..k + 1] == [b[0]] + t[..k];
      }
      if k :| 0 <= k < |a| && k < |b| && a[..k] == b[..k] && a[k] != b[k] && StrLe(a[k], b[k]) {
        assert s[..k - 1] == a[..k][1..] && t[..k - 1] == b[..k][1..];
      }
    } else if a != [] && b != [] {
      assert a[..0] == b[..0];
      if k :| 0 < k < |a| && k < |b| && a[..k] == b[..k] {
        assert a[..k][0] == b[..k][0];
      }
    }
  }

  lemma {:induction false} KeyLeSingle(a: string, b: string)
    ensures KeyLe([a], [b]) <==> StrLe(a, b)
  {
    StrLeTotal(a, a);
    assert [a][1..] == [] && [b][1..] == [];
  }

  // ---------------------------------------------------------------- stable sort

  function InsertBy<T>(x: T, sorted: seq<T>, key: T -> seq<string>): seq<T> {
    if sorted == [] then [x]
    else if KeyLe(key(x), key(sorted[0])) then [x] + sorted
    else [sorted[0]] + InsertBy(x, sorted[1..], key)
  }

  /** `sorted(xs, key=key)` */
  function SortBy<T>(xs: seq<T>, key: T -> seq<string>): seq<T> {
    if xs == [] then [] else InsertBy(xs[0], SortBy(xs[1..], key), key)
  }

  ghost predicate SortedBy<T>(xs: seq<T>, key: T -> seq<string>) {
    forall i, j :: 0 <= i < j < |xs| ==> KeyLe(key(xs[i]), key(xs[j]))
  }

  /** The elements with one given key, in order. */
  function Having<T>(xs: seq<T>, key: T -> seq<string>, k: seq<string>): seq<T> {
    if xs == [] then []
    else (if key(xs[0]) == k then [xs[0]] else []) + Having(xs[1..], key, k)
  }

  lemma {:induction false} InsertByElements<T>(x: T, sorted: seq<T>, key: T -> seq<string>)
    ensures multiset(InsertBy(x, sorted, key)) == multiset{x} + multiset(sorted)
  {
    if sorted != [] && !KeyLe(key(x), key(sorted[0])) {
      InsertByElements(x, sorted[1..], key);
      assert sorted == [sorted[0]] + sorted[1..];
    }
  }

  lemma {:induction false} InsertByKeepsOrder<T>(x: T, sorted: seq<T>, key: T -> seq<string>, k: seq<string>)
    ensures Having(InsertBy(x, sorted, key), key, k) == (if key(x) == k then [x] else []) + Having(sorted, key, k)
  {
    if sorted == [] {
      assert [x][1..] == [];
    } else if KeyLe(key(x), key(sorted[0])) {
      assert ([x] + sorted)[1..] == sorted;
    } else {
      InsertByKeepsOrder(x, sorted[1..], key, k);
      KeyLeReflexive(key(x));
      var tail := InsertBy(x, sorted[1..], key);
      assert ([sorted[0]] + tail)[1..] == tail;
      if key(sorted[0]) == k {
        assert key(x) != k;
        assert [] + Having(sorted[1..], key, k) == Having(sorted[1..], key, k);
      } else {
        assert [] + Having(tail, key, k) == Having(tail, key, k);
        assert [] + Having(sorted[1..], key, k) == Having(sorted[1..], key, k);
      }
    }
  }

  lemma {:induction false} InsertBySorts<T>(x: T, sorted: seq<T>, key: T -> seq<string>)
    requires SortedBy(sorted, key)
    ensures SortedBy(InsertBy(x, sorted, key), key)
  {
    if sorted != [] {
      var r := InsertBy(x, sorted, key);
      if KeyLe(key(x), key(sorted[0])) {
        forall j | 0 < j < |r| ensures KeyLe(key(r[0]), key(r[j])) {
          if j > 1 { KeyLeTransitive(key(x), key(sorted[0]), key(sorted[j - 1])); }
        }
      } else {
        var tail := InsertBy(x, sorted[1..], key);
        InsertBySorts(x, sorted[1..], key);
        InsertByElements(x, sorted[1..], key);
        KeyLeTotal(key(x), key(sorted[0]));
        forall j | 0 <= j < |tail| ensures KeyLe(key(sorted[0]), key(tail[j])) {
          assert tail[j] in multiset(tail);
          if tail[j] != x {
            assert tail[j] in sorted[1..];
          }
        }
      }
    }
  }

  lemma {:induction false} KeyLeReflexive(a: seq<string>)
    ensures KeyLe(a, a)
  {
    KeyLeTotal(a, a);
  }

  /** The result is ordered by key, a permutation, and keeps the order of elements with equal keys. */
  lemma {:induction false} SortByFacts<T>(xs: seq<T>, key: T -> seq<string>)
    ensures SortedBy(SortBy(xs, key), key)
    ensures multiset(SortBy(xs, key)) == multiset(xs)
    ensures |SortBy(xs, key)| == |xs|
    ensures forall k :: Having(SortBy(xs, key), key, k) == Having(xs, key, k)
  {
    if xs != [] {
      SortByFacts(xs[1..], key);
      InsertByElements(xs[0], SortBy(xs[1..], key), key);
      InsertBySorts(xs[0], SortBy(xs[1..], key), key);
      forall k { InsertByKeepsOrder(xs[0], SortBy(xs[1..], key), key, k); }
      assert xs == [xs[0]] + xs[1..];
      assert |multiset(SortBy(xs, key))| == |multiset(xs)|;
    }
  }

  /** What occurs twice in a sequence occurs twice in any permutation of it. */
  lemma {:induction false} RepeatedPermutation<T>(xs: seq<T>, ys: seq<T>, i: nat, j: nat) returns (a: nat, b: nat)
    requires multiset(xs) == multiset(ys) && i < j < |xs| && xs[i] == xs[j]
    ensures a < b < |ys| && ys[a] == ys[b] == xs[i]
  {
    assert xs == xs[..j] + [xs[j]] + xs[j + 1..];
    assert xs[..j][i] == xs[i];
    assert multiset(xs)[xs[i]] == multiset(xs[..j])[xs[i]] + 1 + multiset(xs[j + 1..])[xs[i]];
    assert multiset(ys)[xs[i]] >= 2;
    a :| 0 <= a < |ys| && ys[a] == xs[i];
    var rest := ys[..a] + ys[a + 1..];
    assert ys == ys[..a] + [ys[a]] + ys[a + 1..];
    assert multiset(ys) == multiset(rest) + multiset{ys[a]};
    assert xs[i] in multiset(rest);
    var k :| 0 <= k < |rest| && rest[k] == xs[i];
    b := if k < a then k else k + 1;
    assert ys[b] == xs[i];
    if b < a { a, b := b, a; }
  }

  // ---------------------------------------------------------------- sorted sets of strings

  predicate StrLt(a: string, b: string) {
    a != b && StrLe(a, b)
  }

  ghost predicate StrictlySorted(xs: seq<string>) {
    forall i, j :: 0 <= i < j < |xs| ==> StrLt(xs[i], xs[j])
  }

  predicate IsLeast(m: string, s: set<string>) {
    m in s && forall x :: x in s ==> StrLe(m, x)
  }

  function Least(s: set<string>): (m: string)
    requires s != {}
    ensures IsLeast(m, s)
  {
    LeastExists(s);
    assert forall m, n :: IsLeast(m, s) && IsLeast(n, s) ==> m == n by {
      forall m, n | IsLeast(m, s) && IsLeast(n, s) ensures m == n { StrLeAntisymmetric(m, n); }
    }
    var m :| m in s && IsLeast(m, s);
    m
  }

  lemma {:induction false} LeastExists(s: set<string>)
    requires s != {}
    ensures exists m :: IsLeast(m, s)
  {
    var a :| a in s;
    StrLeTotal(a, a);
    assert forall x :: x in s ==> x == a || x in s - {a};
    if s - {a} == {} {
      assert IsLeast(a, s);
    } else {
      LeastExists(s - {a});
      var m :| IsLeast(m, s - {a});
      StrLeTotal(a, m);
      if StrLe(a, m) {
        forall x | x in s ensures StrLe(a, x) { if x != a { StrLeTransitive(a, m, x); } }
        assert IsLeast(a, s);
      } else {
        assert IsLeast(m, s);
      }
    }
  }

  /** `sorted(s)` for a set of strings. */
  function SortedSet(s: set<string>): (r: seq<string>)
    ensures StrictlySorted(r)
    ensures forall x :: x in r <==> x in s
    ensures |r| == |s|
  {
    if s == {} then []
    else
      var m := Least(s);
      var rest := SortedSet(s - {m});
      assert forall i :: 0 <= i < |rest| ==> rest[i] in rest;
      [m] + rest
  }

  /** A set has one strictly sorted listing. */
  lemma {:induction false} StrictlySortedUnique(xs: seq<string>, ys: seq<string>)
    requires StrictlySorted(xs) && StrictlySorted(ys)
    requires forall x :: x in xs <==> x in ys
    ensures xs == ys
  {
    assert |ys| > 0 ==> ys[0] in ys;
    if xs != [] {
      assert xs[0] in xs;
      var i :| 0 <= i < |ys| && ys[i] == xs[0];
      var j :| 0 <= j < |xs| && xs[j] == ys[0];
      if i > 0 && j > 0 { StrLeAntisymmetric(xs[0], ys[0]); }
      HeadOnce(xs);
      HeadOnce(ys);
      forall x ensures x in xs[1..] <==> x in ys[1..] {
        assert x in xs <==> x == xs[0] || x in xs[1..];
        assert x in ys <==> x == ys[0] || x in ys[1..];
      }
      StrictlySortedUnique(xs[1..], ys[1..]);
    }
  }

  lemma {:induction false} HeadOnce(xs: seq<string>)
    requires StrictlySorted(xs) && xs != []
    ensures xs[0] !in xs[1..]
  {
    forall k | 0 <= k < |xs| - 1 ensures xs[1..][k] != xs[0] {
      assert StrLt(xs[0], xs[k + 1]);
    }
  }
}
