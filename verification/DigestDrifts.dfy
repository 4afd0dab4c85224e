/**
 Drift between the dependency digests a replay observes and those its baseline recorded.
 A drift writes an absent digest as the text "missing".
 */
module DigestDrifts {
  import opened Wrappers
  import opened Ordering

  /** An item of a recorded list; `Other` is anything without a path and a digest that are strings. */
  datatype Item = Other | Dependency(path: string, contentDigest: string)

  /** `None` is a value that is not a list. */
  type Recorded = Option<seq<Item>>

  type Digests = map<string, string>

  datatype Drift = Drift(path: string, observed: string, expected: string)

  const MISSING := "missing"

  function Indexed(items: seq<Item>): Digests {
    if items == [] then map[]
    else
      var last := items[|items| - 1];
      var index := Indexed(items[..|items| - 1]);
      if last.Dependency? then index[last.path := last.contentDigest] else index
  }

  /** `by_path` */
  function ByPath(value: Recorded): Digests {
    match value
    case None => map[]
    case Some(items) => Indexed(items)
  }

  /** The i-th item decides the digest of `path`: no later item has that path. */
  ghost predicate Decides(items: seq<Item>, i: nat, path: string, digest: string) {
    && i < |items| && items[i] == Dependency(path, digest)
    && forall j :: i < j < |items| && items[j].Dependency? ==> items[j].path != path
  }

  lemma {:induction false} IndexedExact(items: seq<Item>, path: string)
    ensures path in Indexed(items) <==> exists i :: 0 <= i < |items| && items[i].Dependency? && items[i].path == path
    ensures path in Indexed(items) ==> exists i: nat :: Decides(items, i, path, Indexed(items)[path])
  {
    if items != [] {
      var init, last := items[..|items| - 1], items[|items| - 1];
      IndexedExact(init, path);
      assert items == init + [last];
      if last.Dependency? && last.path == path {
        assert Decides(items, |init|, path, last.contentDigest);
      } else if path in Indexed(init) {
        var i: nat :| Decides(init, i, path, Indexed(init)[path]);
        assert Decides(items, i, path, Indexed(init)[path]);
        assert items[i].Dependency? && items[i].path == path;
      }
    }
  }

  function Lookup(m: Digests, path: string): Option<string> {
    if path in m then Some(m[path]) else None
  }

  function OrMissing(digest: Option<string>): string {
    match digest
    case Some(d) => d
    case None => MISSING
  }

  function DriftAt(path: string, observed: Digests, expected: Digests): Drift {
    Drift(path, OrMissing(Lookup(observed, path)), OrMissing(Lookup(expected, path)))
  }

  function DriftsAmong(paths: seq<string>, observed: Digests, expected: Digests): seq<Drift> {
    if paths == [] then []
    else
      var path := paths[|paths| - 1];
      DriftsAmong(paths[..|paths| - 1], observed, expected) +
      (if Lookup(observed, path) != Lookup(expected, path) then [DriftAt(path, observed, expected)] else [])
  }

  function DriftsBetween(observed: Digests, expected: Digests): seq<Drift> {
    DriftsAmong(SortedSet(observed.Keys + expected.Keys), observed, expected)
  }

  /** `_dependency_digest_drifts` */
  function DependencyDigestDrifts(observed: Recorded, expected: Recorded): seq<Drift> {
    DriftsBetween(ByPath(observed), ByPath(expected))
  }

  // ---------------------------------------------------------------- exactly the differences, in order

  ghost predicate InOrder(drifts: seq<Drift>) {
    forall i, j :: 0 <= i < j < |drifts| ==> StrLt(drifts[i].path, drifts[j].path)
  }

  ghost predicate Differs(path: string, observed: Digests, expected: Digests) {
    Lookup(observed, path) != Lookup(expected, path)
  }

  lemma {:induction false} DriftsAmongExact(paths: seq<string>, observed: Digests, expected: Digests)
    requires StrictlySorted(paths)
    ensures InOrder(DriftsAmong(paths, observed, expected))
    ensures forall d :: d in DriftsAmong(paths, observed, expected) <==>
      (d.path in paths && Differs(d.path, observed, expected) && d == DriftAt(d.path, observed, expected))
  {
    if paths != [] {
      var init, last := paths[..|paths| - 1], paths[|paths| - 1];
      DriftsAmongExact(init, observed, expected);
      var before, all := DriftsAmong(init, observed, expected), DriftsAmong(paths, observed, expected);
      assert paths == init + [last];
      forall i | 0 <= i < |before| ensures StrLt(before[i].path, last) {
        assert before[i] in before;
        var k :| 0 <= k < |init| && init[k] == before[i].path;
        assert StrLt(paths[k], paths[|init|]);
      }
      assert forall d ::
        d in all <==> d in before || (Differs(last, observed, expected) && d == DriftAt(last, observed, expected));
    }
  }

  /** The drifts are sorted by path, and are exactly the paths whose digests differ, each with both. */
  lemma {:induction false} DriftsExact(observed: Digests, expected: Digests)
    ensures InOrder(DriftsBetween(observed, expected))
    ensures forall d :: d in DriftsBetween(observed, expected) <==>
      (Differs(d.path, observed, expected) && d == DriftAt(d.path, observed, expected))
  {
    var paths := SortedSet(observed.Keys + expected.Keys);
    DriftsAmongExact(paths, observed, expected);
    assert forall path :: Differs(path, observed, expected) ==> path in paths;
  }

  /** What a recorded list says of a path: the digest its last item with that path has, or nothing. */
  ghost predicate Records(recorded: Recorded, path: string, digest: Option<string>) {
    match digest
    case Some(d) => recorded.Some? && exists i: nat :: Decides(recorded.value, i, path, d)
    case None =>
      recorded.Some? ==>
        forall i :: 0 <= i < |recorded.value| && recorded.value[i].Dependency? ==> recorded.value[i].path != path
  }

  lemma {:induction false} ByPathExact(recorded: Recorded, path: string, digest: Option<string>)
    ensures Records(recorded, path, digest) <==> Lookup(ByPath(recorded), path) == digest
  {
    if recorded.Some? {
      var items := recorded.value;
      IndexedExact(items, path);
      if path in Indexed(items) {
        var k: nat :| Decides(items, k, path, Indexed(items)[path]);
        forall i: nat, d | Decides(items, i, path, d) ensures d == Indexed(items)[path] {
          assert i == k;
        }
      } else {
        forall i: nat, d ensures !Decides(items, i, path, d) {
          assert i < |items| && items[i].Dependency? ==> items[i].path != path;
        }
      }
    }
  }

  /** The digests the recorded lists have for a path, as a drift writes them. */
  ghost predicate Reports(d: Drift, observed: Option<string>, expected: Option<string>) {
    && observed != expected
    && d.observed == (if observed.Some? then observed.value else "missing")
    && d.expected == (if expected.Some? then expected.value else "missing")
  }

  /** A drift is listed exactly when the two recorded lists have different digests for its path, or only one
      of them has one, and it shows these two. */
  lemma {:induction false} DriftsListed(observed: Recorded, expected: Recorded, d: Drift)
    ensures d in DependencyDigestDrifts(observed, expected) <==>
      exists o, e :: Records(observed, d.path, o) && Records(expected, d.path, e) && Reports(d, o, e)
  {
    var o, e := Lookup(ByPath(observed), d.path), Lookup(ByPath(expected), d.path);
    ReportsExact(ByPath(observed), ByPath(expected), d);
    ByPathExact(observed, d.path, o);
    ByPathExact(expected, d.path, e);
    forall x, y | Records(observed, d.path, x) && Records(expected, d.path, y) ensures x == o && y == e {
      ByPathExact(observed, d.path, x);
      ByPathExact(expected, d.path, y);
    }
  }

  lemma {:induction false} ReportsExact(observed: Digests, expected: Digests, d: Drift)
    ensures d in DriftsBetween(observed, expected) <==> Reports(d, Lookup(observed, d.path), Lookup(expected, d.path))
  {
    DriftsExact(observed, expected);
  }

  /** The drifts are the only list in that order of exactly these drifts. */
  lemma {:induction false} DriftsUnique(observed: Digests, expected: Digests, drifts: seq<Drift>)
    requires InOrder(drifts)
    requires forall d :: d in drifts <==>
      (Differs(d.path, observed, expected) && d == DriftAt(d.path, observed, expected))
    ensures drifts == DriftsBetween(observed, expected)
  {
    var all := DriftsBetween(observed, expected);
    DriftsExact(observed, expected);
    DriftPaths(observed, expected, drifts);
    DriftPaths(observed, expected, all);
    StrictlySortedUnique(PathsOf(drifts), PathsOf(all));
    assert |drifts| == |PathsOf(drifts)| == |all|;
    forall i | 0 <= i < |drifts| ensures drifts[i] == all[i] {
      assert drifts[i] in drifts && all[i] in all;
      assert PathsOf(drifts)[i] == PathsOf(all)[i];
    }
  }

  function PathsOf(drifts: seq<Drift>): seq<string> {
    seq(|drifts|, i requires 0 <= i < |drifts| => drifts[i].path)
  }

  lemma {:induction false} DriftPaths(observed: Digests, expected: Digests, drifts: seq<Drift>)
    requires InOrder(drifts)
    requires forall d :: d in drifts <==>
      (Differs(d.path, observed, expected) && d == DriftAt(d.path, observed, expected))
    ensures StrictlySorted(PathsOf(drifts))
    ensures forall path :: path in PathsOf(drifts) <==> Differs(path, observed, expected)
  {
    forall path ensures path in PathsOf(drifts) <==> Differs(path, observed, expected) {
      if Differs(path, observed, expected) {
        assert DriftAt(path, observed, expected) in drifts;
        var i :| 0 <= i < |drifts| && drifts[i] == DriftAt(path, observed, expected);
        assert PathsOf(drifts)[i] == path;
      }
      if i :| 0 <= i < |drifts| && PathsOf(drifts)[i] == path {
        assert drifts[i] in drifts;
      }
    }
  }

  lemma {:induction false} SameLookups(m: Digests, n: Digests)
    requires forall path :: Lookup(m, path) == Lookup(n, path)
    ensures m == n
  {
    forall path ensures path in m <==> path in n { assert Lookup(m, path) == Lookup(n, path); }
    forall path | path in m ensures m[path] == n[path] { assert Lookup(m, path) == Lookup(n, path); }
  }

  /** No drift exactly when both lists index to the same digests. */
  lemma {:induction false} NoDriftExactly(observed: Recorded, expected: Recorded)
    ensures DependencyDigestDrifts(observed, expected) == [] <==> ByPath(observed) == ByPath(expected)
  {
    var o, e := ByPath(observed), ByPath(expected);
    DriftsExact(o, e);
    if DriftsBetween(o, e) == [] {
      forall path ensures Lookup(o, path) == Lookup(e, path) {
        assert DriftAt(path, o, e) !in DriftsBetween(o, e);
      }
      SameLookups(o, e);
    } else {
      assert DriftsBetween(o, e)[0] in DriftsBetween(o, e);
    }
  }

  // ---------------------------------------------------------------- drifts as a patch

  function Patched(m: Digests, d: Drift): Digests {
    if d.observed == MISSING then m - {d.path} else m[d.path := d.observed]
  }

  function PatchedAll(m: Digests, drifts: seq<Drift>): Digests {
    if drifts == [] then m else Patched(PatchedAll(m, drifts[..|drifts| - 1]), drifts[|drifts| - 1])
  }

  function Meant(observed: string): Option<string> {
    if observed == MISSING then None else Some(observed)
  }

  lemma {:induction false} PatchedStep(m: Digests, d: Drift, path: string)
    ensures Lookup(Patched(m, d), path) == if d.path == path then Meant(d.observed) else Lookup(m, path)
  {
  }

  lemma {:induction false} PatchedElsewhere(m: Digests, drifts: seq<Drift>, path: string)
    requires forall i :: 0 <= i < |drifts| ==> drifts[i].path != path
    ensures Lookup(PatchedAll(m, drifts), path) == Lookup(m, path)
  {
    if drifts != [] {
      var n := |drifts| - 1;
      PatchedElsewhere(m, drifts[..n], path);
      PatchedStep(PatchedAll(m, drifts[..n]), drifts[n], path);
    }
  }

  lemma {:induction false} PatchedAt(m: Digests, drifts: seq<Drift>, i: nat)
    requires InOrder(drifts) && i < |drifts|
    ensures Lookup(PatchedAll(m, drifts), drifts[i].path) == Meant(drifts[i].observed)
  {
    var n := |drifts| - 1;
    PatchedStep(PatchedAll(m, drifts[..n]), drifts[n], drifts[i].path);
    if i < n {
      assert StrLt(drifts[i].path, drifts[n].path);
      PatchedAt(m, drifts[..n], i);
    }
  }

  /** A digest that is really the text "missing" and has drifted. */
  ghost predicate Confused(path: string, observed: Digests, expected: Digests) {
    path in observed && observed[path] == MISSING && Differs(path, observed, expected)
  }

  lemma {:induction false} PatchLookup(observed: Digests, expected: Digests, path: string)
    ensures Lookup(PatchedAll(expected, DriftsBetween(observed, expected)), path) ==
      if Differs(path, observed, expected) then Meant(OrMissing(Lookup(observed, path))) else Lookup(observed, path)
  {
    var drifts := DriftsBetween(observed, expected);
    DriftsExact(observed, expected);
    if Differs(path, observed, expected) {
      assert DriftAt(path, observed, expected) in drifts;
      var i :| 0 <= i < |drifts| && drifts[i] == DriftAt(path, observed, expected);
      PatchedAt(expected, drifts, i);
    } else {
      forall i | 0 <= i < |drifts| ensures drifts[i].path != path { assert drifts[i] in drifts; }
      PatchedElsewhere(expected, drifts, path);
    }
  }

  /** Applying the drifts to the expected digests gives the observed ones, unless a drifted digest is
      itself the text "missing"; and then it never does. */
  lemma {:induction false} PatchExact(observed: Digests, expected: Digests)
    ensures PatchedAll(expected, DriftsBetween(observed, expected)) == observed
      <==> forall path :: !Confused(path, observed, expected)
  {
    var patched := PatchedAll(expected, DriftsBetween(observed, expected));
    if forall path :: !Confused(path, observed, expected) {
      forall path ensures Lookup(patched, path) == Lookup(observed, path) {
        PatchLookup(observed, expected, path);
        assert !Confused(path, observed, expected);
      }
      SameLookups(patched, observed);
    } else {
      var path :| Confused(path, observed, expected);
      PatchLookup(observed, expected, path);
      assert Lookup(patched, path) == None;
    }
  }

  /** A digest that is the text "missing" is deleted by its own drift. */
  lemma {:induction false} MissingIsDeleted(path: string)
    ensures var observed, expected := map[path := MISSING], map[path := ""];
      Confused(path, observed, expected) && PatchedAll(expected, DriftsBetween(observed, expected)) != observed
  {
    var observed, expected := map[path := MISSING], map[path := ""];
    assert Confused(path, observed, expected);
    PatchExact(observed, expected);
  }

  function Reversed(drifts: seq<Drift>): seq<Drift> {
    seq(|drifts|, i requires 0 <= i < |drifts| => Drift(drifts[i].path, drifts[i].expected, drifts[i].observed))
  }

  lemma {:induction false} ReversedAmong(paths: seq<string>, observed: Digests, expected: Digests)
    ensures DriftsAmong(paths, expected, observed) == Reversed(DriftsAmong(paths, observed, expected))
  {
    if paths != [] {
      ReversedAmong(paths[..|paths| - 1], observed, expected);
    }
  }

  /** Exchanging the sides exchanges the digests of every drift, so the reversed drifts undo the change. */
  lemma {:induction false} ReversedExact(observed: Digests, expected: Digests)
    ensures DriftsBetween(expected, observed) == Reversed(DriftsBetween(observed, expected))
    ensures PatchedAll(observed, Reversed(DriftsBetween(observed, expected))) == expected
      <==> forall path :: !Confused(path, expected, observed)
  {
    assert observed.Keys + expected.Keys == expected.Keys + observed.Keys;
    ReversedAmong(SortedSet(observed.Keys + expected.Keys), observed, expected);
    PatchExact(expected, observed);
  }
}
