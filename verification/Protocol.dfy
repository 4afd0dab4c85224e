/**
 The Harness boundary protocol: finding removed legacy fields in a payload, projecting a legacy
 payload onto one without them, and the envelope that refuses a version 2 payload holding any.

 Positions are lists of segments.  The strings the source builds are their renderings.
 */
module Protocol {
  import opened Wrappers
  import opened Values
  import opened Immutables
  import opened Sequences
  import opened Strings

  const REMOVED_LEGACY_FIELDS: set<string> := {"analytics_model_id"}

  // ---------------------------------------------------------------- paths and their rendering

  function Step(path: string, segment: Segment): string {
    match segment
    case Field(name) => if path != "" then path + "." + name else name
    case Index(i) => path + "[" + Decimal(i) + "]"
  }

  function Render(base: string, path: Path): string
    decreases path
  {
    if path == [] then base else Render(Step(base, path[0]), path[1..])
  }

  function Rendered(base: string, paths: seq<Path>): seq<string> {
    seq(|paths|, i requires 0 <= i < |paths| => Render(base, paths[i]))
  }

  function Under(segment: Segment, paths: seq<Path>): seq<Path> {
    seq(|paths|, i requires 0 <= i < |paths| => [segment] + paths[i])
  }

  lemma {:induction false} RenderedUnder(base: string, segment: Segment, paths: seq<Path>)
    ensures Rendered(base, Under(segment, paths)) == Rendered(Step(base, segment), paths)
  {
    forall i | 0 <= i < |paths|
      ensures Render(base, Under(segment, paths)[i]) == Render(Step(base, segment), paths[i])
    {
      assert Under(segment, paths)[i][1..] == paths[i];
    }
  }

  lemma {:induction false} RenderedAppend(base: string, ps: seq<Path>, qs: seq<Path>)
    ensures Rendered(base, ps + qs) == Rendered(base, ps) + Rendered(base, qs)
  {
  }

  /** The rendering of the first `i` parts of a walk. */
  ghost function Progress(base: string, parts: seq<seq<Path>>, i: nat): seq<string>
    requires i <= |parts|
  {
    Rendered(base, Flatten(parts[..i]))
  }

  lemma {:induction false} ProgressStep(base: string, parts: seq<seq<Path>>, i: nat)
    requires i < |parts|
    ensures Progress(base, parts, i + 1) == Progress(base, parts, i) + Rendered(base, parts[i])
  {
    assert parts[..i + 1][..i] == parts[..i];
    RenderedAppend(base, Flatten(parts[..i]), parts[i]);
  }

  /** What is appended for one part carries a log that starts with `before` one part further. */
  lemma {:induction false} LogStep(before: seq<string>, log: seq<string>, added: seq<string>, base: string,
                                   parts: seq<seq<Path>>, i: nat)
    requires i < |parts|
    requires log == before + Progress(base, parts, i)
    requires added == Rendered(base, parts[i])
    ensures log + added == before + Progress(base, parts, i + 1)
  {
    ProgressStep(base, parts, i);
    Regroup(before, Progress(base, parts, i), added);
  }

  lemma {:induction false} ProgressEnd(base: string, parts: seq<seq<Path>>)
    ensures Progress(base, parts, 0) == []
    ensures Progress(base, parts, |parts|) == Rendered(base, Flatten(parts))
  {
    assert parts[..|parts|] == parts;
  }

  lemma {:induction false} Regroup<T>(a: seq<T>, b: seq<T>, c: seq<T>)
    ensures (a + b) + c == a + (b + c)
  {
  }

  // ---------------------------------------------------------------- what the walks compute

  predicate IsRemoved(k: Key) {
    k.text in REMOVED_LEGACY_FIELDS
  }

  /** The positions of the removed fields, in the order the walk meets them. */
  function RemovedPaths(v: Value): seq<Path> {
    match v
    case Map(_, entries) =>
      Flatten(seq(|entries|, i requires 0 <= i < |entries| =>
        var e := entries[i];
        RemovedAt(e.key, RemovedPaths(e.value))))
    case List(items) =>
      Flatten(seq(|items|, i requires 0 <= i < |items| => Under(Index(i), RemovedPaths(items[i]))))
    case Tuple(items) =>
      Flatten(seq(|items|, i requires 0 <= i < |items| => Under(Index(i), RemovedPaths(items[i]))))
    case _ => []
  }

  function RemovedAt(key: Key, inner: seq<Path>): seq<Path> {
    (if IsRemoved(key) then [[Field(key.text)]] else []) + Under(Field(key.text), inner)
  }

  /** The positions at which the projection drops a field. */
  function DroppedPaths(v: Value): seq<Path> {
    match v
    case Map(_, entries) =>
      Flatten(seq(|entries|, i requires 0 <= i < |entries| =>
        var e := entries[i];
        DroppedAt(e.key, DroppedPaths(e.value))))
    case List(items) =>
      Flatten(seq(|items|, i requires 0 <= i < |items| => Under(Index(i), DroppedPaths(items[i]))))
    case Tuple(items) =>
      Flatten(seq(|items|, i requires 0 <= i < |items| => Under(Index(i), DroppedPaths(items[i]))))
    case _ => []
  }

  function DroppedAt(key: Key, inner: seq<Path>): seq<Path> {
    if IsRemoved(key) then [[Field(key.text)]] else Under(Field(key.text), inner)
  }

  /** The items under keys that are not removed. */
  function Kept(entries: seq<Entry>): (r: seq<Entry>)
    ensures forall e :: e in r ==> e in entries
  {
    if entries == [] then []
    else
      var last := entries[|entries| - 1];
      assert entries == entries[..|entries| - 1] + [last];
      Kept(entries[..|entries| - 1]) + (if IsRemoved(last.key) then [] else [last])
  }

  function Projected(v: Value): Value {
    match v
    case Map(_, entries) =>
      var kept := Kept(entries);
      Map(false, Inserted(seq(|kept|, i requires 0 <= i < |kept| =>
        var e := kept[i];
        assert e in entries;
        Entry(StrKey(e.key.text), Projected(e.value)))))
    case List(items) => List(seq(|items|, i requires 0 <= i < |items| => Projected(items[i])))
    case Tuple(items) => Tuple(seq(|items|, i requires 0 <= i < |items| => Projected(items[i])))
    case _ => v
  }

  lemma {:induction false} ProjectedMap(frozen: bool, entries: seq<Entry>)
    ensures Projected(Map(frozen, entries)) == Map(false, Inserted(Mapped(Kept(entries), Projected)))
    ensures Projected(Map(frozen, entries)) == Map(false, Mapped(Inserted(Kept(entries)), Projected))
  {
    var kept := Kept(entries);
    var items := seq(|kept|, i requires 0 <= i < |kept| =>
      var e := kept[i];
      Entry(StrKey(e.key.text), Projected(e.value)));
    assert Projected(Map(frozen, entries)) == Map(false, Inserted(items));
    assert items == Mapped(kept, Projected);
    InsertedMapped(kept, Projected);
  }

  // ---------------------------------------------------------------- the walks

  lemma {:induction false} RenderedEntry(base: string, key: Key, inner: seq<Path>)
    ensures Rendered(base, RemovedAt(key, inner))
         == (if IsRemoved(key) then [Step(base, Field(key.text))] else [])
           + Rendered(Step(base, Field(key.text)), inner)
  {
    RenderedUnder(base, Field(key.text), inner);
    if IsRemoved(key) {
      RenderedAppend(base, [[Field(key.text)]], Under(Field(key.text), inner));
      assert Render(base, [Field(key.text)]) == Step(base, Field(key.text));
    }
  }

  function RemovedParts(entries: seq<Entry>): seq<seq<Path>> {
    seq(|entries|, i requires 0 <= i < |entries| => RemovedAt(entries[i].key, RemovedPaths(entries[i].value)))
  }

  lemma {:induction false} RemovedInMap(frozen: bool, entries: seq<Entry>)
    ensures RemovedPaths(Map(frozen, entries)) == Flatten(RemovedParts(entries))
  {
    var parts := seq(|entries|, i requires 0 <= i < |entries| =>
      var e := entries[i];
      RemovedAt(e.key, RemovedPaths(e.value)));
    assert RemovedPaths(Map(frozen, entries)) == Flatten(parts);
    assert parts == RemovedParts(entries);
  }

  function RemovedItemParts(items: seq<Value>): seq<seq<Path>> {
    seq(|items|, i requires 0 <= i < |items| => Under(Index(i), RemovedPaths(items[i])))
  }

  lemma {:induction false} RemovedInItems(v: Value)
    requires v.List? || v.Tuple?
    ensures RemovedPaths(v) == Flatten(RemovedItemParts(v.items))
  {
  }

  /** `_find_removed_fields(value, path)` */
  method FindRemovedFields(value: Value, path: string) returns (found: seq<string>)
    ensures found == Rendered(path, RemovedPaths(value))
    decreases value
  {
    match value {
      case Map(_, entries) => found := FindInEntries(value, entries, path);
      case List(items) => found := FindInItems(value, items, path);
      case Tuple(items) => found := FindInItems(value, items, path);
      case _ => found := [];
    }
  }

  method FindInEntries(ghost owner: Value, entries: seq<Entry>, path: string) returns (found: seq<string>)
    requires owner.Map? && owner.entries == entries
    ensures found == Rendered(path, RemovedPaths(owner))
    decreases owner, 0
  {
    found := [];
    ghost var parts := RemovedParts(entries);
    ProgressEnd(path, parts);
    for i := 0 to |entries|
      invariant found == Progress(path, parts, i)
    {
      var e := entries[i];
      var current := if path != "" then path + "." + e.key.text else e.key.text;
      ghost var before := found;
      if e.key.text in REMOVED_LEGACY_FIELDS {
        found := found + [current];
      }
      ghost var own := if IsRemoved(e.key) then [current] else [];
      assert found == before + own;
      var inner := FindRemovedFields(e.value, current);
      found := found + inner;
      ProgressStep(path, parts, i);
      RenderedEntry(path, e.key, RemovedPaths(e.value));
      Regroup(before, own, inner);
    }
    RemovedInMap(owner.frozen, entries);
  }

  method FindInItems(ghost owner: Value, items: seq<Value>, path: string) returns (found: seq<string>)
    requires (owner.List? || owner.Tuple?) && owner.items == items
    ensures found == Rendered(path, RemovedPaths(owner))
    decreases owner, 0
  {
    found := [];
    ghost var parts := RemovedItemParts(items);
    ProgressEnd(path, parts);
    for i := 0 to |items|
      invariant found == Progress(path, parts, i)
    {
      ProgressStep(path, parts, i);
      RenderedUnder(path, Index(i), RemovedPaths(items[i]));
      var inner := FindRemovedFields(items[i], path + "[" + Decimal(i) + "]");
      found := found + inner;
    }
    RemovedInItems(owner);
  }

  function DroppedParts(entries: seq<Entry>): seq<seq<Path>> {
    seq(|entries|, i requires 0 <= i < |entries| => DroppedAt(entries[i].key, DroppedPaths(entries[i].value)))
  }

  lemma {:induction false} DroppedInMap(frozen: bool, entries: seq<Entry>)
    ensures DroppedPaths(Map(frozen, entries)) == Flatten(DroppedParts(entries))
  {
    var parts := seq(|entries|, i requires 0 <= i < |entries| =>
      var e := entries[i];
      DroppedAt(e.key, DroppedPaths(e.value)));
    assert DroppedPaths(Map(frozen, entries)) == Flatten(parts);
    assert parts == DroppedParts(entries);
  }

  function DroppedItemParts(items: seq<Value>): seq<seq<Path>> {
    seq(|items|, i requires 0 <= i < |items| => Under(Index(i), DroppedPaths(items[i])))
  }

  lemma {:induction false} DroppedInItems(v: Value)
    requires v.List? || v.Tuple?
    ensures DroppedPaths(v) == Flatten(DroppedItemParts(v.items))
  {
  }

  /** The dict after the first `i` items of a mapping. */
  ghost function BuiltSoFar(entries: seq<Entry>, i: nat): seq<Entry>
    requires i <= |entries|
  {
    Inserted(Mapped(Kept(entries[..i]), Projected))
  }

  lemma {:induction false} BuildStep(entries: seq<Entry>, i: nat)
    requires i < |entries|
    ensures BuiltSoFar(entries, i + 1) ==
      if IsRemoved(entries[i].key) then BuiltSoFar(entries, i)
      else Put(BuiltSoFar(entries, i), entries[i].key.text, Projected(entries[i].value))
  {
    assert entries[..i + 1][..i] == entries[..i];
    var kept, e := Kept(entries[..i]), entries[i];
    assert Kept(entries[..i + 1]) == if IsRemoved(e.key) then kept else kept + [e];
    if !IsRemoved(e.key) {
      assert Mapped(kept + [e], Projected) == Mapped(kept, Projected) + [Entry(StrKey(e.key.text), Projected(e.value))];
      InsertedAppend(Mapped(kept, Projected), Entry(StrKey(e.key.text), Projected(e.value)));
    }
  }

  lemma {:induction false} RenderedDropped(base: string, key: Key, inner: seq<Path>)
    ensures Rendered(base, DroppedAt(key, inner))
         == if IsRemoved(key) then [Step(base, Field(key.text))] else Rendered(Step(base, Field(key.text)), inner)
  {
    RenderedUnder(base, Field(key.text), inner);
    assert Render(base, [Field(key.text)]) == Step(base, Field(key.text));
  }

  lemma {:induction false} DropStep(entries: seq<Entry>, i: nat, path: string, before: seq<string>,
                                    dropped: seq<string>)
    requires i < |entries| && dropped == before + Progress(path, DroppedParts(entries), i)
    ensures before + Progress(path, DroppedParts(entries), i + 1) == dropped +
      (if IsRemoved(entries[i].key) then [Step(path, Field(entries[i].key.text))]
       else Rendered(Step(path, Field(entries[i].key.text)), DroppedPaths(entries[i].value)))
  {
    var parts := DroppedParts(entries);
    RenderedDropped(path, entries[i].key, DroppedPaths(entries[i].value));
    LogStep(before, dropped, Rendered(path, parts[i]), path, parts, i);
  }

  function ProjectedItems(items: seq<Value>, n: nat): seq<Value>
    requires n <= |items|
  {
    seq(n, i requires 0 <= i < n => Projected(items[i]))
  }

  lemma {:induction false} ProjectedItemsStep(items: seq<Value>, i: nat)
    requires i < |items|
    ensures ProjectedItems(items, i + 1) == ProjectedItems(items, i) + [Projected(items[i])]
  {
  }

  /** The closure of `project_legacy_payload`: the recursive projection and the list it appends to. */
  class Projector {
    var dropped: seq<string>

    constructor ()
      ensures dropped == []
    {
      dropped := [];
    }

    method Project(value: Value, path: string) returns (result: Value)
      modifies this
      ensures result == Projected(value)
      ensures dropped == old(dropped) + Rendered(path, DroppedPaths(value))
      decreases value
    {
      match value {
        case Map(_, entries) =>
          var projected := ProjectEntries(value, entries, path);
          result := Map(false, projected);
          ProjectedMap(value.frozen, entries);
        case List(items) =>
          var projected := ProjectItems(value, items, path);
          result := List(projected);
          assert projected == Projected(value).items;
        case Tuple(items) =>
          var projected := ProjectItems(value, items, path);
          result := Tuple(projected);
          assert projected == Projected(value).items;
        case _ =>
          result := value;
      }
    }

    method ProjectEntries(ghost owner: Value, entries: seq<Entry>, path: string) returns (result: seq<Entry>)
      requires owner.Map? && owner.entries == entries
      modifies this
      ensures result == Inserted(Mapped(Kept(entries), Projected))
      ensures dropped == old(dropped) + Rendered(path, DroppedPaths(owner))
      decreases owner, 0
    {
      result := [];
      ghost var parts := DroppedParts(entries);
      ProgressEnd(path, parts);
      for i := 0 to |entries|
        invariant result == BuiltSoFar(entries, i)
        invariant dropped == old(dropped) + Progress(path, parts, i)
      {
        var key := entries[i].key.text;
        var current := if path != "" then path + "." + key else key;
        BuildStep(entries, i);
        DropStep(entries, i, path, old(dropped), dropped);
        if key in REMOVED_LEGACY_FIELDS {
          dropped := dropped + [current];
          continue;
        }
        var child := Project(entries[i].value, current);
        result := Put(result, key, child);
      }
      assert entries[..|entries|] == entries;
      DroppedInMap(owner.frozen, entries);
    }

    method ProjectItems(ghost owner: Value, items: seq<Value>, path: string) returns (result: seq<Value>)
      requires (owner.List? || owner.Tuple?) && owner.items == items
      modifies this
      ensures result == ProjectedItems(items, |items|)
      ensures dropped == old(dropped) + Rendered(path, DroppedPaths(owner))
      decreases owner, 0
    {
      result := [];
      ghost var parts := DroppedItemParts(items);
      ProgressEnd(path, parts);
      for i := 0 to |items|
        invariant result == ProjectedItems(items, i)
        invariant dropped == old(dropped) + Progress(path, parts, i)
      {
        RenderedUnder(path, Index(i), DroppedPaths(items[i]));
        LogStep(old(dropped), dropped, Rendered(path, parts[i]), path, parts, i);
        ProjectedItemsStep(items, i);
        var child := Project(items[i], path + "[" + Decimal(i) + "]");
        result := result + [child];
      }
      DroppedInItems(owner);
    }
  }

  /** `project_legacy_payload(payload)` */
  method ProjectLegacyPayload(payload: Value) returns (projected: Value, dropped: seq<string>)
    ensures projected == Projected(payload)
    ensures dropped == Rendered("", DroppedPaths(payload))
  {
    var projector := new Projector();
    projected := projector.Project(payload, "");
    dropped := projector.dropped;
  }

  // ---------------------------------------------------------------- what is found

  /** Some reading of the value follows the path; colliding keys give several readings. */
  ghost predicate Reaches(v: Value, path: Path)
    decreases path
  {
    path == [] ||
    match path[0]
    case Field(name) => v.Map? && exists e :: e in v.entries && e.key.text == name && Reaches(e.value, path[1..])
    case Index(i) => (v.List? || v.Tuple?) && i < |v.items| && Reaches(v.items[i], path[1..])
  }

  predicate EndsRemoved(path: Path) {
    path != [] && path[|path| - 1].Field? && path[|path| - 1].name in REMOVED_LEGACY_FIELDS
  }

  lemma {:induction false} UnderMembers(segment: Segment, paths: seq<Path>, p: Path)
    ensures p in Under(segment, paths) <==> p != [] && p[0] == segment && p[1..] in paths
  {
    if p != [] && p[0] == segment && p[1..] in paths {
      var i :| 0 <= i < |paths| && paths[i] == p[1..];
      assert p == [segment] + paths[i] == Under(segment, paths)[i];
    }
    if p in Under(segment, paths) {
      var i :| 0 <= i < |paths| && p == Under(segment, paths)[i];
      assert p[1..] == paths[i];
    }
  }

  /** The search is sound and complete: it reports exactly the reachable positions of removed fields. */
  lemma {:induction false} RemovedPathsExact(v: Value, p: Path)
    ensures p in RemovedPaths(v) <==> EndsRemoved(p) && Reaches(v, p)
    decreases v, 1
  {
    if v.Map? {
      RemovedInMapExact(v, v.entries, p);
    } else if v.List? || v.Tuple? {
      RemovedInSequenceExact(v, v.items, p);
    }
  }

  lemma {:induction false} RemovedEntryExact(e: Entry, p: Path)
    requires p != [] ==> (p[1..] in RemovedPaths(e.value) <==> EndsRemoved(p[1..]) && Reaches(e.value, p[1..]))
    ensures p in RemovedAt(e.key, RemovedPaths(e.value)) <==>
      EndsRemoved(p) && p[0] == Field(e.key.text) && Reaches(e.value, p[1..])
  {
    UnderMembers(Field(e.key.text), RemovedPaths(e.value), p);
    if |p| == 1 { assert p == [p[0]]; }
  }

  lemma {:induction false} RemovedInMapExact(v: Value, entries: seq<Entry>, p: Path)
    requires v.Map? && v.entries == entries
    ensures p in RemovedPaths(v) <==> EndsRemoved(p) && Reaches(v, p)
    decreases v, 0
  {
    var parts := RemovedParts(entries);
    RemovedInMap(v.frozen, entries);
    FlattenMember(parts, p);
    forall i | 0 <= i < |entries|
      ensures p in parts[i] <==>
        EndsRemoved(p) && p[0] == Field(entries[i].key.text) && Reaches(entries[i].value, p[1..])
    {
      if p != [] { RemovedPathsExact(entries[i].value, p[1..]); }
      RemovedEntryExact(entries[i], p);
    }
    if EndsRemoved(p) && Reaches(v, p) {
      var e :| e in entries && p[0] == Field(e.key.text) && Reaches(e.value, p[1..]);
      var i :| 0 <= i < |entries| && entries[i] == e;
      assert p in parts[i];
    }
  }

  lemma {:induction false} EndsRemovedTail(p: Path)
    requires p != [] && p[0].Index?
    ensures EndsRemoved(p) <==> EndsRemoved(p[1..])
  {
    assert |p| > 1 ==> p[1..][|p| - 2] == p[|p| - 1];
  }

  lemma {:induction false} RemovedItemExact(x: Value, k: nat, p: Path)
    requires p != [] ==> (p[1..] in RemovedPaths(x) <==> EndsRemoved(p[1..]) && Reaches(x, p[1..]))
    ensures p in Under(Index(k), RemovedPaths(x)) <==> EndsRemoved(p) && p[0] == Index(k) && Reaches(x, p[1..])
  {
    UnderMembers(Index(k), RemovedPaths(x), p);
    if p != [] && p[0] == Index(k) {
      EndsRemovedTail(p);
    }
  }

  lemma {:induction false} RemovedInSequenceExact(v: Value, items: seq<Value>, p: Path)
    requires (v.List? || v.Tuple?) && v.items == items
    ensures p in RemovedPaths(v) <==> EndsRemoved(p) && Reaches(v, p)
    decreases v, 0
  {
    var parts := RemovedItemParts(items);
    RemovedInItems(v);
    FlattenMember(parts, p);
    forall i | 0 <= i < |items|
      ensures p in parts[i] <==> EndsRemoved(p) && p[0] == Index(i) && Reaches(items[i], p[1..])
    {
      if p != [] { RemovedPathsExact(items[i], p[1..]); }
      RemovedItemExact(items[i], i, p);
    }
    if EndsRemoved(p) && Reaches(v, p) {
      assert p in parts[p[0].i];
    }
  }

  // ---------------------------------------------------------------- what is dropped

  /** No removed field among the proper ancestors. */
  predicate Outermost(path: Path) {
    forall i :: 0 <= i < |path| - 1 ==> path[i].Field? ==> path[i].name !in REMOVED_LEGACY_FIELDS
  }

  lemma {:induction false} OutermostUnder(segment: Segment, p: Path)
    requires p != []
    ensures Outermost([segment] + p) <==> !(segment.Field? && segment.name in REMOVED_LEGACY_FIELDS) && Outermost(p)
  {
    var q := [segment] + p;
    assert q[0] == segment;
    if Outermost(q) {
      forall i | 0 <= i < |p| - 1 && p[i].Field?
        ensures p[i].name !in REMOVED_LEGACY_FIELDS
      {
        assert q[i + 1] == p[i];
      }
    }
  }

  lemma {:induction false} UnderAppend(segment: Segment, paths: seq<Path>, p: Path)
    ensures Under(segment, paths + [p]) == Under(segment, paths) + [[segment] + p]
  {
  }

  lemma {:induction false} UnderInit(segment: Segment, paths: seq<Path>)
    requires paths != []
    ensures Under(segment, paths)[..|paths| - 1] == Under(segment, paths[..|paths| - 1])
    ensures Under(segment, paths)[|paths| - 1] == [segment] + paths[|paths| - 1]
  {
  }

  lemma {:induction false} FilterUnder(segment: Segment, paths: seq<Path>)
    requires forall p :: p in paths ==> p != []
    ensures Filter(Under(segment, paths), Outermost)
         == if segment.Field? && segment.name in REMOVED_LEGACY_FIELDS then []
           else Under(segment, Filter(paths, Outermost))
  {
    if paths != [] {
      var n := |paths| - 1;
      assert forall q :: q in paths[..n] ==> q in paths;
      assert paths[n] in paths;
      FilterUnder(segment, paths[..n]);
      OutermostUnder(segment, paths[n]);
      UnderInit(segment, paths);
      UnderAppend(segment, Filter(paths[..n], Outermost), paths[n]);
    }
  }

  lemma {:induction false} RemovedPathsNonEmpty(v: Value)
    ensures forall p :: p in RemovedPaths(v) ==> p != []
  {
    forall p | p in RemovedPaths(v) ensures p != [] { RemovedPathsExact(v, p); }
  }

  function Filtered(parts: seq<seq<Path>>): seq<seq<Path>> {
    seq(|parts|, i requires 0 <= i < |parts| => Filter(parts[i], Outermost))
  }

  /** The dropped list is the found list restricted, in order, to the outermost removed fields. */
  lemma {:induction false} DroppedAreOutermost(v: Value)
    ensures DroppedPaths(v) == Filter(RemovedPaths(v), Outermost)
    decreases v, 1
  {
    if v.Map? {
      DroppedInMapOutermost(v, v.entries);
    } else if v.List? || v.Tuple? {
      DroppedInSequenceOutermost(v, v.items);
    }
  }

  lemma {:induction false} DroppedInMapOutermost(v: Value, entries: seq<Entry>)
    requires v.Map? && v.entries == entries
    ensures DroppedPaths(v) == Filter(RemovedPaths(v), Outermost)
    decreases v, 0
  {
    forall i | 0 <= i < |entries| ensures Filter(RemovedParts(entries)[i], Outermost) == DroppedParts(entries)[i] {
      DroppedAreOutermost(entries[i].value);
      DroppedEntryOutermost(entries[i]);
    }
    RemovedInMap(v.frozen, entries);
    DroppedInMap(v.frozen, entries);
    FilterFlatten(RemovedParts(entries), Outermost);
    assert DroppedParts(entries) == Filtered(RemovedParts(entries));
  }

  lemma {:induction false} DroppedEntryOutermost(e: Entry)
    requires DroppedPaths(e.value) == Filter(RemovedPaths(e.value), Outermost)
    ensures Filter(RemovedAt(e.key, RemovedPaths(e.value)), Outermost) == DroppedAt(e.key, DroppedPaths(e.value))
  {
    var inner, name := RemovedPaths(e.value), e.key.text;
    RemovedPathsNonEmpty(e.value);
    FilterUnder(Field(name), inner);
    if IsRemoved(e.key) {
      FilterAppend([[Field(name)]], Under(Field(name), inner), Outermost);
      assert Filter([[Field(name)]], Outermost) == [[Field(name)]] by { assert [[Field(name)]][..0] == []; }
    } else {
      assert RemovedAt(e.key, inner) == Under(Field(name), inner);
    }
  }

  lemma {:induction false} DroppedInSequenceOutermost(v: Value, items: seq<Value>)
    requires (v.List? || v.Tuple?) && v.items == items
    ensures DroppedPaths(v) == Filter(RemovedPaths(v), Outermost)
    decreases v, 0
  {
    forall i | 0 <= i < |items| ensures Filter(RemovedItemParts(items)[i], Outermost) == DroppedItemParts(items)[i] {
      DroppedAreOutermost(items[i]);
      RemovedPathsNonEmpty(items[i]);
      FilterUnder(Index(i), RemovedPaths(items[i]));
    }
    RemovedInItems(v);
    DroppedInItems(v);
    FilterFlatten(RemovedItemParts(items), Outermost);
    assert DroppedItemParts(items) == Filtered(RemovedItemParts(items));
  }

  // ---------------------------------------------------------------- what is left

  /** Every mapping outside sets is a dict with string keys: what JSON decoding produces. */
  ghost predicate DictForm(v: Value) {
    match v
    case List(items) => forall x :: x in items ==> DictForm(x)
    case Tuple(items) => forall x :: x in items ==> DictForm(x)
    case Map(frozen, entries) => !frozen && StringDict(entries) && forall e :: e in entries ==> DictForm(e.value)
    case _ => true
  }

  /** A projected payload is in dict form and holds no removed field at any depth. */
  lemma {:induction false} ProjectedIsClean(v: Value)
    ensures RemovedPaths(Projected(v)) == []
    ensures DictForm(Projected(v))
    decreases v, 1
  {
    if v.Map? {
      ProjectedMapIsClean(v, v.entries);
    } else if v.List? || v.Tuple? {
      ProjectedSequenceIsClean(v, v.items);
    }
  }

  lemma {:induction false} ProjectedMapIsClean(v: Value, entries: seq<Entry>)
    requires v.Map? && v.entries == entries
    ensures RemovedPaths(Projected(v)) == []
    ensures DictForm(Projected(v))
    decreases v, 0
  {
    var r := Inserted(Kept(entries));
    var m := Mapped(r, Projected);
    forall i | 0 <= i < |r| ensures RemovedParts(m)[i] == [] && DictForm(m[i].value) {
      var j := InsertedOrigin(Kept(entries), i);
      var o := Kept(entries)[j];
      assert o in entries;
      ProjectedIsClean(o.value);
      KeptNotRemoved(entries);
      assert o in Kept(entries);
    }
    FlattenEmpty(RemovedParts(m));
    ProjectedMap(v.frozen, entries);
    RemovedInMap(false, m);
    InsertedStringDict(Mapped(Kept(entries), Projected));
  }

  lemma {:induction false} ProjectedSequenceIsClean(v: Value, items: seq<Value>)
    requires (v.List? || v.Tuple?) && v.items == items
    ensures RemovedPaths(Projected(v)) == []
    ensures DictForm(Projected(v))
    decreases v, 0
  {
    var r := Projected(v).items;
    var parts := RemovedItemParts(r);
    RemovedInItems(Projected(v));
    forall i | 0 <= i < |items| ensures parts[i] == [] && DictForm(r[i]) {
      ProjectedIsClean(items[i]);
    }
    FlattenEmpty(parts);
  }

  lemma {:induction false} CleanIsProjected(v: Value)
    requires DictForm(v) && RemovedPaths(v) == []
    ensures Projected(v) == v
  {
    match v
    case Map(frozen, entries) =>
      RemovedInMap(frozen, entries);
      var parts := RemovedParts(entries);
      FlattenEmpty(parts);
      forall i | 0 <= i < |entries|
        ensures !IsRemoved(entries[i].key) && Projected(entries[i].value) == entries[i].value
      {
        assert parts[i] == [];
        UnderEmpty(Field(entries[i].key.text), RemovedPaths(entries[i].value));
        CleanIsProjected(entries[i].value);
      }
      KeptAll(entries);
      InsertedIdentity(entries);
      ProjectedMap(frozen, entries);
      assert Mapped(entries, Projected) == entries;
    case List(items) => CleanSequenceIsProjected(v, items);
    case Tuple(items) => CleanSequenceIsProjected(v, items);
    case _ =>
  }

  lemma {:induction false} CleanSequenceIsProjected(v: Value, items: seq<Value>)
    requires (v.List? || v.Tuple?) && v.items == items
    requires DictForm(v) && RemovedPaths(v) == []
    ensures Projected(v) == v
    decreases v, 0
  {
    var parts := RemovedItemParts(items);
    RemovedInItems(v);
    FlattenEmpty(parts);
    forall i | 0 <= i < |items| ensures Projected(items[i]) == items[i] {
      assert parts[i] == [];
      UnderEmpty(Index(i), RemovedPaths(items[i]));
      CleanIsProjected(items[i]);
    }
    assert Projected(v).items == items;
  }

  lemma {:induction false} UnderEmpty(segment: Segment, paths: seq<Path>)
    requires Under(segment, paths) == []
    ensures paths == []
  {
    assert |Under(segment, paths)| == |paths|;
  }

  lemma {:induction false} KeptAll(entries: seq<Entry>)
    requires forall i :: 0 <= i < |entries| ==> !IsRemoved(entries[i].key)
    ensures Kept(entries) == entries
  {
    if entries != [] {
      KeptAll(entries[..|entries| - 1]);
    }
  }

  /** The projection changes nothing exactly when there is nothing to drop and nothing to stringify. */
  lemma {:induction false} ProjectionFixedPoints(v: Value)
    ensures Projected(v) == v <==> DictForm(v) && RemovedPaths(v) == []
    ensures Projected(Projected(v)) == Projected(v)
  {
    ProjectedIsClean(v);
    CleanIsProjected(Projected(v));
    if DictForm(v) && RemovedPaths(v) == [] {
      CleanIsProjected(v);
    }
  }

  predicate Passes(path: Path) {
    exists i :: 0 <= i < |path| && path[i].Field? && path[i].name in REMOVED_LEGACY_FIELDS
  }

  lemma {:induction false} KeptNotRemoved(entries: seq<Entry>)
    ensures forall e :: e in Kept(entries) ==> !IsRemoved(e.key)
  {
    if entries != [] {
      KeptNotRemoved(entries[..|entries| - 1]);
    }
  }

  lemma {:induction false} GetKept(entries: seq<Entry>, k: string)
    ensures Get(Kept(entries), k) == if k in REMOVED_LEGACY_FIELDS then None else Get(entries, k)
  {
    if entries != [] {
      var n := |entries| - 1;
      GetKept(entries[..n], k);
      if IsRemoved(entries[n].key) {
        assert Kept(entries) == Kept(entries[..n]);
      } else {
        GetAppend(Kept(entries[..n]), entries[n], k);
      }
    }
  }

  /** Nothing is readable under a removed field, and everything else stays at its position. */
  lemma {:induction false} ProjectionKeepsTheRest(v: Value, path: Path)
    ensures At(Projected(v), path) == if Passes(path) then None else Lifted(Projected, At(v, path))
    decreases path
  {
    if path != [] {
      var rest := path[1..];
      assert Passes(path) <==> (path[0].Field? && path[0].name in REMOVED_LEGACY_FIELDS) || Passes(rest) by {
        assert forall i :: 0 < i < |path| ==> path[i] == rest[i - 1];
        if i :| 0 <= i < |rest| && rest[i].Field? && rest[i].name in REMOVED_LEGACY_FIELDS {
          assert path[i + 1] == rest[i];
        }
      }
      match path[0]
      case Field(name) =>
        if v.Map? {
          ProjectedMap(v.frozen, v.entries);
          GetInserted(Mapped(Kept(v.entries), Projected), name);
          GetMapped(Kept(v.entries), Projected, name);
          GetKept(v.entries, name);
          if Get(v.entries, name).Some? {
            ProjectionKeepsTheRest(Get(v.entries, name).value, rest);
          }
        }
      case Index(i) =>
        if (v.List? || v.Tuple?) && i < |v.items| {
          ProjectionKeepsTheRest(v.items[i], rest);
        }
    }
  }

  // ---------------------------------------------------------------- freezing a projection

  lemma {:induction false} KeptOfPut(d: seq<Entry>, k: string, v: Value)
    ensures Kept(Put(d, k, v)) == if k in REMOVED_LEGACY_FIELDS then Kept(d) else Put(Kept(d), k, v)
  {
    if d != [] {
      KeptCons(d[0], d[1..]);
      assert d == [d[0]] + d[1..];
      if d[0].key.text == k {
        KeptCons(Entry(StrKey(k), v), d[1..]);
      } else {
        KeptOfPut(d[1..], k, v);
        KeptCons(d[0], Put(d[1..], k, v));
      }
      assert !IsRemoved(d[0].key) ==> ([d[0]] + Kept(d[1..]))[1..] == Kept(d[1..]);
    } else {
      assert Kept([Entry(StrKey(k), v)][..0]) == [];
    }
  }

  lemma {:induction false} KeptCons(e: Entry, rest: seq<Entry>)
    ensures Kept([e] + rest) == if IsRemoved(e.key) then Kept(rest) else [e] + Kept(rest)
  {
    var n := |rest| - 1;
    if rest == [] {
      assert [e][..0] == [];
      assert [e] + rest == [e];
    } else {
      KeptCons(e, rest[..n]);
      assert ([e] + rest)[..n + 1] == [e] + rest[..n];
    }
  }

  lemma {:induction false} KeptInserted(items: seq<Entry>)
    ensures Kept(Inserted(items)) == Inserted(Kept(items))
  {
    if items != [] {
      var n := |items| - 1;
      KeptInserted(items[..n]);
      KeptOfPut(Inserted(items[..n]), items[n].key.text, items[n].value);
      if !IsRemoved(items[n].key) {
        InsertedAppend(Kept(items[..n]), items[n]);
      } else {
        assert Kept(items) == Kept(items[..n]);
      }
    }
  }

  lemma {:induction false} KeptMapped(items: seq<Entry>, f: Value -> Value)
    ensures Kept(Mapped(items, f)) == Mapped(Kept(items), f)
  {
    if items != [] {
      var n := |items| - 1;
      KeptMapped(items[..n], f);
      assert Mapped(items, f)[..n] == Mapped(items[..n], f);
      assert Kept(items) == if IsRemoved(items[n].key) then Kept(items[..n]) else Kept(items[..n]) + [items[n]];
    }
  }

  /** The dict a projection builds from an already frozen mapping, and from the mapping itself. */
  lemma {:induction false} ProjectedFrozenMap(frozen: bool, entries: seq<Entry>)
    ensures Projected(Frozen(Map(frozen, entries)))
         == Map(false, Mapped(Mapped(Inserted(Kept(entries)), Frozen), Projected))
    ensures StringDict(Inserted(Kept(entries)))
  {
    var d := Inserted(entries);
    FrozenMap(frozen, entries);
    ProjectedMap(true, Mapped(d, Frozen));
    KeptMapped(d, Frozen);
    KeptInserted(entries);
    InsertedStringDict(Kept(entries));
    InsertedMapped(Inserted(Kept(entries)), Frozen);
    InsertedIdentity(Inserted(Kept(entries)));
  }

  /** No set is read from the value at a path that the projection keeps. */
  ghost predicate NoSetKept(v: Value) {
    forall path: Path :: !Passes(path) && At(v, path).Some? ==> !At(v, path).value.Set?
  }

  lemma {:induction false} DictFormDistinct(v: Value)
    requires DictForm(v)
    ensures DistinctKeys(v)
  {
    match v
    case List(items) =>
      forall x | x in items ensures DistinctKeys(x) { DictFormDistinct(x); }
    case Tuple(items) =>
      forall x | x in items ensures DistinctKeys(x) { DictFormDistinct(x); }
    case Map(_, entries) =>
      forall e | e in entries ensures DistinctKeys(e.value) { DictFormDistinct(e.value); }
    case _ =>
  }

  lemma {:induction false} ProjectedSets(v: Value)
    ensures SetFree(Projected(v)) <==> NoSetKept(v)
  {
    if SetFree(Projected(v)) {
      SetFreeHasNone(Projected(v));
      forall path: Path | !Passes(path) && At(v, path).Some? ensures !At(v, path).value.Set? {
        ProjectionKeepsTheRest(v, path);
        assert At(Projected(v), path) == Some(Projected(At(v, path).value));
      }
    }
    if NoSetKept(v) {
      ProjectedIsClean(v);
      DictFormDistinct(Projected(v));
      forall path: Path | At(Projected(v), path).Some? ensures !At(Projected(v), path).value.Set? {
        ProjectionKeepsTheRest(v, path);
      }
      NoSetIsSetFree(Projected(v));
    }
  }

  /** Freezing before the projection makes no difference to the frozen result, except that
      `freeze_value` refuses the frozen sets it then meets: those the projection keeps. */
  lemma {:induction false} FreezeProjectFreeze(v: Value)
    requires Freezable(v)
    ensures Frozen(Projected(Frozen(v))) == Frozen(Projected(v))
    ensures Freezable(Projected(v))
    ensures Freezable(Projected(Frozen(v))) <==> NoSetKept(v)
  {
    FrozenProjections(v);
    ProjectedSets(v);
  }

  lemma {:induction false} FrozenProjections(v: Value)
    requires Freezable(v)
    ensures Frozen(Projected(Frozen(v))) == Frozen(Projected(v))
    ensures Freezable(Projected(v))
    ensures Freezable(Projected(Frozen(v))) <==> SetFree(Projected(v))
    decreases v, 1
  {
    if v.Map? {
      FrozenProjectionsMap(v, v.entries);
    } else if v.List? || v.Tuple? {
      forall i | 0 <= i < |v.items| { FrozenProjections(v.items[i]); }
      FrozenProjectionsItems(v.items, Projected(Frozen(v)), Projected(v));
    } else if v.Set? {
      FrozenIsImmutable(v);
      RefreezeImmutable(Frozen(v));
    }
  }

  lemma {:induction false} FrozenProjectionsMap(v: Value, entries: seq<Entry>)
    requires v.Map? && v.entries == entries && Freezable(v)
    ensures Frozen(Projected(Frozen(v))) == Frozen(Projected(v))
    ensures Freezable(Projected(v))
    ensures Freezable(Projected(Frozen(v))) <==> SetFree(Projected(v))
    decreases v, 0
  {
    var kept := Inserted(Kept(entries));
    forall i | 0 <= i < |kept|
      ensures Freezable(Projected(kept[i].value))
      ensures Frozen(Projected(Frozen(kept[i].value))) == Frozen(Projected(kept[i].value))
      ensures Freezable(Projected(Frozen(kept[i].value))) <==> SetFree(Projected(kept[i].value))
    {
      var j := InsertedOrigin(Kept(entries), i);
      assert Kept(entries)[j] in entries;
      FrozenProjections(Kept(entries)[j].value);
    }
    FrozenProjectionsEntries(kept);
    ProjectedFrozenMap(v.frozen, entries);
    ProjectedMap(v.frozen, entries);
  }

  lemma {:induction false} FrozenProjectionsEntries(kept: seq<Entry>)
    requires forall i :: 0 <= i < |kept| ==>
      && Frozen(Projected(Frozen(kept[i].value))) == Frozen(Projected(kept[i].value))
      && Freezable(Projected(kept[i].value))
      && (Freezable(Projected(Frozen(kept[i].value))) <==> SetFree(Projected(kept[i].value)))
    ensures Frozen(Map(false, Mapped(Mapped(kept, Frozen), Projected))) == Frozen(Map(false, Mapped(kept, Projected)))
    ensures Freezable(Map(false, Mapped(kept, Projected)))
    ensures Freezable(Map(false, Mapped(Mapped(kept, Frozen), Projected))) <==>
      SetFree(Map(false, Mapped(kept, Projected)))
  {
    var left, right := Mapped(Mapped(kept, Frozen), Projected), Mapped(kept, Projected);
    assert forall i :: 0 <= i < |kept| ==>
      left[i].value == Projected(Frozen(kept[i].value)) && right[i].value == Projected(kept[i].value);
    SameFrozenMap(left, right);
    FreezableEntries(left);
    FreezableEntries(right);
  }

  lemma {:induction false} SameFrozenMap(left: seq<Entry>, right: seq<Entry>)
    requires |left| == |right|
    requires forall i ::
      0 <= i < |left| ==> left[i].key.text == right[i].key.text && Frozen(left[i].value) == Frozen(right[i].value)
    ensures Frozen(Map(false, left)) == Frozen(Map(false, right))
  {
    FrozenMap(false, left);
    FrozenMap(false, right);
    assert Mapped(left, Frozen) == Mapped(right, Frozen);
  }

  lemma {:induction false} FreezableEntries(entries: seq<Entry>)
    ensures Freezable(Map(false, entries)) <==> forall i :: 0 <= i < |entries| ==> Freezable(entries[i].value)
    ensures SetFree(Map(false, entries)) <==> forall i :: 0 <= i < |entries| ==> SetFree(entries[i].value)
  {
    assert forall i :: 0 <= i < |entries| ==> entries[i] in entries;
  }

  lemma {:induction false} FrozenProjectionsItems(items: seq<Value>, left: Value, right: Value)
    requires left == Tuple(seq(|items|, i requires 0 <= i < |items| => Projected(Frozen(items[i]))))
    requires right.List? || right.Tuple?
    requires right.items == seq(|items|, i requires 0 <= i < |items| => Projected(items[i]))
    requires forall i :: 0 <= i < |items| ==>
      && Frozen(Projected(Frozen(items[i]))) == Frozen(Projected(items[i]))
      && Freezable(Projected(items[i]))
      && (Freezable(Projected(Frozen(items[i]))) <==> SetFree(Projected(items[i])))
    ensures Frozen(left) == Frozen(right)
    ensures Freezable(right)
    ensures Freezable(left) <==> SetFree(right)
  {
    assert Frozen(left).items == Frozen(right).items;
    FreezableItems(left);
    FreezableItems(right);
    forall i | 0 <= i < |items|
      ensures Freezable(right.items[i]) && (Freezable(left.items[i]) <==> SetFree(right.items[i]))
    {
      assert left.items[i] == Projected(Frozen(items[i])) && right.items[i] == Projected(items[i]);
    }
  }

  lemma {:induction false} FreezableItems(v: Value)
    requires v.List? || v.Tuple?
    ensures Freezable(v) <==> forall i :: 0 <= i < |v.items| ==> Freezable(v.items[i])
    ensures SetFree(v) <==> forall i :: 0 <= i < |v.items| ==> SetFree(v.items[i])
  {
    assert forall i :: 0 <= i < |v.items| ==> v.items[i] in v.items;
  }

  /** Freezing brings no removed field back. */
  lemma {:induction false} FrozenKeepsClean(v: Value)
    requires RemovedPaths(v) == []
    ensures RemovedPaths(Frozen(v)) == []
    decreases v, 1
  {
    if v.Map? {
      FrozenMapKeepsClean(v, v.entries);
    } else if v.List? || v.Tuple? {
      FrozenSequenceKeepsClean(v, v.items);
    }
  }

  lemma {:induction false} FrozenMapKeepsClean(v: Value, entries: seq<Entry>)
    requires v.Map? && v.entries == entries
    requires RemovedPaths(v) == []
    ensures RemovedPaths(Frozen(v)) == []
    decreases v, 0
  {
    RemovedInMap(v.frozen, entries);
    FlattenEmpty(RemovedParts(entries));
    var kept := Inserted(entries);
    InsertedStringDict(entries);
    var m := Mapped(kept, Frozen);
    forall i | 0 <= i < |kept| ensures RemovedParts(m)[i] == [] {
      var j := InsertedOrigin(entries, i);
      var o := entries[j];
      assert RemovedParts(entries)[j] == [];
      UnderEmpty(Field(o.key.text), RemovedPaths(o.value));
      FrozenKeepsClean(o.value);
    }
    FlattenEmpty(RemovedParts(m));
    FrozenMap(v.frozen, entries);
    RemovedInMap(true, m);
  }

  lemma {:induction false} FrozenSequenceKeepsClean(v: Value, items: seq<Value>)
    requires (v.List? || v.Tuple?) && v.items == items
    requires RemovedPaths(v) == []
    ensures RemovedPaths(Frozen(v)) == []
    decreases v, 0
  {
    var parts := RemovedItemParts(items);
    RemovedInItems(v);
    FlattenEmpty(parts);
    var r := Frozen(v).items;
    var after := RemovedItemParts(r);
    RemovedInItems(Frozen(v));
    forall i | 0 <= i < |items| ensures after[i] == [] {
      assert parts[i] == [];
      UnderEmpty(Index(i), RemovedPaths(items[i]));
      FrozenKeepsClean(items[i]);
    }
    FlattenEmpty(after);
  }

  // ---------------------------------------------------------------- the envelope

  datatype ProtocolVersion = LEGACY_1 | V2

  datatype Envelope = Envelope(version: ProtocolVersion, principal: string, correlation: string, payload: Value)

  /** A refused envelope: `ValueError` naming the removed fields, or `TypeError` from freezing. */
  datatype EnvelopeResult = Sealed(envelope: Envelope) | HasRemovedFields(paths: seq<string>) | NotJson

  /** `AgentProtocolEnvelope(version, principal, correlation, payload)` */
  method SealEnvelope(version: ProtocolVersion, principal: string, correlation: string, payload: Value)
    returns (result: EnvelopeResult)
    requires payload.Map?
    ensures result ==
      if version == V2 && RemovedPaths(payload) != [] then HasRemovedFields(Rendered("", RemovedPaths(payload)))
      else if !Freezable(payload) then NotJson
      else Sealed(Envelope(version, principal, correlation, Frozen(payload)))
    ensures result.Sealed? ==> Immutable(result.envelope.payload)
    ensures result.Sealed? && version == V2 ==> forall p :: EndsRemoved(p) ==> !Reaches(result.envelope.payload, p)
  {
    if version == V2 {
      var removed := FindRemovedFields(payload, "");
      if removed != [] {
        return HasRemovedFields(removed);
      }
    }
    match FreezeValue(payload)
    case None => result := NotJson;
    case Some(value) =>
      result := Sealed(Envelope(version, principal, correlation, value));
      FrozenIsImmutable(payload);
      if version == V2 {
        FrozenKeepsClean(payload);
        forall p | EndsRemoved(p) ensures !Reaches(value, p) { RemovedPathsExact(value, p); }
      }
  }

  /** What a legacy payload leaves at a path of the sealed envelope. */
  function Sealing(payload: Value, path: Path): Option<Value> {
    if Passes(path) then None else Lifted(Frozen, Lifted(Projected, At(payload, path)))
  }

  /** `AgentProtocolEnvelope.from_legacy`: the removed-fields error cannot occur; the only refusal is
      a value that is not JSON and that the projection keeps. */
  method FromLegacy(principal: string, correlation: string, payload: Value)
    returns (result: EnvelopeResult, dropped: seq<string>)
    requires payload.Map?
    ensures !result.HasRemovedFields?
    ensures result.Sealed? <==> Freezable(Projected(payload))
    ensures result.Sealed? ==> result.envelope == Envelope(V2, principal, correlation, Frozen(Projected(payload)))
    ensures result.Sealed? ==> forall path :: At(result.envelope.payload, path) == Sealing(payload, path)
    ensures dropped == Rendered("", Filter(RemovedPaths(payload), Outermost))
  {
    var projected;
    projected, dropped := ProjectLegacyPayload(payload);
    DroppedAreOutermost(payload);
    ProjectedIsClean(payload);
    result := SealEnvelope(V2, principal, correlation, projected);
    forall path ensures At(Frozen(projected), path) == Sealing(payload, path) {
      FreezingKeepsPositions(projected, path);
      ProjectionKeepsTheRest(payload, path);
    }
  }
}
