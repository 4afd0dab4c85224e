/**
 Freezing a boundary value for a DTO and thawing it for JSON.
 Python raises `TypeError` from `freeze_value`; here the call answers `None` instead.
 */
module Immutables {
  import opened Wrappers
  import opened Values

  /** The values `freeze_value` accepts: JSON scalars, lists, tuples, mappings and mutable sets. */
  predicate Freezable(v: Value) {
    match v
    case Foreign(_) => false
    case List(items) => forall x :: x in items ==> Freezable(x)
    case Tuple(items) => forall x :: x in items ==> Freezable(x)
    case Set(frozen, members) => !frozen && forall x :: x in members ==> Freezable(x)
    case Map(_, entries) => forall e :: e in entries ==> Freezable(e.value)
    case _ => true
  }

  /** What freezing builds: mappings and sequences lose their mutable form at every depth. */
  function Frozen(v: Value): Value {
    match v
    case List(items) => Tuple(seq(|items|, i requires 0 <= i < |items| => Frozen(items[i])))
    case Tuple(items) => Tuple(seq(|items|, i requires 0 <= i < |items| => Frozen(items[i])))
    case Set(_, members) => Set(true, set x | x in members :: Frozen(x))
    case Map(_, entries) => 
      Map(true, Inserted(seq(|entries|, i requires 0 <= i < |entries| =>
        var e := entries[i];
        Entry(StrKey(e.key.text), Frozen(e.value)))))
    case _ => v
  }

  function FreezeValue(v: Value): Option<Value> {
    if Freezable(v) then Some(Frozen(v)) else None
  }

  /** A list of the members of a set, in an order the set chooses. */
  ghost function Enumerated(s: set<Value>): (r: seq<Value>)
    ensures forall x :: x in r <==> x in s
    ensures |r| == |s|
  {
    if s == {} then []
    else
      var x :| x in s;
      [x] + Enumerated(s - {x})
  }

  ghost function Thawed(v: Value): Value {
    match v
    case List(items) => List(seq(|items|, i requires 0 <= i < |items| => Thawed(items[i])))
    case Tuple(items) => List(seq(|items|, i requires 0 <= i < |items| => Thawed(items[i])))
    case Set(_, members) =>
      var order := Enumerated(members);
      List(seq(|order|, i requires 0 <= i < |order| =>
        assert order[i] in members;
        Thawed(order[i])))
    case Map(_, entries) => 
      Map(false, Inserted(seq(|entries|, i requires 0 <= i < |entries| =>
        var e := entries[i];
        Entry(StrKey(e.key.text), Thawed(e.value)))))
    case _ => v
  }

  ghost predicate SetFree(v: Value) {
    match v
    case List(items) => forall x :: x in items ==> SetFree(x)
    case Tuple(items) => forall x :: x in items ==> SetFree(x)
    case Set(_, _) => false
    case Map(_, entries) => forall e :: e in entries ==> SetFree(e.value)
    case _ => true
  }

  /** The canonical JSON container form: dicts with distinct string keys, and lists. */
  ghost predicate PlainJson(v: Value) {
    match v
    case List(items) => forall x :: x in items ==> PlainJson(x)
    case Tuple(_) => false
    case Set(_, _) => false
    case Map(frozen, entries) =>
      !frozen && StringDict(entries) && forall e :: e in entries ==> PlainJson(e.value)
    case _ => true
  }

  /** The form every frozen value has: immutable containers only, no foreign object. */
  ghost predicate Immutable(v: Value) {
    match v
    case Foreign(_) => false
    case List(_) => false
    case Tuple(items) => forall x :: x in items ==> Immutable(x)
    case Set(frozen, members) => frozen && forall x :: x in members ==> Immutable(x)
    case Map(frozen, entries) =>
      frozen && StringDict(entries) && forall e :: e in entries ==> Immutable(e.value)
    case _ => true
  }

  lemma {:induction false} FrozenMap(frozen: bool, entries: seq<Entry>)
    ensures Frozen(Map(frozen, entries)) == Map(true, Inserted(Mapped(entries, Frozen)))
    ensures Frozen(Map(frozen, entries)) == Map(true, Mapped(Inserted(entries), Frozen))
  {
    var items := seq(|entries|, i requires 0 <= i < |entries| =>
      var e := entries[i];
      Entry(StrKey(e.key.text), Frozen(e.value)));
    assert Frozen(Map(frozen, entries)) == Map(true, Inserted(items));
    assert items == Mapped(entries, Frozen);
    InsertedMapped(entries, Frozen);
  }

  lemma {:induction false} ThawedMap(frozen: bool, entries: seq<Entry>)
    ensures Thawed(Map(frozen, entries)) == Map(false, Inserted(Mapped(entries, Thawed)))
    ensures Thawed(Map(frozen, entries)) == Map(false, Mapped(Inserted(entries), Thawed))
  {
    var items := seq(|entries|, i requires 0 <= i < |entries| =>
      var e := entries[i];
      Entry(StrKey(e.key.text), Thawed(e.value)));
    assert Thawed(Map(frozen, entries)) == Map(false, Inserted(items));
    assert items == Mapped(entries, Thawed);
    InsertedMapped(entries, Thawed);
  }

  /** Every frozen value is immutable at every depth. */
  lemma {:induction false} FrozenIsImmutable(v: Value)
    requires Freezable(v)
    ensures Immutable(Frozen(v))
  {
    match v
    case List(items) =>
      forall i | 0 <= i < |items| ensures Immutable(Frozen(items[i])) { FrozenIsImmutable(items[i]); }
    case Tuple(items) =>
      forall i | 0 <= i < |items| ensures Immutable(Frozen(items[i])) { FrozenIsImmutable(items[i]); }
    case Set(_, members) =>
      forall x | x in members ensures Immutable(Frozen(x)) { FrozenIsImmutable(x); }
    case Map(_, entries) =>
      FrozenMap(v.frozen, entries);
      InsertedStringDict(entries);
      var r := Inserted(entries);
      forall i | 0 <= i < |r| ensures Immutable(Frozen(r[i].value)) {
        var j := InsertedOrigin(entries, i);
        var o := entries[j];
        FrozenIsImmutable(o.value);
      }
      InsertedStringDict(Mapped(entries, Frozen));
    case _ =>
  }

  /** Freezing what is already frozen changes nothing, and is refused exactly when a set is inside. */
  lemma {:induction false} RefreezeImmutable(w: Value)
    requires Immutable(w)
    ensures Frozen(w) == w
    ensures Freezable(w) <==> SetFree(w)
  {
    match w
    case Tuple(items) =>
      forall i | 0 <= i < |items|
        ensures Frozen(items[i]) == items[i] && (Freezable(items[i]) <==> SetFree(items[i]))
      { RefreezeImmutable(items[i]); }
    case Set(_, members) =>
      forall x | x in members ensures Frozen(x) == x { RefreezeImmutable(x); }
      assert (set x | x in members :: Frozen(x)) == members;
    case Map(frozen, entries) =>
      forall i | 0 <= i < |entries|
        ensures Frozen(entries[i].value) == entries[i].value
          && (Freezable(entries[i].value) <==> SetFree(entries[i].value))
      { RefreezeImmutable(entries[i].value); }
      FrozenMap(frozen, entries);
      InsertedIdentity(entries);
      assert Mapped(entries, Frozen) == entries;
    case _ =>
  }

  /** What freezing answers for a scalar or an object that is not JSON, and for a list or a tuple. */
  lemma {:induction false} FreezesExactly(v: Value)
    ensures v.Null? || v.Bool? || v.Int? || v.Float? || v.Str? ==> FreezeValue(v) == Some(v)
    ensures v.Foreign? ==> FreezeValue(v) == None
    ensures v.List? || v.Tuple? ==>
      && (FreezeValue(v).Some? <==> forall x :: x in v.items ==> FreezeValue(x).Some?)
      && forall w :: FreezeValue(v) == Some(w) ==>
        w.Tuple? && |w.items| == |v.items| &&
        forall i :: 0 <= i < |v.items| ==> FreezeValue(v.items[i]) == Some(w.items[i])
  {
    if v.List? || v.Tuple? {
      forall i | 0 <= i < |v.items| && Freezable(v) ensures FreezeValue(v.items[i]) == Some(Frozen(v).items[i]) {
        assert v.items[i] in v.items;
      }
    }
  }

  /** A mutable set freezes to the frozen set of what its members freeze to; a frozen set is refused. */
  lemma {:induction false} FrozenSetExact(members: set<Value>)
    ensures FreezeValue(Set(true, members)) == None
    ensures FreezeValue(Set(false, members)).Some? <==> forall m :: m in members ==> FreezeValue(m).Some?
    ensures forall w :: FreezeValue(Set(false, members)) == Some(w) ==>
      && w.Set? && w.frozen
      && forall x :: x in w.members <==> exists m :: m in members && FreezeValue(m) == Some(x)
  {
    if Freezable(Set(false, members)) {
      var w := Frozen(Set(false, members));
      forall x ensures x in w.members <==> exists m :: m in members && FreezeValue(m) == Some(x) {
        if x in w.members {
          var m :| m in members && Frozen(m) == x;
          assert FreezeValue(m) == Some(x);
        }
        if m :| m in members && FreezeValue(m) == Some(x) {
          assert Frozen(m) == x;
        }
      }
    }
  }

  /** A mapping freezes to a `FrozenMap` with one item for each key text, and every key has the frozen
      value of the last item with that text. */
  lemma {:induction false} FrozenMapExact(frozen: bool, entries: seq<Entry>)
    ensures FreezeValue(Map(frozen, entries)).Some? <==> forall e :: e in entries ==> FreezeValue(e.value).Some?
    ensures forall w :: FreezeValue(Map(frozen, entries)) == Some(w) ==>
      && w.Map? && w.frozen && StringDict(w.entries)
      && forall name :: Get(w.entries, name) == Lifted(Frozen, Get(entries, name))
  {
    if Freezable(Map(frozen, entries)) {
      FrozenIsImmutable(Map(frozen, entries));
      FrozenMap(frozen, entries);
      forall name ensures Get(Frozen(Map(frozen, entries)).entries, name) == Lifted(Frozen, Get(entries, name)) {
        GetInserted(Mapped(entries, Frozen), name);
        GetMapped(entries, Frozen, name);
      }
    }
  }

  // ---------------------------------------------------------------- where sets are

  /** Freezing moves no value. */
  lemma {:induction false} FreezingKeepsPositions(v: Value, path: Path)
    ensures At(Frozen(v), path) == Lifted(Frozen, At(v, path))
    decreases path
  {
    if path != [] {
      match path[0]
      case Field(name) =>
        if v.Map? {
          FrozenMap(v.frozen, v.entries);
          GetInserted(Mapped(v.entries, Frozen), name);
          GetMapped(v.entries, Frozen, name);
          if Get(v.entries, name).Some? {
            FreezingKeepsPositions(Get(v.entries, name).value, path[1..]);
          }
        }
      case Index(i) =>
        if (v.List? || v.Tuple?) && i < |v.items| {
          FreezingKeepsPositions(v.items[i], path[1..]);
        }
    }
  }

  /** Nothing that can be read from the value is a set.  A set under an overwritten key does not count. */
  ghost predicate NoSetAt(v: Value) {
    forall path: Path :: At(v, path).Some? ==> !At(v, path).value.Set?
  }

  /** Every mapping outside sets has distinct keys. */
  ghost predicate DistinctKeys(v: Value) {
    match v
    case List(items) => forall x :: x in items ==> DistinctKeys(x)
    case Tuple(items) => forall x :: x in items ==> DistinctKeys(x)
    case Map(_, entries) => DistinctTexts(entries) && forall e :: e in entries ==> DistinctKeys(e.value)
    case _ => true
  }

  lemma {:induction false} SetFreeAt(v: Value, path: Path)
    requires SetFree(v) && At(v, path).Some?
    ensures SetFree(At(v, path).value)
    decreases path
  {
    if path != [] {
      match path[0]
      case Field(name) =>
        GetIsMember(v.entries, name);
        SetFreeAt(Get(v.entries, name).value, path[1..]);
      case Index(i) =>
        SetFreeAt(v.items[i], path[1..]);
    }
  }

  lemma {:induction false} SetFreeHasNone(v: Value)
    requires SetFree(v)
    ensures NoSetAt(v)
  {
    forall path: Path | At(v, path).Some? ensures !At(v, path).value.Set? { SetFreeAt(v, path); }
  }

  /** What has no set has none below. */
  lemma {:induction false} NoSetBelow(v: Value, segment: Segment)
    requires NoSetAt(v) && At(v, [segment]).Some?
    ensures NoSetAt(At(v, [segment]).value)
  {
    var below := At(v, [segment]).value;
    forall path: Path | At(below, path).Some? ensures !At(below, path).value.Set? {
      assert ([segment] + path)[1..] == path;
      assert At(v, [segment] + path) == At(below, path);
    }
  }

  lemma {:induction false} NoSetInItem(v: Value, i: nat)
    requires NoSetAt(v) && (v.List? || v.Tuple?) && i < |v.items|
    ensures NoSetAt(v.items[i])
  {
    assert At(v, [Index(i)]) == Some(v.items[i]);
    NoSetBelow(v, Index(i));
  }

  /** The values that can be read from a mapping are those of the dict rebuilt from it. */
  lemma {:induction false} NoSetInEntry(v: Value, i: nat)
    requires NoSetAt(v) && v.Map? && i < |Inserted(v.entries)|
    ensures NoSetAt(Inserted(v.entries)[i].value)
  {
    var e := Inserted(v.entries)[i];
    InsertedStringDict(v.entries);
    GetAt(Inserted(v.entries), i);
    GetInserted(v.entries, e.key.text);
    assert At(v, [Field(e.key.text)]) == Some(e.value);
    NoSetBelow(v, Field(e.key.text));
  }

  lemma {:induction false} NoSetIsSetFree(v: Value)
    requires DistinctKeys(v) && NoSetAt(v)
    ensures SetFree(v)
  {
    assert At(v, []) == Some(v);
    match v
    case List(items) =>
      forall i | 0 <= i < |items| ensures SetFree(items[i]) {
        NoSetInItem(v, i);
        NoSetIsSetFree(items[i]);
      }
    case Tuple(items) =>
      forall i | 0 <= i < |items| ensures SetFree(items[i]) {
        NoSetInItem(v, i);
        NoSetIsSetFree(items[i]);
      }
    case Map(_, entries) =>
      forall i | 0 <= i < |entries| ensures SetFree(entries[i].value) {
        GetAt(entries, i);
        assert At(v, [Field(entries[i].key.text)]) == Some(entries[i].value);
        NoSetBelow(v, Field(entries[i].key.text));
        NoSetIsSetFree(entries[i].value);
      }
    case _ =>
  }

  lemma {:induction false} FrozenDistinct(v: Value)
    ensures DistinctKeys(Frozen(v))
  {
    match v
    case List(items) =>
      forall i | 0 <= i < |items| ensures DistinctKeys(Frozen(items[i])) { FrozenDistinct(items[i]); }
    case Tuple(items) =>
      forall i | 0 <= i < |items| ensures DistinctKeys(Frozen(items[i])) { FrozenDistinct(items[i]); }
    case Map(frozen, entries) =>
      FrozenMap(frozen, entries);
      InsertedStringDict(entries);
      var r := Inserted(entries);
      forall i | 0 <= i < |r| ensures DistinctKeys(Frozen(r[i].value)) {
        var j := InsertedOrigin(entries, i);
        var o := entries[j];
        FrozenDistinct(o.value);
      }
    case _ =>
  }

  /** A frozen value holds a set exactly when one can be read from the value itself. */
  lemma {:induction false} FrozenSets(v: Value)
    ensures SetFree(Frozen(v)) <==> NoSetAt(v)
  {
    forall path: Path {
      FreezingKeepsPositions(v, path);
    }
    if SetFree(Frozen(v)) {
      SetFreeHasNone(Frozen(v));
      forall path: Path | At(v, path).Some? ensures !At(v, path).value.Set? {
        FreezingKeepsPositions(v, path);
        assert At(Frozen(v), path) == Some(Frozen(At(v, path).value));
      }
    }
    if NoSetAt(v) {
      FrozenDistinct(v);
      forall path: Path | At(Frozen(v), path).Some? ensures !At(Frozen(v), path).value.Set? {
        FreezingKeepsPositions(v, path);
      }
      NoSetIsSetFree(Frozen(v));
    }
  }

  /** `freeze_value` is not idempotent on sets: it accepts `set` and refuses its own `frozenset`. */
  lemma {:induction false} RefreezeRefusesExactlySets(v: Value)
    requires Freezable(v)
    ensures FreezeValue(Frozen(v)) == if NoSetAt(v) then Some(Frozen(v)) else None
  {
    FrozenIsImmutable(v);
    RefreezeImmutable(Frozen(v));
    FrozenSets(v);
  }

  // ---------------------------------------------------------------- thawing

  /** Thawing ignores a freeze before it: the caller sees the same JSON either way. */
  lemma {:induction false} ThawIgnoresFreeze(v: Value)
    requires NoSetAt(v)
    ensures Thawed(Frozen(v)) == Thawed(v)
  {
    assert At(v, []) == Some(v);
    match v
    case List(items) =>
      forall i | 0 <= i < |items| ensures Thawed(Frozen(items[i])) == Thawed(items[i]) {
        NoSetInItem(v, i);
        ThawIgnoresFreeze(items[i]);
      }
      assert Thawed(Frozen(v)).items == Thawed(v).items;
    case Tuple(items) =>
      forall i | 0 <= i < |items| ensures Thawed(Frozen(items[i])) == Thawed(items[i]) {
        NoSetInItem(v, i);
        ThawIgnoresFreeze(items[i]);
      }
      assert Thawed(Frozen(v)).items == Thawed(v).items;
    case Map(frozen, entries) =>
      var r := Inserted(entries);
      forall i | 0 <= i < |r| ensures Thawed(Frozen(r[i].value)) == Thawed(r[i].value) {
        NoSetInEntry(v, i);
        var j := InsertedOrigin(entries, i);
        var o := entries[j];
        ThawIgnoresFreeze(o.value);
      }
      ThawIgnoresFreezeMap(frozen, r);
      OnlyTheRebuiltDict(frozen, entries);
    case _ =>
  }

  /** Freezing and thawing see no more of a mapping than the dict rebuilt from it. */
  lemma {:induction false} OnlyTheRebuiltDict(frozen: bool, entries: seq<Entry>)
    ensures Frozen(Map(frozen, Inserted(entries))) == Frozen(Map(frozen, entries))
    ensures Thawed(Map(frozen, Inserted(entries))) == Thawed(Map(frozen, entries))
  {
    InsertedStringDict(entries);
    InsertedIdentity(Inserted(entries));
    FrozenMap(frozen, entries);
    FrozenMap(frozen, Inserted(entries));
    ThawedMap(frozen, entries);
    ThawedMap(frozen, Inserted(entries));
  }

  lemma {:induction false} ThawIgnoresFreezeMap(frozen: bool, entries: seq<Entry>)
    requires forall i :: 0 <= i < |entries| ==> Thawed(Frozen(entries[i].value)) == Thawed(entries[i].value)
    ensures Thawed(Frozen(Map(frozen, entries))) == Thawed(Map(frozen, entries))
  {
    var inner := Mapped(entries, Frozen);
    FrozenMap(frozen, entries);
    ThawedMap(true, Inserted(inner));
    ThawedMap(frozen, entries);
    InsertedMapped(inner, Thawed);
    assert Mapped(inner, Thawed) == Mapped(entries, Thawed);
    InsertedStringDict(Mapped(entries, Thawed));
    InsertedStringDict(inner);
    InsertedIdentity(Inserted(inner));
  }

  /** Thawing gives plain JSON: a set comes back as a list. */
  lemma {:induction false} ThawedIsPlain(v: Value)
    ensures PlainJson(Thawed(v))
  {
    match v
    case List(items) =>
      forall i | 0 <= i < |items| ensures PlainJson(Thawed(items[i])) { ThawedIsPlain(items[i]); }
    case Tuple(items) =>
      forall i | 0 <= i < |items| ensures PlainJson(Thawed(items[i])) { ThawedIsPlain(items[i]); }
    case Set(_, members) =>
      forall x | x in members ensures PlainJson(Thawed(x)) { ThawedIsPlain(x); }
      var order := Enumerated(members);
      forall i | 0 <= i < |order| ensures PlainJson(Thawed(order[i])) { assert order[i] in members; }
    case Map(_, entries) =>
      ThawedMap(v.frozen, entries);
      InsertedStringDict(entries);
      InsertedStringDict(Mapped(entries, Thawed));
      var r := Inserted(entries);
      forall i | 0 <= i < |r| ensures PlainJson(Thawed(r[i].value)) {
        var j := InsertedOrigin(entries, i);
        var o := entries[j];
        ThawedIsPlain(o.value);
      }
    case _ =>
  }

  lemma {:induction false} PlainIsThawed(v: Value)
    requires PlainJson(v)
    ensures Thawed(v) == v
  {
    match v
    case List(items) =>
      forall i | 0 <= i < |items| ensures Thawed(items[i]) == items[i] { PlainIsThawed(items[i]); }
      assert Thawed(v).items == items;
    case Map(_, entries) =>
      forall i | 0 <= i < |entries|
        ensures Thawed(entries[i].value) == entries[i].value
      {
        PlainIsThawed(entries[i].value);
      }
      ThawedMap(v.frozen, entries);
      InsertedIdentity(entries);
      assert Mapped(entries, Thawed) == entries;
    case _ =>
  }

  /** The fixed points of thawing are exactly the plain JSON values. */
  lemma {:induction false} ThawingFixedPoints(v: Value)
    ensures Thawed(v) == v <==> PlainJson(v)
    ensures Thawed(Thawed(v)) == Thawed(v)
  {
    ThawedIsPlain(v);
    PlainIsThawed(Thawed(v));
    if PlainJson(v) { PlainIsThawed(v); }
  }

  /** Without a set to read, thawing a frozen value gives the same plain JSON as without freezing, and any
      further round of freezing and thawing leaves it alone. */
  lemma {:induction false} ThawAfterFreezeIsCanonical(v: Value)
    requires NoSetAt(v)
    ensures Thawed(Frozen(v)) == Thawed(v)
    ensures PlainJson(Thawed(Frozen(v)))
    ensures Thawed(Frozen(Thawed(Frozen(v)))) == Thawed(Frozen(v))
  {
    ThawIgnoresFreeze(v);
    ThawedIsPlain(v);
    PlainSetFree(Thawed(v));
    SetFreeHasNone(Thawed(v));
    ThawIgnoresFreeze(Thawed(v));
    PlainIsThawed(Thawed(v));
  }

  lemma {:induction false} PlainSetFree(v: Value)
    requires PlainJson(v)
    ensures SetFree(v)
  {
    match v
    case List(items) =>
      forall x | x in items ensures SetFree(x) { PlainSetFree(x); }
    case Map(_, entries) =>
      forall e | e in entries ensures SetFree(e.value) { PlainSetFree(e.value); }
    case _ =>
  }

  /** A thawed set lists the thaw of every member once, and nothing else. */
  lemma {:induction false} ThawedSetLists(frozen: bool, members: set<Value>)
    ensures var thawed := Thawed(Set(frozen, members));
      && thawed.List? && |thawed.items| == |members|
      && forall x :: x in thawed.items <==> exists m :: m in members && Thawed(m) == x
  {
    var order, items := Enumerated(members), Thawed(Set(frozen, members)).items;
    forall x ensures x in items <==> exists m :: m in members && Thawed(m) == x {
      if x in items {
        var i :| 0 <= i < |items| && items[i] == x;
        assert order[i] in members && Thawed(order[i]) == x;
      }
      if m :| m in members && Thawed(m) == x {
        assert m in order;
        var i :| 0 <= i < |order| && order[i] == m;
        assert items[i] == x;
      }
    }
  }

  /** Thawing leaves no set behind. */
  lemma {:induction false} ThawedSetFree(v: Value)
    ensures SetFree(Thawed(v))
  {
    ThawedIsPlain(v);
    PlainSetFree(Thawed(v));
  }

  lemma {:induction false} FrozenKeepsSetFree(v: Value)
    requires SetFree(v)
    ensures SetFree(Frozen(v))
  {
    match v
    case List(items) =>
      forall i | 0 <= i < |items| ensures SetFree(Frozen(items[i])) { FrozenKeepsSetFree(items[i]); }
    case Tuple(items) =>
      forall i | 0 <= i < |items| ensures SetFree(Frozen(items[i])) { FrozenKeepsSetFree(items[i]); }
    case Map(frozen, entries) =>
      FrozenMap(frozen, entries);
      InsertedStringDict(entries);
      var r := Inserted(entries);
      forall i | 0 <= i < |r| ensures SetFree(Frozen(r[i].value)) {
        var j := InsertedOrigin(entries, i);
        var o := entries[j];
        FrozenKeepsSetFree(o.value);
      }
    case _ =>
  }

  lemma {:induction false} ImmutableRoundTrip(w: Value)
    requires Immutable(w) && SetFree(w)
    ensures Frozen(Thawed(w)) == w && Freezable(Thawed(w))
  {
    match w
    case Tuple(items) =>
      forall i | 0 <= i < |items| ensures Frozen(Thawed(items[i])) == items[i] && Freezable(Thawed(items[i])) {
        ImmutableRoundTrip(items[i]);
      }
      assert Frozen(Thawed(w)).items == items;
    case Map(frozen, entries) =>
      forall i | 0 <= i < |entries|
        ensures Frozen(Thawed(entries[i].value)) == entries[i].value && Freezable(Thawed(entries[i].value))
      {
        ImmutableRoundTrip(entries[i].value);
      }
      var t := Mapped(entries, Thawed);
      ThawedMap(frozen, entries);
      InsertedIdentity(entries);
      FrozenMap(false, t);
      assert Mapped(t, Frozen) == entries;
    case _ =>
  }

  /** freeze, thaw, freeze equals freeze exactly when no set can be read from the value. */
  lemma {:induction false} FreezeThawFreeze(v: Value)
    requires Freezable(v)
    ensures FreezeValue(Thawed(Frozen(v))) == FreezeValue(v) <==> NoSetAt(v)
  {
    FrozenIsImmutable(v);
    FrozenSets(v);
    if SetFree(Frozen(v)) {
      ImmutableRoundTrip(Frozen(v));
    } else {
      ThawedSetFree(Frozen(v));
      FrozenKeepsSetFree(Thawed(Frozen(v)));
    }
  }

  /** An empty set freezes to a frozen set; after thawing, the same freeze gives an empty tuple. */
  lemma {:induction false} SetBecomesTuple()
    ensures var v := Set(false, {});
      FreezeValue(v) == Some(Set(true, {})) && FreezeValue(Thawed(Frozen(v))) == Some(Tuple([]))
  {
    var none: set<Value> := {};
    assert (set x | x in none :: Frozen(x)) == none;
    assert Enumerated(none) == [];
    assert Thawed(Set(true, none)) == List([]);
    assert Frozen(List([])) == Tuple([]);
  }
}
