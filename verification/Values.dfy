/**
 Python values that cross a boundary: scalars, lists, tuples, sets and ordered mappings.
 A mapping is the sequence of its items in insertion order.  Its keys need not be strings; every
 walker in the repository looks at a key only through `str(key)`, the field `text`.
 */
module Values {
  import opened Wrappers

  datatype Key = StrKey(text: string) | OtherKey(id: int, text: string)

  datatype Entry = Entry(key: Key, value: Value)

  /** `Foreign` is any object that is not JSON-shaped; `frozen` tells `FrozenMap` from `dict` and
      `frozenset` from `set`. */
  datatype Value =
    | Null
    | Bool(b: bool)
    | Int(n: int)
    | Float(token: int)
    | Str(s: string)
    | Foreign(id: int)
    | List(items: seq<Value>)
    | Tuple(items: seq<Value>)
    | Set(frozen: bool, members: set<Value>)
    | Map(frozen: bool, entries: seq<Entry>)

  /** `d[k] = v` on a dict with string keys: an existing key keeps its position. */
  function Put(d: seq<Entry>, k: string, v: Value): seq<Entry> {
    if d == [] then [Entry(StrKey(k), v)]
    else if d[0].key.text == k then [Entry(StrKey(k), v)] + d[1..]
    else [d[0]] + Put(d[1..], k, v)
  }

  /** The dict that results from inserting the items one after the other under `str(key)`. */
  function Inserted(items: seq<Entry>): seq<Entry> {
    if items == [] then []
    else
      var e := items[|items| - 1];
      Put(Inserted(items[..|items| - 1]), e.key.text, e.value)
  }

  /** The items `(str(key), f(value))`, in order. */
  function Mapped(items: seq<Entry>, f: Value -> Value): seq<Entry> {
    seq(|items|, i requires 0 <= i < |items| => Entry(StrKey(items[i].key.text), f(items[i].value)))
  }

  /** The value a reader sees under `k`: the last item with that text. */
  function Get(items: seq<Entry>, k: string): Option<Value> {
    if items == [] then None
    else if items[|items| - 1].key.text == k then Some(items[|items| - 1].value)
    else Get(items[..|items| - 1], k)
  }

  // ---------------------------------------------------------------- positions

  /** One step down: to the value of a key, or to an item of a sequence. */
  datatype Segment = Field(name: string) | Index(i: nat)

  type Path = seq<Segment>

  /** What a reader of the value finds at a path: the last item wins among colliding keys. */
  function At(v: Value, path: Path): Option<Value>
    decreases path
  {
    if path == [] then Some(v)
    else
      match path[0]
      case Field(name) =>
        if v.Map? && Get(v.entries, name).Some? then At(Get(v.entries, name).value, path[1..]) else None
      case Index(i) =>
        if (v.List? || v.Tuple?) && i < |v.items| then At(v.items[i], path[1..]) else None
  }

  function Lifted(f: Value -> Value, o: Option<Value>): Option<Value> {
    match o case Some(v) => Some(f(v)) case None => None
  }

  // ---------------------------------------------------------------- dicts with string keys

  ghost predicate DistinctTexts(items: seq<Entry>) {
    forall i, j :: 0 <= i < j < |items| ==> items[i].key.text != items[j].key.text
  }

  /** A dict whose keys are strings: what insertion under `str(key)` builds. */
  ghost predicate StringDict(items: seq<Entry>) {
    && DistinctTexts(items)
    && forall i :: 0 <= i < |items| ==> items[i].key.StrKey?
  }

  ghost predicate HasText(items: seq<Entry>, k: string) {
    exists i :: 0 <= i < |items| && items[i].key.text == k
  }

  lemma {:induction false} PutNew(d: seq<Entry>, k: string, v: Value)
    requires !HasText(d, k)
    ensures Put(d, k, v) == d + [Entry(StrKey(k), v)]
  {
    if d != [] {
      assert d[0].key.text != k;
      forall i | 0 <= i < |d| - 1 ensures d[1..][i].key.text != k {
        assert d[i + 1].key.text != k;
      }
      PutNew(d[1..], k, v);
    }
  }

  lemma {:induction false} PutAt(d: seq<Entry>, k: string, v: Value, i: nat)
    requires DistinctTexts(d) && i < |d| && d[i].key.text == k
    ensures Put(d, k, v) == d[i := Entry(StrKey(k), v)]
  {
    if i > 0 {
      PutAt(d[1..], k, v, i - 1);
      assert d == [d[0]] + d[1..];
    } else {
      assert d[0 := Entry(StrKey(k), v)] == [Entry(StrKey(k), v)] + d[1..];
    }
  }

  lemma {:induction false} PutStringDict(d: seq<Entry>, k: string, v: Value)
    requires StringDict(d)
    ensures StringDict(Put(d, k, v))
  {
    var r := Put(d, k, v);
    if HasText(d, k) {
      var i :| 0 <= i < |d| && d[i].key.text == k;
      PutAt(d, k, v, i);
      assert forall j :: 0 <= j < |d| ==> r[j].key.text == d[j].key.text;
    } else {
      PutNew(d, k, v);
      assert forall j :: 0 <= j < |d| ==> r[j] == d[j];
    }
  }

  lemma {:induction false} InsertedStringDict(items: seq<Entry>)
    ensures StringDict(Inserted(items))
  {
    if items != [] {
      var n := |items| - 1;
      InsertedStringDict(items[..n]);
      PutStringDict(Inserted(items[..n]), items[n].key.text, items[n].value);
    }
  }

  /** Insertion invents nothing: each entry comes from an item with the same text and value. */
  lemma {:induction false} InsertedOrigin(items: seq<Entry>, i: nat) returns (j: nat)
    requires i < |Inserted(items)|
    ensures j < |items|
    ensures Inserted(items)[i] == Entry(StrKey(items[j].key.text), items[j].value)
  {
    var n := |items| - 1;
    var d, last := Inserted(items[..n]), items[n];
    InsertedStringDict(items[..n]);
    if HasText(d, last.key.text) {
      var q :| 0 <= q < |d| && d[q].key.text == last.key.text;
      PutAt(d, last.key.text, last.value, q);
      if i == q { j := n; } else { j := InsertedOrigin(items[..n], i); }
    } else {
      PutNew(d, last.key.text, last.value);
      if i == |d| { j := n; } else { j := InsertedOrigin(items[..n], i); }
    }
  }

  /** Inserting the items of a string-keyed dict copies it. */
  lemma {:induction false} InsertedIdentity(d: seq<Entry>)
    requires StringDict(d)
    ensures Inserted(d) == d
  {
    if d != [] {
      var init, last := d[..|d| - 1], d[|d| - 1];
      InsertedIdentity(init);
      assert !HasText(init, last.key.text);
      PutNew(init, last.key.text, last.value);
      assert d == init + [last];
    }
  }

  lemma {:induction false} MappedCons(e: Entry, rest: seq<Entry>, f: Value -> Value)
    ensures Mapped([e] + rest, f) == [Entry(StrKey(e.key.text), f(e.value))] + Mapped(rest, f)
  {
  }

  lemma {:induction false} PutMapped(d: seq<Entry>, k: string, v: Value, f: Value -> Value)
    ensures Mapped(Put(d, k, v), f) == Put(Mapped(d, f), k, f(v))
  {
    if d != [] {
      assert d == [d[0]] + d[1..];
      MappedCons(d[0], d[1..], f);
      assert Mapped(d, f)[1..] == Mapped(d[1..], f);
      if d[0].key.text == k {
        MappedCons(Entry(StrKey(k), v), d[1..], f);
      } else {
        PutMapped(d[1..], k, v, f);
        MappedCons(d[0], Put(d[1..], k, v), f);
      }
    }
  }

  /** Rebuilding a dict commutes with a change of its values. */
  lemma {:induction false} InsertedMapped(items: seq<Entry>, f: Value -> Value)
    ensures Inserted(Mapped(items, f)) == Mapped(Inserted(items), f)
  {
    if items != [] {
      var init, last := items[..|items| - 1], items[|items| - 1];
      InsertedMapped(init, f);
      assert Mapped(items, f)[..|items| - 1] == Mapped(init, f);
      PutMapped(Inserted(init), last.key.text, last.value, f);
    }
  }

  lemma {:induction false} GetPut(d: seq<Entry>, k: string, v: Value, t: string)
    requires StringDict(d)
    ensures Get(Put(d, k, v), t) == if t == k then Some(v) else Get(d, t)
  {
    var r := Put(d, k, v);
    if HasText(d, k) {
      var i :| 0 <= i < |d| && d[i].key.text == k;
      PutAt(d, k, v, i);
      GetUpdated(d, i, v, t);
    } else {
      PutNew(d, k, v);
      assert r[..|r| - 1] == d;
    }
  }

  lemma {:induction false} GetUpdated(d: seq<Entry>, i: nat, v: Value, t: string)
    requires StringDict(d) && i < |d|
    ensures Get(d[i := Entry(d[i].key, v)], t) == if t == d[i].key.text then Some(v) else Get(d, t)
  {
    var r := d[i := Entry(d[i].key, v)];
    var n := |d| - 1;
    if i < n {
      GetUpdated(d[..n], i, v, t);
      assert r[..n] == d[..n][i := Entry(d[i].key, v)];
      if t == d[n].key.text { assert t != d[i].key.text; }
    } else {
      assert r[..n] == d[..n];
    }
  }

  /** Collisions never change what is read: the rebuilt dict answers like the original items. */
  lemma {:induction false} GetInserted(items: seq<Entry>, t: string)
    ensures Get(Inserted(items), t) == Get(items, t)
  {
    if items != [] {
      var init, last := items[..|items| - 1], items[|items| - 1];
      GetInserted(init, t);
      InsertedStringDict(init);
      GetPut(Inserted(init), last.key.text, last.value, t);
    }
  }

  lemma {:induction false} InsertedAppend(items: seq<Entry>, e: Entry)
    ensures Inserted(items + [e]) == Put(Inserted(items), e.key.text, e.value)
  {
    assert (items + [e])[..|items|] == items;
  }

  lemma {:induction false} GetAppend(items: seq<Entry>, e: Entry, t: string)
    ensures Get(items + [e], t) == if e.key.text == t then Some(e.value) else Get(items, t)
  {
    assert (items + [e])[..|items|] == items;
  }

  lemma {:induction false} GetMapped(items: seq<Entry>, f: Value -> Value, t: string)
    ensures Get(Mapped(items, f), t) == match Get(items, t) case Some(v) => Some(f(v)) case None => None
  {
    if items != [] {
      GetMapped(items[..|items| - 1], f, t);
      assert Mapped(items, f)[..|items| - 1] == Mapped(items[..|items| - 1], f);
    }
  }

  lemma {:induction false} GetIsMember(items: seq<Entry>, t: string)
    ensures Get(items, t).Some? <==> HasText(items, t)
    ensures Get(items, t).Some? ==> exists e :: e in items && e.key.text == t && e.value == Get(items, t).value
  {
    if items != [] {
      var init, last := items[..|items| - 1], items[|items| - 1];
      GetIsMember(init, t);
      assert last in items;
      if HasText(init, t) {
        var i :| 0 <= i < |init| && init[i].key.text == t;
        assert items[i].key.text == t;
      }
    }
  }

  /** With distinct texts every item is read. */
  lemma {:induction false} GetAt(items: seq<Entry>, i: nat)
    requires DistinctTexts(items) && i < |items|
    ensures Get(items, items[i].key.text) == Some(items[i].value)
  {
    if i < |items| - 1 { GetAt(items[..|items| - 1], i); }
  }
}
