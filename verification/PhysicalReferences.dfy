/**
 The physical references of a Catalog: one pair (reference, locator) for every reference extracted
 from a string inside a row field, and the index from references to the places they come from.

 Which references a string holds (`_physical_path_references`), `str()` of a value and the digest of
 a row belong to other modules; they are the fields of `Host`.
 */
module PhysicalReferences {
  import opened Wrappers
  import opened Values
  import opened Strings
  import opened Sequences
  import opened Ordering
  import opened JsonPointer
  import opened Sums

  type Extractor = string -> seq<string>

  /** `_iter_physical_references(value, locator=locator)` */
  function IterReferences(v: Value, locator: string, physical: Extractor): seq<(string, string)> {
    match v
    case Str(s) =>
      var references := physical(s);
      seq(|references|, i requires 0 <= i < |references| => (references[i], locator))
    case Map(false, entries) =>
      Flatten(seq(|entries|, i requires 0 <= i < |entries| =>
        var e := entries[i];
        IterReferences(e.value, locator + "/" + Escaped(e.key.text), physical)))
    case List(items) =>
      Flatten(seq(|items|, i requires 0 <= i < |items| =>
        IterReferences(items[i], locator + "/" + Decimal(i), physical)))
    case Tuple(items) =>
      Flatten(seq(|items|, i requires 0 <= i < |items| =>
        IterReferences(items[i], locator + "/" + Decimal(i), physical)))
    case _ => []
  }

  function ItemParts(items: seq<Value>, locator: string, physical: Extractor): seq<seq<(string, string)>> {
    seq(|items|, i requires 0 <= i < |items| => IterReferences(items[i], locator + "/" + Decimal(i), physical))
  }

  lemma {:induction false} IterOfItems(v: Value, locator: string, physical: Extractor)
    requires v.List? || v.Tuple?
    ensures IterReferences(v, locator, physical) == Flatten(ItemParts(v.items, locator, physical))
  {
  }

  function EntryParts(entries: seq<Entry>, locator: string, physical: Extractor): seq<seq<(string, string)>> {
    seq(|entries|, i requires 0 <= i < |entries| =>
      IterReferences(entries[i].value, locator + "/" + Escaped(entries[i].key.text), physical))
  }

  lemma {:induction false} IterOfEntries(entries: seq<Entry>, locator: string, physical: Extractor)
    ensures IterReferences(Map(false, entries), locator, physical) == Flatten(EntryParts(entries, locator, physical))
  {
    var parts := seq(|entries|, i requires 0 <= i < |entries| =>
      var e := entries[i];
      IterReferences(e.value, locator + "/" + Escaped(e.key.text), physical));
    assert IterReferences(Map(false, entries), locator, physical) == Flatten(parts);
    assert parts == EntryParts(entries, locator, physical);
  }

  /** The references paired with one locator, in order. */
  function CitedAt(pairs: seq<(string, string)>, locator: string): seq<string> {
    if pairs == [] then []
    else
      var last := pairs[|pairs| - 1];
      CitedAt(pairs[..|pairs| - 1], locator) + (if last.1 == locator then [last.0] else [])
  }

  /** The references of the string a pointer leads to; none when it leads elsewhere or nowhere. */
  function LeafReferences(v: Option<Value>, physical: Extractor): seq<string> {
    match v
    case Some(Str(s)) => physical(s)
    case _ => []
  }

  /** Member names are unique in every JSON object inside, as section 4 of RFC 6901 presumes. */
  ghost predicate UniqueNames(v: Value) {
    match v
    case Map(false, entries) => DistinctTexts(entries) && forall e :: e in entries ==> UniqueNames(e.value)
    case List(items) => forall x :: x in items ==> UniqueNames(x)
    case Tuple(items) => forall x :: x in items ==> UniqueNames(x)
    case _ => true
  }

  lemma {:induction false} CitedAtAppend(xs: seq<(string, string)>, ys: seq<(string, string)>, locator: string)
    ensures CitedAt(xs + ys, locator) == CitedAt(xs, locator) + CitedAt(ys, locator)
  {
    if ys == [] {
      assert xs + ys == xs;
    } else {
      CitedAtAppend(xs, ys[..|ys| - 1], locator);
      assert (xs + ys)[..|xs + ys| - 1] == xs + ys[..|ys| - 1];
    }
  }

  function CitedIn(parts: seq<seq<(string, string)>>, locator: string): seq<seq<string>> {
    seq(|parts|, i requires 0 <= i < |parts| => CitedAt(parts[i], locator))
  }

  lemma {:induction false} CitedAtFlatten(parts: seq<seq<(string, string)>>, locator: string)
    ensures CitedAt(Flatten(parts), locator) == Flatten(CitedIn(parts, locator))
  {
    if parts != [] {
      var n := |parts| - 1;
      CitedAtFlatten(parts[..n], locator);
      CitedAtAppend(Flatten(parts[..n]), parts[n], locator);
      assert CitedIn(parts, locator)[..n] == CitedIn(parts[..n], locator);
    }
  }

  lemma {:induction false} CitedAtConstant(pairs: seq<(string, string)>, locator: string, references: seq<string>,
                                           at: string)
    requires pairs == seq(|references|, i requires 0 <= i < |references| => (references[i], at))
    ensures CitedAt(pairs, locator) == if at == locator then references else []
  {
    if pairs != [] {
      var n := |pairs| - 1;
      CitedAtConstant(pairs[..n], locator, references[..n], at);
    }
  }

  /** The tokens of a pointer text that follow a given prefix. */
  function Ahead(locator: string, prefix: seq<string>): Option<seq<string>> {
    match Tokens(locator)
    case Some(tokens) => if prefix <= tokens then Some(tokens[|prefix|..]) else None
    case None => None
  }

  function Descend(ahead: Option<seq<string>>, token: string): Option<seq<string>> {
    if ahead.Some? && ahead.value != [] && ahead.value[0] == token then Some(ahead.value[1..]) else None
  }

  function Reach(v: Value, ahead: Option<seq<string>>): Option<Value> {
    match ahead
    case Some(tokens) => Evaluate(v, tokens)
    case None => None
  }

  /** The locators are exact.  For every text, the references emitted with it are those of the string
      it leads to when read as a JSON Pointer, in order and with multiplicity; a text that leads to no
      string is emitted with nothing. */
  lemma {:induction false} LocatorsAreExact(v: Value, prefix: seq<string>, physical: Extractor, locator: string)
    requires UniqueNames(v)
    requires forall t :: t in prefix ==> '/' !in t
    ensures CitedAt(IterReferences(v, Pointer(prefix), physical), locator)
         == LeafReferences(Reach(v, Ahead(locator, prefix)), physical)
    decreases v, 1
  {
    if v.Str? {
      CitedAtConstant(IterReferences(v, Pointer(prefix), physical), locator, physical(v.s), Pointer(prefix));
      AheadEmpty(locator, prefix);
    } else if v.Map? && !v.frozen {
      ObjectLocatorsAreExact(v, v.entries, prefix, physical, locator);
    } else if v.List? || v.Tuple? {
      ArrayLocatorsAreExact(v, v.items, prefix, physical, locator);
    } else {
      assert IterReferences(v, Pointer(prefix), physical) == [];
    }
  }

  /** Every position of a string has a locator of its own, and exactly the references of the string are
      emitted with it. */
  lemma {:induction false} EachLeafOwnLocator(v: Value, p: Path, q: Path, physical: Extractor)
    requires UniqueNames(v) && Locate(v, p).Some? && Locate(v, q).Some?
    ensures CitedAt(IterReferences(v, "", physical), LocatorOf(p)) == LeafReferences(Locate(v, p), physical)
    ensures LocatorOf(p) == LocatorOf(q) <==> p == q
  {
    LocatorsLocate(v, p, q);
    LocatorsAreExact(v, [], physical, LocatorOf(p));
    TokensHaveNoSlash(p);
    TokensOfPointer(TokensAt(p));
    assert TokensAt(p)[0..] == TokensAt(p);
  }

  lemma {:induction false} AheadEmpty(locator: string, prefix: seq<string>)
    requires forall t :: t in prefix ==> '/' !in t
    ensures Ahead(locator, prefix) == Some([]) <==> locator == Pointer(prefix)
  {
    TokensOfPointer(prefix);
    PointerOfTokens(locator);
    match Tokens(locator)
    case None =>
    case Some(tokens) =>
      assert tokens == prefix ==> prefix <= tokens && tokens[|prefix|..] == [];
      if prefix <= tokens && tokens[|prefix|..] == [] {
        assert |tokens| == |prefix|;
        assert tokens == prefix;
      }
  }

  lemma {:induction false} PointerAppend(prefix: seq<string>, token: string)
    ensures Pointer(prefix + [token]) == Pointer(prefix) + "/" + token
  {
    if prefix == [] {
      assert [token][1..] == [];
      assert [] + [token] == [token];
    } else {
      PointerAppend(prefix[1..], token);
      assert (prefix + [token])[1..] == prefix[1..] + [token];
    }
  }

  lemma {:induction false} AheadStep(locator: string, prefix: seq<string>, token: string)
    ensures Ahead(locator, prefix + [token]) == Descend(Ahead(locator, prefix), token)
  {
    if Tokens(locator).Some? {
      var tokens := Tokens(locator).value;
      if prefix + [token] <= tokens {
        assert tokens[..|prefix|] == (prefix + [token])[..|prefix|] == prefix;
        assert tokens[|prefix|..][1..] == tokens[|prefix| + 1..];
      }
      if prefix <= tokens && |tokens| > |prefix| && tokens[|prefix|] == token {
        assert tokens[..|prefix| + 1] == tokens[..|prefix|] + [tokens[|prefix|]];
        assert tokens[|prefix|..][1..] == tokens[|prefix| + 1..];
      }
    }
  }

  lemma {:induction false} ObjectLocatorsAreExact(v: Value, entries: seq<Entry>, prefix: seq<string>,
                                                  physical: Extractor, locator: string)
    requires v == Map(false, entries) && UniqueNames(v)
    requires forall t :: t in prefix ==> '/' !in t
    ensures CitedAt(IterReferences(v, Pointer(prefix), physical), locator)
         == LeafReferences(Reach(v, Ahead(locator, prefix)), physical)
    decreases v, 0
  {
    var parts := EntryParts(entries, Pointer(prefix), physical);
    IterOfEntries(entries, Pointer(prefix), physical);
    CitedAtFlatten(parts, locator);
    var cited := CitedIn(parts, locator);
    forall i | 0 <= i < |entries|
      ensures cited[i] ==
        LeafReferences(Reach(entries[i].value, Descend(Ahead(locator, prefix), Escaped(entries[i].key.text))), physical)
    {
      var token := Escaped(entries[i].key.text);
      EscapedIsToken(entries[i].key.text);
      PointerAppend(prefix, token);
      AheadStep(locator, prefix, token);
      LocatorsAreExact(entries[i].value, prefix + [token], physical, locator);
    }
    SelectChild(entries, Ahead(locator, prefix), physical, cited);
  }

  lemma {:induction false} SelectChild(entries: seq<Entry>, ahead: Option<seq<string>>, physical: Extractor,
                                       cited: seq<seq<string>>)
    requires DistinctTexts(entries) && |cited| == |entries|
    requires forall i :: 0 <= i < |entries| ==>
      cited[i] == LeafReferences(Reach(entries[i].value, Descend(ahead, Escaped(entries[i].key.text))), physical)
    ensures Flatten(cited) == LeafReferences(Reach(Map(false, entries), ahead), physical)
  {
    var leaf := LeafReferences(Reach(Map(false, entries), ahead), physical);
    var k := MemberIndex(entries, ahead);
    forall i | 0 <= i < |entries| ensures cited[i] == if i == k then leaf else [] {
      SelectedMember(entries, ahead, i);
    }
    if k < 0 { NoMember(entries, ahead, physical); }
    FlattenAt(cited, k, leaf);
  }

  /** The object member the next token names, or -1. */
  function MemberIndex(entries: seq<Entry>, ahead: Option<seq<string>>): (k: int)
    ensures k < |entries|
  {
    if ahead.Some? && ahead.value != [] && IsToken(ahead.value[0]) then LastIndex(entries, Unescaped(ahead.value[0]))
    else -1
  }

  function LastIndex(entries: seq<Entry>, name: string): (k: int)
    ensures -1 <= k < |entries|
    ensures k >= 0 ==> entries[k].key.text == name && Get(entries, name) == Some(entries[k].value)
    ensures k < 0 ==> !HasText(entries, name) && Get(entries, name) == None
  {
    if entries == [] then -1
    else if entries[|entries| - 1].key.text == name then |entries| - 1
    else
      var k := LastIndex(entries[..|entries| - 1], name);
      assert forall i :: 0 <= i < |entries| - 1 ==> entries[..|entries| - 1][i] == entries[i];
      k
  }

  lemma {:induction false} SelectedMember(entries: seq<Entry>, ahead: Option<seq<string>>, i: nat)
    requires DistinctTexts(entries) && i < |entries|
    ensures Reach(entries[i].value, Descend(ahead, Escaped(entries[i].key.text))) ==
      if i == MemberIndex(entries, ahead) then Reach(Map(false, entries), ahead) else None
  {
    if ahead.Some? && ahead.value != [] {
      EscapeInverse(entries[i].key.text, ahead.value[0]);
      var k := MemberIndex(entries, ahead);
      assert k >= 0 && k != i ==> entries[k].key.text != entries[i].key.text;
      assert k < 0 && IsToken(ahead.value[0]) ==> entries[i].key.text != Unescaped(ahead.value[0]);
    }
  }

  lemma {:induction false} NoMember(entries: seq<Entry>, ahead: Option<seq<string>>, physical: Extractor)
    requires MemberIndex(entries, ahead) < 0
    ensures LeafReferences(Reach(Map(false, entries), ahead), physical) == []
  {
  }

  lemma {:induction false} ArrayLocatorsAreExact(v: Value, items: seq<Value>, prefix: seq<string>, physical: Extractor,
                                                 locator: string)
    requires v == List(items) || v == Tuple(items)
    requires UniqueNames(v)
    requires forall t :: t in prefix ==> '/' !in t
    ensures CitedAt(IterReferences(v, Pointer(prefix), physical), locator)
         == LeafReferences(Reach(v, Ahead(locator, prefix)), physical)
    decreases v, 0
  {
    var parts := ItemParts(items, Pointer(prefix), physical);
    IterOfItems(v, Pointer(prefix), physical);
    CitedAtFlatten(parts, locator);
    var cited := CitedIn(parts, locator);
    forall i | 0 <= i < |items|
      ensures cited[i] == LeafReferences(Reach(items[i], Descend(Ahead(locator, prefix), Decimal(i))), physical)
    {
      PointerAppend(prefix, Decimal(i));
      AheadStep(locator, prefix, Decimal(i));
      DecimalForm(i);
      LocatorsAreExact(items[i], prefix + [Decimal(i)], physical, locator);
    }
    SelectItem(v, Ahead(locator, prefix), physical, cited);
  }

  lemma {:induction false} SelectItem(v: Value, ahead: Option<seq<string>>, physical: Extractor,
                                      cited: seq<seq<string>>)
    requires v.List? || v.Tuple?
    requires |cited| == |v.items|
    requires forall i :: 0 <= i < |v.items| ==>
      cited[i] == LeafReferences(Reach(v.items[i], Descend(ahead, Decimal(i))), physical)
    ensures Flatten(cited) == LeafReferences(Reach(v, ahead), physical)
  {
    var leaf := LeafReferences(Reach(v, ahead), physical);
    var k := ItemIndex(v, ahead);
    forall i | 0 <= i < |v.items| ensures cited[i] == if i == k then leaf else [] {
      SelectedItem(v, ahead, i);
    }
    FlattenAt(cited, k, leaf);
  }

  /** The item the next token selects, or -1. */
  function ItemIndex(v: Value, ahead: Option<seq<string>>): (k: int)
    requires v.List? || v.Tuple?
    ensures k < |v.items|
  {
    if ahead.Some? && ahead.value != [] && IsArrayIndex(ahead.value[0]) && FromDecimal(ahead.value[0]) < |v.items|
    then FromDecimal(ahead.value[0]) else -1
  }

  lemma {:induction false} SelectedItem(v: Value, ahead: Option<seq<string>>, i: nat)
    requires v.List? || v.Tuple?
    requires i < |v.items|
    ensures Reach(v.items[i], Descend(ahead, Decimal(i))) == if i == ItemIndex(v, ahead) then Reach(v, ahead) else None
  {
    if ahead.Some? && ahead.value != [] {
      DecimalInverse(i, ahead.value[0]);
    }
  }

  // ---------------------------------------------------------------- rows, tables, the scan

  /** A row as the mapping from column names to values. */
  type Row = seq<Entry>

  datatype Table = Table(columns: set<string>, primaryKey: seq<string>, rows: seq<Row>)

  type Catalog = map<string, Table>

  datatype Origin =
    Origin(table: string, field: string, locator: string, rowKey: map<string, string>, sourceDigest: Option<string>)

  datatype Host = Host(
    physical: Extractor,
    text: Value -> string,
    rowDigest: Row -> string,
    keyText: map<string, string> -> string)

  const REFERENCE_FIELDS: seq<(string, seq<string>)> := [
    ("knowledge_documents", ["source_path", "storage_path"]),
    ("knowledge_source_items", ["path_json"]),
    ("knowledge_table_assets", ["storage_path", "profile_path"]),
    ("knowledge_import_jobs", ["source_path"]),
    ("read_later_items", ["storage_path", "raw_snapshot_path", "source_path"]),
    ("semantic_dimension_build_jobs",
     ["staging_path", "published_reference_path", "requested_scope", "input_snapshot", "result_summary"])
  ]

  const CONTENT_DIGEST_FIELDS: map<string, string> := map[
    "knowledge_documents" := "content_sha256",
    "knowledge_import_jobs" := "source_sha256",
    "knowledge_table_assets" := "content_sha256"
  ]

  /** `row.get(column)`; an absent column reads as `None`. */
  function Cell(row: Row, column: string): Value {
    match Get(row, column)
    case Some(v) => v
    case None => Null
  }

  /** Python truth of a value; the float token 0 is 0.0. */
  predicate Truthy(v: Value) {
    match v
    case Null => false
    case Bool(b) => b
    case Int(n) => n != 0
    case Float(token) => token != 0
    case Str(s) => s != ""
    case Foreign(_) => true
    case List(items) => items != []
    case Tuple(items) => items != []
    case Set(_, members) => members != {}
    case Map(_, entries) => entries != []
  }

  function RowKey(table: Table, row: Row, host: Host): map<string, string> {
    var key := map column | column in table.primaryKey && !Cell(row, column).Null? :: host.text(Cell(row, column));
    if |key| != |table.primaryKey| then map["row_digest" := host.rowDigest(row)] else key
  }

  function SourceDigest(name: string, row: Row, host: Host): Option<string> {
    if name !in CONTENT_DIGEST_FIELDS || !Truthy(Cell(row, CONTENT_DIGEST_FIELDS[name])) then None
    else
      var digest := host.text(Cell(row, CONTENT_DIGEST_FIELDS[name]));
      Some(if "sha256:" <= digest then digest else "sha256:" + digest)
  }

  function OriginOf(name: string, table: Table, row: Row, field: string, locator: string, host: Host): Origin {
    Origin(name, field, locator, RowKey(table, row, host), SourceDigest(name, row, host))
  }

  /** The plain scan: every occurrence with its origin, table by table, row by row, field by field. */
  function FieldScan(name: string, table: Table, row: Row, field: string, host: Host): seq<(string, Origin)> {
    if field !in table.columns then []
    else
      var pairs := IterReferences(Cell(row, field), "/" + field, host.physical);
      seq(|pairs|, i requires 0 <= i < |pairs| =>
        (pairs[i].0, OriginOf(name, table, row, field, pairs[i].1, host)))
  }

  function RowScan(name: string, table: Table, row: Row, fields: seq<string>, host: Host): seq<(string, Origin)> {
    Flatten(FieldScans(name, table, row, fields, host))
  }

  function FieldScans(name: string, table: Table, row: Row, fields: seq<string>,
                      host: Host): seq<seq<(string, Origin)>>
  {
    seq(|fields|, i requires 0 <= i < |fields| => FieldScan(name, table, row, fields[i], host))
  }

  function TableScan(name: string, table: Table, fields: seq<string>, host: Host): seq<(string, Origin)> {
    Flatten(seq(|table.rows|, i requires 0 <= i < |table.rows| => RowScan(name, table, table.rows[i], fields, host)))
  }

  function CatalogScan(catalog: Catalog, reference: (string, seq<string>), host: Host): seq<(string, Origin)> {
    if reference.0 in catalog then TableScan(reference.0, catalog[reference.0], reference.1, host) else []
  }

  function Scan(catalog: Catalog, host: Host): seq<(string, Origin)> {
    Flatten(seq(|REFERENCE_FIELDS|, i requires 0 <= i < |REFERENCE_FIELDS| =>
      CatalogScan(catalog, REFERENCE_FIELDS[i], host)))
  }

  // ---------------------------------------------------------------- the index

  /** The origins the scan gives one reference, in scan order. */
  function OriginsOf(pairs: seq<(string, Origin)>, reference: string): seq<Origin> {
    if pairs == [] then []
    else
      var last := pairs[|pairs| - 1];
      OriginsOf(pairs[..|pairs| - 1], reference) + (if last.0 == reference then [last.1] else [])
  }

  function References(pairs: seq<(string, Origin)>): set<string> {
    set i | 0 <= i < |pairs| :: pairs[i].0
  }

  ghost predicate Indexes(origins: map<string, seq<Origin>>, pairs: seq<(string, Origin)>) {
    && origins.Keys == References(pairs)
    && forall r :: r in origins ==> origins[r] == OriginsOf(pairs, r)
  }

  /** `(item["table"], item["field"], item["locator"], str(item["row_key"]))` */
  function OriginOrder(host: Host): Origin -> seq<string> {
    (o: Origin) => [o.table, o.field, o.locator, host.keyText(o.rowKey)]
  }

  /** By table, then field, then locator, then the text of the row key. */
  ghost predicate InOrder(origins: seq<Origin>, host: Host) {
    forall i, j :: 0 <= i < j < |origins| ==>
      KeyLe([origins[i].table, origins[i].field, origins[i].locator, host.keyText(origins[i].rowKey)],
            [origins[j].table, origins[j].field, origins[j].locator, host.keyText(origins[j].rowKey)])
  }

  lemma {:induction false} SortedInOrder(origins: seq<Origin>, host: Host)
    requires SortedBy(origins, OriginOrder(host))
    ensures InOrder(origins, host)
  {
    forall i, j | 0 <= i < j < |origins|
      ensures KeyLe([origins[i].table, origins[i].field, origins[i].locator, host.keyText(origins[i].rowKey)],
                    [origins[j].table, origins[j].field, origins[j].locator, host.keyText(origins[j].rowKey)])
    {
      assert KeyLe(OriginOrder(host)(origins[i]), OriginOrder(host)(origins[j]));
    }
  }

  lemma {:induction false} OriginsOfAbsent(pairs: seq<(string, Origin)>, r: string)
    requires r !in References(pairs)
    ensures OriginsOf(pairs, r) == []
  {
    if pairs != [] {
      var n := |pairs| - 1;
      assert pairs[n].0 in References(pairs);
      assert forall i :: 0 <= i < n ==> pairs[..n][i].0 == pairs[i].0;
      OriginsOfAbsent(pairs[..n], r);
    }
  }

  /** `origins.setdefault(reference, []).append(origin)` keeps the index right. */
  lemma {:induction false} IndexesAppend(origins: map<string, seq<Origin>>, pairs: seq<(string, Origin)>, r: string,
                                         o: Origin)
    requires Indexes(origins, pairs)
    ensures Indexes(origins[r := (if r in origins then origins[r] else []) + [o]], pairs + [(r, o)])
  {
    var more := pairs + [(r, o)];
    assert more[..|pairs|] == pairs;
    assert References(more) == References(pairs) + {r} by {
      assert more[|pairs|].0 in References(more);
      forall x | x in References(pairs) ensures x in References(more) {
        var i :| 0 <= i < |pairs| && pairs[i].0 == x;
        assert more[i].0 == x;
      }
    }
    if r !in origins {
      OriginsOfAbsent(pairs, r);
    }
  }

  lemma {:induction false} ScanStep<T>(done: seq<T>, scan: seq<T>, i: nat)
    requires i < |scan|
    ensures done + scan[..i] + [scan[i]] == done + scan[..i + 1]
  {
    assert scan[..i + 1] == scan[..i] + [scan[i]];
  }

  method IndexField(name: string, table: Table, row: Row, field: string, host: Host,
                    origins: map<string, seq<Origin>>, ghost done: seq<(string, Origin)>)
    returns (result: map<string, seq<Origin>>)
    requires Indexes(origins, done)
    ensures Indexes(result, done + FieldScan(name, table, row, field, host))
  {
    result := origins;
    ghost var scan := FieldScan(name, table, row, field, host);
    if field in table.columns {
      var rowKey, digest := RowKey(table, row, host), SourceDigest(name, row, host);
      var pairs := IterReferences(Cell(row, field), "/" + field, host.physical);
      assert done + scan[..0] == done;
      for i := 0 to |pairs|
        invariant Indexes(result, done + scan[..i])
      {
        var (reference, locator) := pairs[i];
        var origin := Origin(name, field, locator, rowKey, digest);
        IndexesAppend(result, done + scan[..i], reference, origin);
        assert scan[i] == (reference, origin);
        ScanStep(done, scan, i);
        result := result[reference := (if reference in result then result[reference] else []) + [origin]];
      }
      assert scan[..|pairs|] == scan;
    } else {
      assert done + scan == done;
    }
  }

  lemma {:induction false} FlattenStep<T>(done: seq<T>, parts: seq<seq<T>>, i: nat)
    requires i < |parts|
    ensures done + Flatten(parts[..i]) + parts[i] == done + Flatten(parts[..i + 1])
  {
    assert parts[..i + 1][..i] == parts[..i];
  }

  method IndexRow(name: string, table: Table, row: Row, fields: seq<string>, host: Host,
                  origins: map<string, seq<Origin>>, ghost done: seq<(string, Origin)>)
    returns (result: map<string, seq<Origin>>)
    requires Indexes(origins, done)
    ensures Indexes(result, done + RowScan(name, table, row, fields, host))
  {
    result := origins;
    ghost var parts := FieldScans(name, table, row, fields, host);
    assert done + Flatten(parts[..0]) == done;
    for i := 0 to |fields|
      invariant Indexes(result, done + Flatten(parts[..i]))
    {
      result := IndexField(name, table, row, fields[i], host, result, done + Flatten(parts[..i]));
      FlattenStep(done, parts, i);
    }
    assert parts[..|fields|] == parts;
  }

  method IndexTable(name: string, table: Table, fields: seq<string>, host: Host,
                    origins: map<string, seq<Origin>>, ghost done: seq<(string, Origin)>)
    returns (result: map<string, seq<Origin>>)
    requires Indexes(origins, done)
    ensures Indexes(result, done + TableScan(name, table, fields, host))
  {
    result := origins;
    ghost var parts :=
      seq(|table.rows|, i requires 0 <= i < |table.rows| => RowScan(name, table, table.rows[i], fields, host));
    assert done + Flatten(parts[..0]) == done;
    for i := 0 to |table.rows|
      invariant Indexes(result, done + Flatten(parts[..i]))
    {
      result := IndexRow(name, table, table.rows[i], fields, host, result, done + Flatten(parts[..i]));
      FlattenStep(done, parts, i);
    }
    assert parts[..|table.rows|] == parts;
  }

  /** `_physical_reference_origins`: the index holds the references of the scan and lists for each of
      them its origins, sorted by table, field, locator and row key. */
  method PhysicalReferenceOrigins(catalog: Catalog, host: Host) returns (result: map<string, seq<Origin>>)
    ensures result.Keys == References(Scan(catalog, host))
    ensures forall r :: r in result ==>
      && result[r] == SortBy(OriginsOf(Scan(catalog, host), r), OriginOrder(host))
      && InOrder(result[r], host)
      && multiset(result[r]) == multiset(OriginsOf(Scan(catalog, host), r))
    ensures SumOver(result.Keys, (r: string) => if r in result then |result[r]| else 0) == |Scan(catalog, host)|
    ensures TellsAll(result, catalog, host)
  {
    var origins: map<string, seq<Origin>> := map[];
    ghost var parts := seq(|REFERENCE_FIELDS|, i requires 0 <= i < |REFERENCE_FIELDS| =>
      CatalogScan(catalog, REFERENCE_FIELDS[i], host));
    for i := 0 to |REFERENCE_FIELDS|
      invariant Indexes(origins, Flatten(parts[..i]))
    {
      var (name, fields) := REFERENCE_FIELDS[i];
      if name in catalog {
        origins := IndexTable(name, catalog[name], fields, host, origins, Flatten(parts[..i]));
      }
      FlattenStep([], parts, i);
      assert [] + Flatten(parts[..i]) == Flatten(parts[..i]) && [] + Flatten(parts[..i + 1]) == Flatten(parts[..i + 1]);
      assert name !in catalog ==> Flatten(parts[..i]) + parts[i] == Flatten(parts[..i]);
    }
    assert parts[..|REFERENCE_FIELDS|] == parts;
    result := map r | r in origins :: SortBy(origins[r], OriginOrder(host));
    SortedIndex(origins, Scan(catalog, host), result, host);
    IndexTells(result, catalog, host);
  }

  /** What sorting the lists of an index gives. */
  lemma {:induction false} SortedIndex(origins: map<string, seq<Origin>>, scan: seq<(string, Origin)>,
                                       result: map<string, seq<Origin>>, host: Host)
    requires Indexes(origins, scan)
    requires result.Keys == origins.Keys && forall r :: r in result ==>
      result[r] == SortBy(origins[r], OriginOrder(host))
    ensures result.Keys == References(scan)
    ensures forall r :: r in result ==>
      && result[r] == SortBy(OriginsOf(scan, r), OriginOrder(host))
      && InOrder(result[r], host)
      && multiset(result[r]) == multiset(OriginsOf(scan, r))
    ensures SumOver(result.Keys, (r: string) => if r in result then |result[r]| else 0) == |scan|
  {
    forall r | r in result
      ensures InOrder(result[r], host) && multiset(result[r]) == multiset(OriginsOf(scan, r))
      ensures |result[r]| == |OriginsOf(scan, r)|
    {
      SortByFacts(OriginsOf(scan, r), OriginOrder(host));
      SortedInOrder(result[r], host);
    }
    OriginsAddUp(scan, References(scan));
    SumSame(result.Keys, (r: string) => if r in result then |result[r]| else 0, Occurrences(scan));
  }

  function Occurrences(pairs: seq<(string, Origin)>): string -> int {
    (reference: string) => |OriginsOf(pairs, reference)|
  }

  /** Indexing loses no occurrence. */
  lemma {:induction false} OriginsAddUp(pairs: seq<(string, Origin)>, keys: set<string>)
    requires References(pairs) <= keys
    ensures SumOver(keys, Occurrences(pairs)) == |pairs|
  {
    if pairs == [] {
      SumZero(keys, Occurrences(pairs));
    } else {
      var init, k := pairs[..|pairs| - 1], pairs[|pairs| - 1].0;
      ReferencesOfInit(pairs);
      OriginsAddUp(init, keys);
      SumRemove(keys, Occurrences(pairs), k);
      SumRemove(keys, Occurrences(init), k);
      SumSame(keys - {k}, Occurrences(pairs), Occurrences(init));
    }
  }

  lemma {:induction false} ReferencesOfInit(pairs: seq<(string, Origin)>)
    requires pairs != []
    ensures pairs[|pairs| - 1].0 in References(pairs)
    ensures References(pairs[..|pairs| - 1]) <= References(pairs)
  {
    var init := pairs[..|pairs| - 1];
    forall x | x in References(init) ensures x in References(pairs) {
      var i :| 0 <= i < |init| && init[i].0 == x;
      assert pairs[i].0 == x;
    }
  }

  // ---------------------------------------------------------------- what an origin tells

  /** The column with the digest of the content, for the tables that have one. */
  ghost predicate DigestColumn(table: string, column: string) {
    || (table == "knowledge_documents" && column == "content_sha256")
    || (table == "knowledge_table_assets" && column == "content_sha256")
    || (table == "knowledge_import_jobs" && column == "source_sha256")
  }

  /** The values Python takes for false. */
  ghost predicate Falsy(v: Value) {
    || v == Null || v == Bool(false) || v == Int(0) || v == Float(0) || v == Str("")
    || v == List([]) || v == Tuple([]) || (v.Set? && v.members == {}) || (v.Map? && v.entries == [])
  }

  /** There is a digest exactly when the row has a true value in that column; it is the text of the value, with
      the prefix that no digest lacks. */
  ghost predicate DigestTells(table: string, row: Row, digest: Option<string>, host: Host) {
    && (digest.Some? <==>
        exists column ::
          DigestColumn(table, column) && Get(row, column).Some? && !Falsy(Get(row, column).value))
    && forall column :: DigestColumn(table, column) && digest.Some? && Get(row, column).Some? ==>
         var text := host.text(Get(row, column).value);
         digest.value == if "sha256:" <= text then text else "sha256:" + text
  }

  ghost predicate Filled(row: Row, column: string) {
    Get(row, column).Some? && Get(row, column).value != Null
  }

  /** The key has the text of every column of the primary key, or is the digest of the row when one of them is
      empty. */
  ghost predicate KeyTells(table: Table, row: Row, key: map<string, string>, host: Host) {
    if Distinct(table.primaryKey) && forall c :: c in table.primaryKey ==> Filled(row, c) then
      && (forall c :: c in key <==> c in table.primaryKey)
      && forall c :: c in key ==> key[c] == host.text(Get(row, c).value)
    else key == map["row_digest" := host.rowDigest(row)]
  }

  /** Under this reference the origin tells of this row: of one of its scanned fields, where the reference is
      found at the locator. */
  ghost predicate Tells(reference: string, o: Origin, table: Table, row: Row, fields: seq<string>, host: Host) {
    && o.field in fields && o.field in table.columns && Get(row, o.field).Some?
    && (reference, o.locator) in IterReferences(Get(row, o.field).value, "/" + o.field, host.physical)
    && KeyTells(table, row, o.rowKey, host)
    && DigestTells(o.table, row, o.sourceDigest, host)
  }

  /** ... and that row is one of a scanned table. */
  ghost predicate TellsOf(reference: string, o: Origin, catalog: Catalog, host: Host) {
    exists fields, i :: (o.table, fields) in REFERENCE_FIELDS && o.table in catalog
      && 0 <= i < |catalog[o.table].rows|
      && Tells(reference, o, catalog[o.table], catalog[o.table].rows[i], fields, host)
  }

  lemma {:induction false} TruthyExact(v: Value)
    ensures Truthy(v) <==> !Falsy(v)
  {
  }

  lemma {:induction false} RowKeyExact(table: Table, row: Row, host: Host)
    ensures KeyTells(table, row, RowKey(table, row, host), host)
  {
    var members, filled :=
      set c | c in table.primaryKey, set c | c in table.primaryKey && !Cell(row, c).Null?;
    var key := map c | c in table.primaryKey && !Cell(row, c).Null? :: host.text(Cell(row, c));
    assert key.Keys == filled;
    SizeOfMembers(table.primaryKey);
    assert members == filled + (members - filled);
    assert |members| == |filled| + |members - filled|;
    assert forall c :: Filled(row, c) <==> !Cell(row, c).Null?;
    if forall c :: c in table.primaryKey ==> Filled(row, c) {
      assert filled == members;
    } else {
      var c :| c in table.primaryKey && !Filled(row, c);
      assert c in members - filled;
    }
  }

  lemma {:induction false} SourceDigestExact(name: string, row: Row, host: Host)
    ensures DigestTells(name, row, SourceDigest(name, row, host), host)
  {
    assert forall column ::
      DigestColumn(name, column) <==> name in CONTENT_DIGEST_FIELDS && CONTENT_DIGEST_FIELDS[name] == column;
    if name in CONTENT_DIGEST_FIELDS {
      TruthyExact(Cell(row, CONTENT_DIGEST_FIELDS[name]));
    }
  }

  lemma {:induction false} FieldScanTells(name: string, table: Table, row: Row, fields: seq<string>, field: string,
                                          host: Host)
    requires field in fields
    ensures forall pair :: pair in FieldScan(name, table, row, field, host) ==>
      pair.1.table == name && Tells(pair.0, pair.1, table, row, fields, host)
  {
    RowKeyExact(table, row, host);
    SourceDigestExact(name, row, host);
    var pairs := IterReferences(Cell(row, field), "/" + field, host.physical);
    forall pair | pair in FieldScan(name, table, row, field, host)
      ensures pair.1.table == name && Tells(pair.0, pair.1, table, row, fields, host)
    {
      var i :| 0 <= i < |pairs| && pair == (pairs[i].0, OriginOf(name, table, row, field, pairs[i].1, host));
      assert pairs[i] in pairs;
    }
  }

  lemma {:induction false} TableScanTells(name: string, table: Table, fields: seq<string>, host: Host,
                                          pair: (string, Origin))
    requires pair in TableScan(name, table, fields, host)
    ensures pair.1.table == name
    ensures exists i :: 0 <= i < |table.rows| && Tells(pair.0, pair.1, table, table.rows[i], fields, host)
  {
    var rows :=
      seq(|table.rows|, i requires 0 <= i < |table.rows| => RowScan(name, table, table.rows[i], fields, host));
    FlattenMember(rows, pair);
    var i :| 0 <= i < |rows| && pair in rows[i];
    FlattenMember(FieldScans(name, table, table.rows[i], fields, host), pair);
    var k :| 0 <= k < |fields| && pair in FieldScan(name, table, table.rows[i], fields[k], host);
    FieldScanTells(name, table, table.rows[i], fields, fields[k], host);
  }

  /** Everything the scan finds, the row tells. */
  lemma {:induction false} ScanTells(catalog: Catalog, host: Host, pair: (string, Origin))
    requires pair in Scan(catalog, host)
    ensures TellsOf(pair.0, pair.1, catalog, host)
  {
    var parts := seq(|REFERENCE_FIELDS|, i requires 0 <= i < |REFERENCE_FIELDS| =>
      CatalogScan(catalog, REFERENCE_FIELDS[i], host));
    FlattenMember(parts, pair);
    var k :| 0 <= k < |parts| && pair in parts[k];
    var (name, fields) := REFERENCE_FIELDS[k];
    TableScanTells(name, catalog[name], fields, host, pair);
  }

  /** The row cites the reference at the locator of one of the scanned fields. */
  ghost predicate Cited(catalog: Catalog, host: Host, name: string, fields: seq<string>, i: int, field: string,
                        pair: (string, string))
  {
    && (name, fields) in REFERENCE_FIELDS && name in catalog && 0 <= i < |catalog[name].rows|
    && field in fields && field in catalog[name].columns && Get(catalog[name].rows[i], field).Some?
    && pair in IterReferences(Get(catalog[name].rows[i], field).value, "/" + field, host.physical)
  }

  /** One of the origins tells of that citation. */
  ghost predicate Told(origins: seq<Origin>, catalog: Catalog, host: Host, name: string, fields: seq<string>, i: int,
                       field: string, pair: (string, string))
    requires Cited(catalog, host, name, fields, i, field, pair)
  {
    exists o :: o in origins && o.table == name && o.field == field && o.locator == pair.1
      && Tells(pair.0, o, catalog[name], catalog[name].rows[i], fields, host)
  }

  /** Every origin in the index tells of a row, and of every citation an origin tells. */
  ghost predicate TellsAll(index: map<string, seq<Origin>>, catalog: Catalog, host: Host) {
    && (forall r, o :: r in index && o in index[r] ==> TellsOf(r, o, catalog, host))
    && forall name, fields, i, field, pair :: Cited(catalog, host, name, fields, i, field, pair) ==>
         pair.0 in index && Told(index[pair.0], catalog, host, name, fields, i, field, pair)
  }

  lemma {:induction false} OriginsOfMember(pairs: seq<(string, Origin)>, r: string, o: Origin)
    ensures o in OriginsOf(pairs, r) <==> (r, o) in pairs
  {
    if pairs != [] {
      OriginsOfMember(pairs[..|pairs| - 1], r, o);
      assert pairs == pairs[..|pairs| - 1] + [pairs[|pairs| - 1]];
    }
  }

  /** The scan finds every citation. */
  lemma {:induction false} ScanFinds(catalog: Catalog, host: Host, name: string, fields: seq<string>, i: nat,
                                     field: string, pair: (string, string))
    returns (o: Origin)
    requires Cited(catalog, host, name, fields, i, field, pair)
    ensures (pair.0, o) in Scan(catalog, host)
    ensures o.table == name && o.field == field && o.locator == pair.1
    ensures Tells(pair.0, o, catalog[name], catalog[name].rows[i], fields, host)
  {
    var table := catalog[name];
    var row := table.rows[i];
    o := OriginOf(name, table, row, field, pair.1, host);
    var k :| 0 <= k < |fields| && fields[k] == field;
    var pairs := IterReferences(Cell(row, field), "/" + field, host.physical);
    var j :| 0 <= j < |pairs| && pairs[j] == pair;
    assert FieldScan(name, table, row, field, host)[j] == (pair.0, o);
    FieldScanTells(name, table, row, fields, field, host);
    FlattenMember(FieldScans(name, table, row, fields, host), (pair.0, o));
    assert FieldScans(name, table, row, fields, host)[k] == FieldScan(name, table, row, field, host);
    InScan(catalog, host, name, fields, i, (pair.0, o));
  }

  lemma {:induction false} InScan(catalog: Catalog, host: Host, name: string, fields: seq<string>, i: nat,
                                  found: (string, Origin))
    requires (name, fields) in REFERENCE_FIELDS && name in catalog && i < |catalog[name].rows|
    requires found in RowScan(name, catalog[name], catalog[name].rows[i], fields, host)
    ensures found in Scan(catalog, host)
  {
    var table := catalog[name];
    var rows :=
      seq(|table.rows|, i requires 0 <= i < |table.rows| => RowScan(name, table, table.rows[i], fields, host));
    assert rows[i] == RowScan(name, table, table.rows[i], fields, host);
    FlattenMember(rows, found);
    var parts := seq(|REFERENCE_FIELDS|, i requires 0 <= i < |REFERENCE_FIELDS| =>
      CatalogScan(catalog, REFERENCE_FIELDS[i], host));
    var k :| 0 <= k < |REFERENCE_FIELDS| && REFERENCE_FIELDS[k] == (name, fields);
    assert parts[k] == TableScan(name, table, fields, host);
    FlattenMember(parts, found);
  }

  lemma {:induction false} IndexTells(index: map<string, seq<Origin>>, catalog: Catalog, host: Host)
    requires index.Keys == References(Scan(catalog, host))
    requires forall r :: r in index ==> multiset(index[r]) == multiset(OriginsOf(Scan(catalog, host), r))
    ensures TellsAll(index, catalog, host)
  {
    var scan := Scan(catalog, host);
    forall r, o | r in index ensures o in index[r] <==> (r, o) in scan {
      OriginsOfMember(scan, r, o);
      assert o in index[r] <==> o in multiset(index[r]);
      assert o in OriginsOf(scan, r) <==> o in multiset(OriginsOf(scan, r));
    }
    forall r, o | r in index && o in index[r] ensures TellsOf(r, o, catalog, host) {
      ScanTells(catalog, host, (r, o));
    }
    forall name, fields, i, field, pair | Cited(catalog, host, name, fields, i, field, pair)
      ensures pair.0 in index && Told(index[pair.0], catalog, host, name, fields, i, field, pair)
    {
      var o := ScanFinds(catalog, host, name, fields, i, field, pair);
      var j :| 0 <= j < |scan| && scan[j] == (pair.0, o);
      assert scan[j].0 in References(scan);
      assert o in index[pair.0];
    }
  }

  // ---------------------------------------------------------------- locators of a row

  function Located(pairs: seq<(string, Origin)>): seq<(string, string)> {
    seq(|pairs|, i requires 0 <= i < |pairs| => (pairs[i].0, pairs[i].1.locator))
  }

  /** A column name that needs no escape in a pointer. */
  predicate PlainName(name: string) {
    '~' !in name && '/' !in name
  }

  ghost predicate DistinctPlain(fields: seq<string>) {
    && (forall f :: f in fields ==> PlainName(f))
    && forall i, j :: 0 <= i < j < |fields| ==> fields[i] != fields[j]
  }

  /** The scanned columns are such. */
  lemma {:induction false} ReferenceFieldsPlain(i: nat)
    requires i < |REFERENCE_FIELDS|
    ensures DistinctPlain(REFERENCE_FIELDS[i].1)
  {
    if i == 5 {
      BuildJobFieldsPlain();
    } else if i == 4 {
      ReadLaterFieldsPlain();
    } else if i == 2 {
      assert REFERENCE_FIELDS[2].1 == ["storage_path", "profile_path"];
    } else if i == 0 {
      assert REFERENCE_FIELDS[0].1 == ["source_path", "storage_path"];
    }
  }

  lemma {:induction false} OneMorePlain(fields: seq<string>, field: string)
    requires DistinctPlain(fields) && PlainName(field) && field !in fields
    ensures DistinctPlain(fields + [field])
  {
  }

  lemma {:induction false} ReadLaterFieldsPlain()
    ensures DistinctPlain(["storage_path", "raw_snapshot_path", "source_path"])
  {
    OneMorePlain(["storage_path"], "raw_snapshot_path");
    OneMorePlain(["storage_path", "raw_snapshot_path"], "source_path");
  }

  lemma {:induction false} BuildJobFieldsPlain()
    ensures DistinctPlain(["staging_path", "published_reference_path", "requested_scope", "input_snapshot",
                           "result_summary"])
  {
    FirstJobFieldsPlain();
    PublishedPathPlain();
    LastJobFieldsPlain();
    FivePlain("staging_path", "published_reference_path", "requested_scope", "input_snapshot", "result_summary");
  }

  lemma {:induction false} FivePlain(a: string, b: string, c: string, d: string, e: string)
    requires PlainName(a) && PlainName(b) && PlainName(c) && PlainName(d) && PlainName(e)
    requires |a| < |d| == |e| < |c| < |b| && d != e
    ensures DistinctPlain([a, b, c, d, e])
  {
    OneMorePlain([a], b);
    OneMorePlain([a, b], c);
    OneMorePlain([a, b, c], d);
    OneMorePlain([a, b, c, d], e);
  }

  lemma {:induction false} FirstJobFieldsPlain()
    ensures PlainName("staging_path") && PlainName("requested_scope")
  {
  }

  lemma {:induction false} PublishedPathPlain()
    ensures PlainName("published_reference_path")
  {
  }

  lemma {:induction false} LastJobFieldsPlain()
    ensures PlainName("input_snapshot") && PlainName("result_summary") && "input_snapshot" != "result_summary"
  {
    assert "input_snapshot"[0] != "result_summary"[0];
  }

  lemma {:induction false} PlainUnescaped(name: string)
    requires PlainName(name)
    ensures Escaped(name) == name
  {
    EscapedIsOnePass(name);
    if name != "" {
      assert forall c :: c in name[1..] ==> c in name;
      PlainUnescaped(name[1..]);
      EscapedIsOnePass(name[1..]);
    }
  }

  /** A locator read on the whole row leads to the string it was emitted for.  For every text, the
      references a row emits with it are those of the string it leads to, if it starts with one of the
      scanned fields, and none otherwise. */
  lemma {:induction false} RowLocatorsAreExact(name: string, table: Table, row: Row, fields: seq<string>, host: Host,
                                               locator: string)
    requires UniqueNames(Map(false, row)) && DistinctPlain(fields)
    ensures CitedAt(Located(RowScan(name, table, row, fields, host)), locator) ==
      if StartsWithField(fields, table.columns, Tokens(locator))
      then LeafReferences(EvaluatePointer(Map(false, row), locator), host.physical) else []
  {
    var scans := FieldScans(name, table, row, fields, host);
    var parts := LocatedIn(scans);
    LocatedFlatten(scans);
    CitedAtFlatten(parts, locator);
    var cited := CitedIn(parts, locator);
    var leaf := LeafReferences(EvaluatePointer(Map(false, row), locator), host.physical);
    var k := FieldIndex(fields, table.columns, locator);
    forall i | 0 <= i < |fields| ensures cited[i] == if i == k then leaf else [] {
      SelectedField(name, table, row, fields, host, locator, i);
    }
    FlattenAt(cited, k, leaf);
  }

  predicate StartsWithField(fields: seq<string>, columns: set<string>, tokens: Option<seq<string>>) {
    tokens.Some? && tokens.value != [] && tokens.value[0] in fields && tokens.value[0] in columns
  }

  /** The scanned field a locator starts with, or -1. */
  function FieldIndex(fields: seq<string>, columns: set<string>, locator: string): (k: int)
    ensures -1 <= k < |fields|
    ensures k >= 0 <==> StartsWithField(fields, columns, Tokens(locator))
    ensures k >= 0 ==> fields[k] == Tokens(locator).value[0]
  {
    if fields == [] then -1
    else
      var n := |fields| - 1;
      assert fields == fields[..n] + [fields[n]];
      if fields[n] in columns && Tokens(locator).Some? && Tokens(locator).value != []
        && Tokens(locator).value[0] == fields[n]
      then n else FieldIndex(fields[..n], columns, locator)
  }

  lemma {:induction false} SelectedField(name: string, table: Table, row: Row, fields: seq<string>, host: Host,
                                         locator: string, i: nat)
    requires UniqueNames(Map(false, row)) && DistinctPlain(fields) && i < |fields|
    ensures CitedAt(Located(FieldScan(name, table, row, fields[i], host)), locator) ==
      if i == FieldIndex(fields, table.columns, locator)
      then LeafReferences(EvaluatePointer(Map(false, row), locator), host.physical) else []
  {
    assert fields[i] in fields;
    FieldLocatorsAreExact(name, table, row, fields[i], host, locator);
    var k := FieldIndex(fields, table.columns, locator);
    assert Ahead(locator, [fields[i]]).Some? <==>
      Tokens(locator).Some? && Tokens(locator).value != [] && Tokens(locator).value[0] == fields[i];
    assert k >= 0 && k != i ==> fields[k] != fields[i];
  }

  function LocatedIn(parts: seq<seq<(string, Origin)>>): seq<seq<(string, string)>> {
    seq(|parts|, i requires 0 <= i < |parts| => Located(parts[i]))
  }

  lemma {:induction false} LocatedFlatten(parts: seq<seq<(string, Origin)>>)
    ensures Located(Flatten(parts)) == Flatten(LocatedIn(parts))
  {
    if parts != [] {
      var n := |parts| - 1;
      LocatedFlatten(parts[..n]);
      assert LocatedIn(parts)[..n] == LocatedIn(parts[..n]);
    }
  }

  lemma {:induction false} FieldLocatorsAreExact(name: string, table: Table, row: Row, field: string, host: Host,
                                                 locator: string)
    requires UniqueNames(Map(false, row)) && PlainName(field)
    ensures CitedAt(Located(FieldScan(name, table, row, field, host)), locator) ==
      if field in table.columns && Ahead(locator, [field]).Some?
      then LeafReferences(EvaluatePointer(Map(false, row), locator), host.physical) else []
  {
    if field in table.columns {
      var v := Cell(row, field);
      assert Located(FieldScan(name, table, row, field, host)) == IterReferences(v, "/" + field, host.physical);
      assert Pointer([field]) == "/" + field;
      GetIsMember(row, field);
      LocatorsAreExact(v, [field], host.physical, locator);
      PlainUnescaped(field);
      EscapeInverse(field, field);
      if Ahead(locator, [field]).Some? {
        var tokens := Tokens(locator).value;
        assert tokens[0] == field && tokens[1..] == Ahead(locator, [field]).value;
        if Get(row, field).None? {
          assert LeafReferences(Evaluate(Null, tokens[1..]), host.physical) == [];
        }
      }
    }
  }
}
