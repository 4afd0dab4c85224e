/** Row deltas between two snapshots of a database. */
module RowDeltas {
  import opened Wrappers
  import opened Ordering
  import opened Sums

  /** One table of a snapshot; a missing row count reads as 0. */
  datatype TableCount = TableCount(table: string, rows: Option<int>)

  type Snapshot = seq<TableCount>

  type Counts = map<string, int>

  datatype RowDelta = RowDelta(table: string, beforeRows: int, afterRows: int, deltaRows: int)

  function OrZero(rows: Option<int>): int {
    match rows
    case Some(n) => n
    case None => 0
  }

  /** `{str(item["table"]): item for item in snapshot}`, read through `.get("rows", 0)`. */
  function ByTable(snapshot: Snapshot): Counts {
    if snapshot == [] then map[]
    else
      var last := snapshot[|snapshot| - 1];
      ByTable(snapshot[..|snapshot| - 1])[last.table := OrZero(last.rows)]
  }

  function RowsOf(counts: Counts, table: string): int {
    if table in counts then counts[table] else 0
  }

  function DeltaAt(table: string, before: Counts, after: Counts): RowDelta {
    RowDelta(table, RowsOf(before, table), RowsOf(after, table), RowsOf(after, table) - RowsOf(before, table))
  }

  function DeltasAmong(tables: seq<string>, before: Counts, after: Counts): seq<RowDelta> {
    if tables == [] then []
    else
      var table := tables[|tables| - 1];
      DeltasAmong(tables[..|tables| - 1], before, after) +
      (if RowsOf(after, table) != RowsOf(before, table) then [DeltaAt(table, before, after)] else [])
  }

  /** `_row_deltas` */
  function DeltasBetween(before: Snapshot, after: Snapshot): seq<RowDelta> {
    var b, a := ByTable(before), ByTable(after);
    DeltasAmong(SortedSet(b.Keys + a.Keys), b, a)
  }

  // ---------------------------------------------------------------- exactly the changed tables, in order

  ghost predicate InOrder(deltas: seq<RowDelta>) {
    forall i, j :: 0 <= i < j < |deltas| ==> StrLt(deltas[i].table, deltas[j].table)
  }

  ghost predicate Changed(table: string, before: Counts, after: Counts) {
    RowsOf(after, table) != RowsOf(before, table)
  }

  lemma {:induction false} DeltasAmongExact(tables: seq<string>, before: Counts, after: Counts)
    requires StrictlySorted(tables)
    ensures InOrder(DeltasAmong(tables, before, after))
    ensures forall d :: d in DeltasAmong(tables, before, after) <==>
      (d.table in tables && Changed(d.table, before, after) && d == DeltaAt(d.table, before, after))
  {
    if tables != [] {
      var init, last := tables[..|tables| - 1], tables[|tables| - 1];
      DeltasAmongExact(init, before, after);
      var early, all := DeltasAmong(init, before, after), DeltasAmong(tables, before, after);
      assert tables == init + [last];
      forall i | 0 <= i < |early| ensures StrLt(early[i].table, last) {
        assert early[i] in early;
        var k :| 0 <= k < |init| && init[k] == early[i].table;
        assert StrLt(tables[k], tables[|init|]);
      }
      assert forall d ::
        d in all <==> d in early || (Changed(last, before, after) && d == DeltaAt(last, before, after));
    }
  }

  /** The deltas are sorted by table and list exactly the tables whose row count changed. */
  lemma {:induction false} DeltasExact(before: Snapshot, after: Snapshot)
    ensures InOrder(DeltasBetween(before, after))
    ensures forall d :: d in DeltasBetween(before, after) <==>
      (Changed(d.table, ByTable(before), ByTable(after)) && d == DeltaAt(d.table, ByTable(before), ByTable(after)))
  {
    var b, a := ByTable(before), ByTable(after);
    var tables := SortedSet(b.Keys + a.Keys);
    DeltasAmongExact(tables, b, a);
    assert forall t :: Changed(t, b, a) ==> t in tables;
  }

  /** What a snapshot says of a table: the rows of its last item for it, and 0 without any. */
  ghost predicate Lists(snapshot: Snapshot, table: string, rows: int) {
    if exists i :: 0 <= i < |snapshot| && snapshot[i].table == table then
      exists i ::
        && 0 <= i < |snapshot| && snapshot[i].table == table
        && (forall j :: i < j < |snapshot| ==> snapshot[j].table != table)
        && (snapshot[i].rows == Some(rows) || (snapshot[i].rows == None && rows == 0))
    else rows == 0
  }

  lemma {:induction false} ByTableExact(snapshot: Snapshot, table: string)
    ensures table in ByTable(snapshot) <==> exists i :: 0 <= i < |snapshot| && snapshot[i].table == table
    ensures Lists(snapshot, table, RowsOf(ByTable(snapshot), table))
  {
    if snapshot != [] {
      var init, last := snapshot[..|snapshot| - 1], snapshot[|snapshot| - 1];
      ByTableExact(init, table);
      if last.table == table {
        assert snapshot[|init|].table == table;
      } else if table in ByTable(init) {
        var i :| 0 <= i < |init| && init[i].table == table
          && (forall j :: i < j < |init| ==> init[j].table != table)
          && (init[i].rows == Some(RowsOf(ByTable(init), table))
              || (init[i].rows == None && RowsOf(ByTable(init), table) == 0));
        assert snapshot[i] == init[i];
        forall j | i < j < |snapshot| ensures snapshot[j].table != table {
          if j < |init| { assert init[j] == snapshot[j]; }
        }
      } else {
        forall i | 0 <= i < |snapshot| ensures snapshot[i].table != table {
          if i < |init| { assert init[i] == snapshot[i]; }
        }
      }
    }
  }

  lemma {:induction false} ListsOnce(snapshot: Snapshot, table: string, m: int, n: int)
    requires Lists(snapshot, table, m) && Lists(snapshot, table, n)
    ensures m == n
  {
  }

  /** A delta is listed exactly when it shows what the two snapshots say of its table, and that differs. */
  lemma {:induction false} DeltasListed(before: Snapshot, after: Snapshot, d: RowDelta)
    ensures d in DeltasBetween(before, after) <==>
      && Lists(before, d.table, d.beforeRows) && Lists(after, d.table, d.afterRows)
      && d.deltaRows == d.afterRows - d.beforeRows && d.deltaRows != 0
  {
    DeltasExact(before, after);
    CountsExact(before, d.table, d.beforeRows);
    CountsExact(after, d.table, d.afterRows);
  }

  lemma {:induction false} CountsExact(snapshot: Snapshot, table: string, rows: int)
    ensures Lists(snapshot, table, rows) <==> rows == RowsOf(ByTable(snapshot), table)
  {
    ByTableExact(snapshot, table);
    if Lists(snapshot, table, rows) {
      ListsOnce(snapshot, table, rows, RowsOf(ByTable(snapshot), table));
    }
  }

  /** The deltas are the only list in that order of exactly these deltas. */
  lemma {:induction false} DeltasUnique(before: Snapshot, after: Snapshot, deltas: seq<RowDelta>)
    requires InOrder(deltas)
    requires forall d :: d in deltas <==>
      (Changed(d.table, ByTable(before), ByTable(after)) && d == DeltaAt(d.table, ByTable(before), ByTable(after)))
    ensures deltas == DeltasBetween(before, after)
  {
    var all := DeltasBetween(before, after);
    DeltasExact(before, after);
    DeltaTables(ByTable(before), ByTable(after), deltas);
    DeltaTables(ByTable(before), ByTable(after), all);
    StrictlySortedUnique(TablesOf(deltas), TablesOf(all));
    assert |deltas| == |TablesOf(deltas)| == |all|;
    forall i | 0 <= i < |deltas| ensures deltas[i] == all[i] {
      assert deltas[i] in deltas && all[i] in all;
      assert TablesOf(deltas)[i] == TablesOf(all)[i];
    }
  }

  function TablesOf(deltas: seq<RowDelta>): seq<string> {
    seq(|deltas|, i requires 0 <= i < |deltas| => deltas[i].table)
  }

  lemma {:induction false} DeltaTables(before: Counts, after: Counts, deltas: seq<RowDelta>)
    requires InOrder(deltas)
    requires forall d :: d in deltas <==> (Changed(d.table, before, after) && d == DeltaAt(d.table, before, after))
    ensures StrictlySorted(TablesOf(deltas))
    ensures forall table :: table in TablesOf(deltas) <==> Changed(table, before, after)
  {
    forall table ensures table in TablesOf(deltas) <==> Changed(table, before, after) {
      if Changed(table, before, after) {
        assert DeltaAt(table, before, after) in deltas;
        var i :| 0 <= i < |deltas| && deltas[i] == DeltaAt(table, before, after);
        assert TablesOf(deltas)[i] == table;
      }
      if i :| 0 <= i < |deltas| && TablesOf(deltas)[i] == table {
        assert deltas[i] in deltas;
      }
    }
  }

  // ---------------------------------------------------------------- conservation

  /** `sum(item["delta_rows"] for item in deltas)` */
  function SumDeltas(deltas: seq<RowDelta>): int {
    if deltas == [] then 0 else SumDeltas(deltas[..|deltas| - 1]) + deltas[|deltas| - 1].deltaRows
  }

  ghost function Total(counts: Counts): int {
    SumOver(counts.Keys, t => RowsOf(counts, t))
  }

  /** The rows of all items of a snapshot. */
  function TotalListed(snapshot: Snapshot): int {
    if snapshot == [] then 0 else TotalListed(snapshot[..|snapshot| - 1]) + OrZero(snapshot[|snapshot| - 1].rows)
  }

  function AsSet(xs: seq<string>): set<string> {
    set x | x in xs
  }

  lemma {:induction false} AsSetInit(tables: seq<string>)
    requires StrictlySorted(tables) && tables != []
    ensures var last := tables[|tables| - 1];
      last in AsSet(tables) && AsSet(tables) - {last} == AsSet(tables[..|tables| - 1])
  {
    var init, last := tables[..|tables| - 1], tables[|tables| - 1];
    assert tables == init + [last];
    forall k | 0 <= k < |init| ensures init[k] != last { assert StrLt(tables[k], tables[|init|]); }
  }

  lemma {:induction false} SumStep(tables: seq<string>, before: Counts, after: Counts)
    requires tables != []
    ensures SumDeltas(DeltasAmong(tables, before, after))
         == SumDeltas(DeltasAmong(tables[..|tables| - 1], before, after)) + Change(before, after)(tables[|tables| - 1])
  {
    var init, last := tables[..|tables| - 1], tables[|tables| - 1];
    var shown, early := DeltasAmong(tables, before, after), DeltasAmong(init, before, after);
    if Changed(last, before, after) {
      assert shown == early + [DeltaAt(last, before, after)];
      assert shown[..|shown| - 1] == early;
    } else {
      assert shown == early;
    }
  }

  function Change(before: Counts, after: Counts): string -> int {
    (t: string) => RowsOf(after, t) - RowsOf(before, t)
  }

  lemma {:induction false} SumAmong(tables: seq<string>, before: Counts, after: Counts)
    requires StrictlySorted(tables)
    ensures SumDeltas(DeltasAmong(tables, before, after)) == SumOver(AsSet(tables), Change(before, after))
  {
    if tables != [] {
      SumAmong(tables[..|tables| - 1], before, after);
      AsSetInit(tables);
      SumRemove(AsSet(tables), Change(before, after), tables[|tables| - 1]);
      SumStep(tables, before, after);
    }
  }

  /** The deltas add up to the change of the total. */
  lemma {:induction false} DeltasConserve(before: Snapshot, after: Snapshot)
    ensures SumDeltas(DeltasBetween(before, after)) == Total(ByTable(after)) - Total(ByTable(before))
  {
    var b, a := ByTable(before), ByTable(after);
    var keys := b.Keys + a.Keys;
    var tables := SortedSet(keys);
    SumAmong(tables, b, a);
    assert AsSet(tables) == keys;
    var f, g := t => RowsOf(a, t), t => RowsOf(b, t);
    SumDifference(keys, f, g, Change(b, a));
    SumSubset(a.Keys, keys, f);
    SumSubset(b.Keys, keys, g);
  }

  ghost predicate UniqueTables(snapshot: Snapshot) {
    forall i, j :: 0 <= i < j < |snapshot| ==> snapshot[i].table != snapshot[j].table
  }

  lemma {:induction false} IndexedIsListed(snapshot: Snapshot, table: string)
    ensures table in ByTable(snapshot) ==> exists i :: 0 <= i < |snapshot| && snapshot[i].table == table
  {
    if snapshot != [] {
      var init, last := snapshot[..|snapshot| - 1], snapshot[|snapshot| - 1];
      IndexedIsListed(init, table);
      if table in ByTable(init) {
        var i :| 0 <= i < |init| && init[i].table == table;
        assert snapshot[i].table == table;
      }
    }
  }

  /** A snapshot with unique names, as a database gives it, is summed table by table. */
  lemma {:induction false} TotalOfUnique(snapshot: Snapshot)
    requires UniqueTables(snapshot)
    ensures Total(ByTable(snapshot)) == TotalListed(snapshot)
  {
    if snapshot != [] {
      var init, last := snapshot[..|snapshot| - 1], snapshot[|snapshot| - 1];
      TotalOfUnique(init);
      IndexedIsListed(init, last.table);
      assert snapshot == init + [last];
      var early, all := ByTable(init), ByTable(snapshot);
      forall i | 0 <= i < |init|
        ensures init[i].table != last.table
      {
        assert snapshot[i].table != snapshot[|init|].table;
      }
      assert last.table !in early;
      assert all.Keys - {last.table} == early.Keys;
      SumRemove(all.Keys, t => RowsOf(all, t), last.table);
      SumSame(early.Keys, t => RowsOf(early, t), t => RowsOf(all, t));
    }
  }

  /** With unique names, the deltas add up to the rows listed after minus the rows listed before. */
  lemma {:induction false} DeltasConserveRows(before: Snapshot, after: Snapshot)
    requires UniqueTables(before) && UniqueTables(after)
    ensures SumDeltas(DeltasBetween(before, after)) == TotalListed(after) - TotalListed(before)
  {
    DeltasConserve(before, after);
    TotalOfUnique(before);
    TotalOfUnique(after);
  }

  // ---------------------------------------------------------------- successive snapshots

  /** What a list of deltas says about a table: the change it lists, or none. */
  function Told(deltas: seq<RowDelta>, table: string): int {
    if deltas == [] then 0
    else
      var last := deltas[|deltas| - 1];
      (if last.table == table then last.deltaRows else 0) + Told(deltas[..|deltas| - 1], table)
  }

  lemma {:induction false} ToldAmong(tables: seq<string>, before: Counts, after: Counts, table: string)
    requires StrictlySorted(tables)
    ensures Told(DeltasAmong(tables, before, after), table) ==
      if table in tables then RowsOf(after, table) - RowsOf(before, table) else 0
  {
    if tables != [] {
      var init, last := tables[..|tables| - 1], tables[|tables| - 1];
      ToldAmong(init, before, after, table);
      assert tables == init + [last];
      forall k | 0 <= k < |init| ensures init[k] != last { assert StrLt(tables[k], tables[|init|]); }
      if Changed(last, before, after) {
        var shown := DeltasAmong(tables, before, after);
        assert shown[..|shown| - 1] == DeltasAmong(init, before, after);
      } else {
        assert DeltasAmong(tables, before, after) == DeltasAmong(init, before, after);
      }
    }
  }

  lemma {:induction false} ToldExact(before: Snapshot, after: Snapshot, table: string)
    ensures Told(DeltasBetween(before, after), table) == RowsOf(ByTable(after), table) - RowsOf(ByTable(before), table)
  {
    var b, a := ByTable(before), ByTable(after);
    ToldAmong(SortedSet(b.Keys + a.Keys), b, a, table);
  }

  /** Over successive snapshots the deltas add, table by table and in total. */
  lemma {:induction false} DeltasCompose(first: Snapshot, second: Snapshot, third: Snapshot, table: string)
    ensures Told(DeltasBetween(first, third), table)
         == Told(DeltasBetween(first, second), table) + Told(DeltasBetween(second, third), table)
    ensures SumDeltas(DeltasBetween(first, third))
         == SumDeltas(DeltasBetween(first, second)) + SumDeltas(DeltasBetween(second, third))
  {
    ToldExact(first, third, table);
    ToldExact(first, second, table);
    ToldExact(second, third, table);
    DeltasConserve(first, third);
    DeltasConserve(first, second);
    DeltasConserve(second, third);
  }
}
