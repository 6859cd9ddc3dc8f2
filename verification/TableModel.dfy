/** Tables as values: what each table operation does to the rows and columns, the events it
    raises, and the replay of those events (libexio/Table.cc, libexio/exio/TableEvents.h). */
module TableModel {
  import opened KeyOrder

  const ROW_KEY := "RowKey"
  const ROW_LAST := "RowLastUpdated"

  type Fields = map<string, string>

  /** The text of the i-th reading of the wall clock. */
  type Clock = nat -> string

  datatype Row = Row(key: string, fields: Fields)

  /** `ticks` counts clock readings. */
  datatype Table = Table(rows: seq<Row>, columns: seq<string>, ticks: nat)

  const EmptyTable := Table([], [], 0)

  datatype Event =
    | NewRow(key: string)
    | NewColumn(column: string)
    | RowMultiUpdate(key: string, fields: Fields)
    | RowRemoved(key: string)
    | TableCleared

  datatype Step = Step(table: Table, events: seq<Event>)

  predicate Reserved(n: string) {
    n == ROW_KEY || n == ROW_LAST
  }

  // ----- One row -----

  function FreshRow(key: string): Row {
    Row(key, map[ROW_KEY := key])
  }

  /** The updates that change something: not reserved, and new or different. */
  function Changes(r: Row, fields: Fields): Fields {
    map n | n in fields && !Reserved(n) && (n !in r.fields || r.fields[n] != fields[n]) :: fields[n]
  }

  /** The fields an update event carries: the changes and the time. */
  function Stamped(r: Row, fields: Fields, now: string): Fields {
    Changes(r, fields)[ROW_LAST := now]
  }

  function UpdatedRow(r: Row, fields: Fields, now: string): Row {
    if Changes(r, fields) == map[] then r else Row(r.key, r.fields + Stamped(r, fields, now))
  }

  function RowEvents(r: Row, fields: Fields, now: string): seq<Event> {
    if Changes(r, fields) == map[] then [] else [RowMultiUpdate(r.key, Stamped(r, fields, now))]
  }

  // ----- All rows -----

  /** The first position of a key, or the length. */
  function KeyPos(rows: seq<Row>, key: string): (i: nat)
    ensures i <= |rows|
    ensures i < |rows| ==> rows[i].key == key
    ensures forall k :: 0 <= k < i ==> rows[k].key != key
  {
    if rows == [] || rows[0].key == key then 0 else 1 + KeyPos(rows[1..], key)
  }

  predicate HasRow(rows: seq<Row>, key: string) {
    KeyPos(rows, key) < |rows|
  }

  /** Every row updated, each with its own reading of the clock. */
  function UpdateAll(rows: seq<Row>, fields: Fields, clock: Clock, t: nat): seq<Row> {
    seq(|rows|, i requires 0 <= i < |rows| => UpdatedRow(rows[i], fields, clock(t + i)))
  }

  lemma UpdateAllKeys(rows: seq<Row>, fields: Fields, clock: Clock, t: nat)
    ensures var r := UpdateAll(rows, fields, clock, t); forall i :: 0 <= i < |rows| ==> r[i].key == rows[i].key
  {
    var r := UpdateAll(rows, fields, clock, t);
    forall i | 0 <= i < |rows| ensures r[i].key == rows[i].key {
      assert r[i] == UpdatedRow(rows[i], fields, clock(t + i));
    }
  }

  function UpdateAllEvents(rows: seq<Row>, fields: Fields, clock: Clock, t: nat): seq<Event> {
    if rows == [] then []
    else UpdateAllEvents(rows[..|rows| - 1], fields, clock, t)
         + RowEvents(rows[|rows| - 1], fields, clock(t + |rows| - 1))
  }

  // ----- The operations -----

  function AddColumn(t: Table, column: string, clock: Clock): Step {
    if column in t.columns then Step(t, [])
    else
      var blank := map[column := ""];
      Step(Table(UpdateAll(t.rows, blank, clock, t.ticks), t.columns + [column], t.ticks + |t.rows|),
           [NewColumn(column)] + UpdateAllEvents(t.rows, blank, clock, t.ticks))
  }

  function AddColumns(t: Table, columns: seq<string>, clock: Clock): Step {
    if columns == [] then Step(t, [])
    else
      var s := AddColumns(t, columns[..|columns| - 1], clock);
      var l := AddColumn(s.table, columns[|columns| - 1], clock);
      Step(l.table, s.events + l.events)
  }

  function AddRow(t: Table, key: string): Step {
    if HasRow(t.rows, key) then Step(t, []) else Step(t.(rows := t.rows + [FreshRow(key)]), [NewRow(key)])
  }

  function SetFields(t: Table, key: string, fields: Fields, clock: Clock): Step {
    var i := KeyPos(t.rows, key);
    if i < |t.rows| then
      Step(t.(rows := t.rows[i := UpdatedRow(t.rows[i], fields, clock(t.ticks))], ticks := t.ticks + 1),
           RowEvents(t.rows[i], fields, clock(t.ticks)))
    else Step(t, [])
  }

  /** The names an update may touch, in the order of the walk. */
  function Ordinary(names: seq<string>): seq<string> {
    if names == [] then []
    else Ordinary(names[..|names| - 1]) + if Reserved(names[|names| - 1]) then [] else [names[|names| - 1]]
  }

  function UpdateRow(t: Table, key: string, fields: Fields, clock: Clock): Step {
    var a := AddRow(t, key);
    var b := AddColumns(a.table, Ordinary(Listing(fields.Keys)), clock);
    var c := SetFields(b.table, key, fields, clock);
    Step(c.table, a.events + b.events + c.events)
  }

  function DeleteRow(t: Table, key: string): Step {
    var i := KeyPos(t.rows, key);
    if i < |t.rows| then Step(t.(rows := t.rows[..i] + t.rows[i + 1..]), [RowRemoved(key)]) else Step(t, [])
  }

  function ClearTable(t: Table): Step {
    Step(t.(rows := []), [TableCleared])
  }

  datatype Op =
    | Update(key: string, fields: Fields)
    | Columns(columns: seq<string>)
    | Delete(key: string)
    | Clear

  function Do(t: Table, op: Op, clock: Clock): Step {
    match op
    case Update(key, fields) => UpdateRow(t, key, fields, clock)
    case Columns(columns) => AddColumns(t, columns, clock)
    case Delete(key) => DeleteRow(t, key)
    case Clear => ClearTable(t)
  }

  function DoAll(t: Table, ops: seq<Op>, clock: Clock): Step {
    if ops == [] then Step(t, [])
    else
      var s := DoAll(t, ops[..|ops| - 1], clock);
      var l := Do(s.table, ops[|ops| - 1], clock);
      Step(l.table, s.events + l.events)
  }

  // ----- What every reachable table satisfies -----

  predicate DistinctKeys(rows: seq<Row>) {
    forall i, j :: 0 <= i < j < |rows| ==> rows[i].key != rows[j].key
  }

  /** A row knows its own key, and a field other than the reserved two has a column. */
  predicate GoodRow(r: Row, columns: seq<string>) {
    && ROW_KEY in r.fields && r.fields[ROW_KEY] == r.key
    && forall n :: n in r.fields && !Reserved(n) ==> n in columns
  }

  predicate GoodRows(rows: seq<Row>, columns: seq<string>) {
    forall i :: 0 <= i < |rows| ==> GoodRow(rows[i], columns)
  }

  predicate Good(t: Table) {
    DistinctKeys(t.rows) && Distinct(t.columns) && GoodRows(t.rows, t.columns)
  }

  lemma UpdatedRowGood(r: Row, fields: Fields, now: string, columns: seq<string>)
    requires GoodRow(r, columns)
    requires forall n :: n in fields && !Reserved(n) ==> n in columns
    ensures GoodRow(UpdatedRow(r, fields, now), columns)
    ensures UpdatedRow(r, fields, now).key == r.key
  {
  }

  lemma AddColumnGood(t: Table, column: string, clock: Clock)
    requires Good(t)
    ensures var t' := AddColumn(t, column, clock).table;
      && Good(t') && |t'.rows| == |t.rows|
      && (forall i :: 0 <= i < |t.rows| ==> t'.rows[i].key == t.rows[i].key)
  {
    if column !in t.columns {
      var t' := AddColumn(t, column, clock).table;
      UpdateAllKeys(t.rows, map[column := ""], clock, t.ticks);
      forall i | 0 <= i < |t.rows| ensures GoodRow(t'.rows[i], t'.columns) {
        assert GoodRow(t.rows[i], t'.columns) by { assert GoodRow(t.rows[i], t.columns); }
        UpdatedRowGood(t.rows[i], map[column := ""], clock(t.ticks + i), t'.columns);
      }
    }
  }

  lemma {:induction false} AddColumnsGood(t: Table, columns: seq<string>, clock: Clock)
    requires Good(t)
    ensures var t' := AddColumns(t, columns, clock).table;
      && Good(t')
      && (forall c :: c in columns || c in t.columns ==> c in t'.columns)
      && |t'.rows| == |t.rows|
      && (forall i :: 0 <= i < |t.rows| ==> t'.rows[i].key == t.rows[i].key)
  {
    if columns != [] {
      AddColumnsGood(t, columns[..|columns| - 1], clock);
      AddColumnGood(AddColumns(t, columns[..|columns| - 1], clock).table, columns[|columns| - 1], clock);
    }
  }

  lemma {:induction false} OrdinaryNames(names: seq<string>)
    ensures forall n :: n in Ordinary(names) <==> n in names && !Reserved(n)
  {
    if names != [] {
      OrdinaryNames(names[..|names| - 1]);
      assert names == names[..|names| - 1] + [names[|names| - 1]];
    }
  }

  lemma SetFieldsGood(t: Table, key: string, fields: Fields, clock: Clock)
    requires Good(t)
    requires forall n :: n in fields && !Reserved(n) ==> n in t.columns
    ensures Good(SetFields(t, key, fields, clock).table)
  {
    var i := KeyPos(t.rows, key);
    if i < |t.rows| {
      UpdatedRowGood(t.rows[i], fields, clock(t.ticks), t.columns);
    }
  }

  /** Having added the row and the columns, `update_row` sets the fields of a row that is there. */
  lemma UpdateRowParts(t: Table, key: string, fields: Fields, clock: Clock)
    requires Good(t)
    ensures var a := AddRow(t, key);
      var b := AddColumns(a.table, Ordinary(Listing(fields.Keys)), clock);
      && Good(a.table) && Good(b.table) && HasRow(b.table.rows, key)
      && (forall n :: n in fields && !Reserved(n) ==> n in b.table.columns)
      && |a.table.rows| == |b.table.rows|
      && (forall i :: 0 <= i < |a.table.rows| ==> b.table.rows[i].key == a.table.rows[i].key)
  {
    var a := AddRow(t, key);
    var names := Ordinary(Listing(fields.Keys));
    AddColumnsGood(a.table, names, clock);
    OrdinaryNames(Listing(fields.Keys));
    var b := AddColumns(a.table, names, clock);
    assert HasRow(a.table.rows, key) by {
      if KeyPos(t.rows, key) == |t.rows| { assert a.table.rows[|t.rows|].key == key; }
    }
    assert b.table.rows[KeyPos(a.table.rows, key)].key == key;
  }

  /** Every operation keeps the keys distinct, the columns distinct and every field in a column. */
  lemma DoKeepsGood(t: Table, op: Op, clock: Clock)
    requires Good(t)
    ensures Good(Do(t, op, clock).table)
  {
    match op
    case Update(key, fields) =>
      UpdateRowParts(t, key, fields, clock);
      SetFieldsGood(AddColumns(AddRow(t, key).table, Ordinary(Listing(fields.Keys)), clock).table, key, fields, clock);
    case Columns(columns) => AddColumnsGood(t, columns, clock);
    case Delete(key) =>
    case Clear =>
  }

  lemma {:induction false} ReachableGood(ops: seq<Op>, clock: Clock)
    ensures Good(DoAll(EmptyTable, ops, clock).table)
  {
    if ops != [] {
      ReachableGood(ops[..|ops| - 1], clock);
      DoKeepsGood(DoAll(EmptyTable, ops[..|ops| - 1], clock).table, ops[|ops| - 1], clock);
    }
  }

  /** In a reachable table a new column never overwrites data: every field of every row but the
      time of the last update keeps its value. */
  lemma AddColumnKeepsData(t: Table, column: string, clock: Clock, i: nat, n: string)
    requires Good(t) && i < |t.rows| && n in t.rows[i].fields && n != ROW_LAST
    ensures var r := AddColumn(t, column, clock).table.rows[i];
      n in r.fields && r.fields[n] == t.rows[i].fields[n]
  {
    if column !in t.columns && !Reserved(n) {
      assert GoodRow(t.rows[i], t.columns);
      assert n != column;
    }
  }

  // ----- Doing the same update twice -----

  lemma ChangesThenNone(r: Row, fields: Fields, now: string)
    ensures Changes(UpdatedRow(r, fields, now), fields) == map[]
  {
  }

  lemma {:induction false} AddKnownColumns(t: Table, columns: seq<string>, clock: Clock)
    requires forall c :: c in columns ==> c in t.columns
    ensures AddColumns(t, columns, clock) == Step(t, [])
  {
    if columns != [] { AddKnownColumns(t, columns[..|columns| - 1], clock); }
  }

  /** Repeating an `update_row` raises no event and changes no row and no column. */
  lemma UpdateTwice(t: Table, key: string, fields: Fields, clock: Clock)
    requires Good(t)
    ensures var t1 := UpdateRow(t, key, fields, clock).table;
      var s2 := UpdateRow(t1, key, fields, clock);
      s2.events == [] && s2.table.rows == t1.rows && s2.table.columns == t1.columns
  {
    UpdateRowParts(t, key, fields, clock);
    var names := Ordinary(Listing(fields.Keys));
    var b := AddColumns(AddRow(t, key).table, names, clock).table;
    var i := KeyPos(b.rows, key);
    var t1 := SetFields(b, key, fields, clock).table;
    assert t1.rows[i].key == key;
    var j := KeyPos(t1.rows, key);
    assert j == i by {
      assert forall k :: 0 <= k < i ==> t1.rows[k] == b.rows[k];
    }
    ChangesThenNone(b.rows[i], fields, clock(b.ticks));
    OrdinaryNames(Listing(fields.Keys));
    AddKnownColumns(t1, names, clock);
    assert t1.rows[i := t1.rows[i]] == t1.rows;
  }
}
