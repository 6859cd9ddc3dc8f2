/** Replaying the events of table operations reproduces the table
    (libexio/Table.cc, libexio/exio/TableEvents.h). */
module TableReplay {
  import opened KeyOrder
  import opened TableModel

  /** What a listener can know: the rows in order and the columns in order. */
  datatype Copy = Copy(rows: seq<Row>, columns: seq<string>)

  function CopyOf(t: Table): Copy {
    Copy(t.rows, t.columns)
  }

  function Patched(rows: seq<Row>, key: string, fields: Fields): (r: seq<Row>)
    ensures |r| == |rows|
    ensures forall i :: 0 <= i < |rows| ==> r[i] == if rows[i].key == key then Row(key, rows[i].fields + fields) else rows[i]
  {
    if rows == [] then []
    else
      var r := rows[0];
      [if r.key == key then Row(key, r.fields + fields) else r] + Patched(rows[1..], key, fields)
  }

  function Without(rows: seq<Row>, key: string): seq<Row> {
    if rows == [] then []
    else (if rows[0].key == key then [] else [rows[0]]) + Without(rows[1..], key)
  }

  /** A listener knows only the event, not how the table found the row. */
  function Apply(c: Copy, e: Event): Copy {
    match e
    case NewRow(key) => c.(rows := c.rows + [FreshRow(key)])
    case NewColumn(column) => c.(columns := c.columns + [column])
    case RowMultiUpdate(key, fields) => c.(rows := Patched(c.rows, key, fields))
    case RowRemoved(key) => c.(rows := Without(c.rows, key))
    case TableCleared => c.(rows := [])
  }

  function Replay(c: Copy, events: seq<Event>): Copy {
    if events == [] then c else Apply(Replay(c, events[..|events| - 1]), events[|events| - 1])
  }

  /** The event says something new and true of the copy it meets. */
  predicate SensibleEvent(c: Copy, e: Event) {
    match e
    case NewRow(key) => !HasRow(c.rows, key)
    case NewColumn(column) => column !in c.columns
    case RowMultiUpdate(key, fields) => HasRow(c.rows, key) && ROW_KEY !in fields && ROW_LAST in fields
    case RowRemoved(key) => HasRow(c.rows, key)
    case TableCleared => true
  }

  predicate Sensible(c: Copy, events: seq<Event>) {
    events == [] || (var l := |events| - 1; Sensible(c, events[..l]) && SensibleEvent(Replay(c, events[..l]), events[l]))
  }

  lemma {:induction false} ReplayConcat(c: Copy, a: seq<Event>, b: seq<Event>)
    ensures Replay(c, a + b) == Replay(Replay(c, a), b)
    ensures Sensible(c, a) && Sensible(Replay(c, a), b) ==> Sensible(c, a + b)
    decreases |b|
  {
    if b == [] {
      assert a + b == a;
    } else {
      var l := |b| - 1;
      assert (a + b)[..|a + b| - 1] == a + b[..l];
      ReplayConcat(c, a, b[..l]);
    }
  }

  lemma {:induction false} WithoutAbsent(rows: seq<Row>, key: string)
    requires forall r :: r in rows ==> r.key != key
    ensures Without(rows, key) == rows
  {
    if rows != [] {
      WithoutAbsent(rows[1..], key);
    }
  }

  /** Among distinct keys, removing by key is removing at the key's position. */
  lemma {:induction false} WithoutIsCut(rows: seq<Row>, key: string)
    requires DistinctKeys(rows)
    ensures var i := KeyPos(rows, key);
      Without(rows, key) == if i < |rows| then rows[..i] + rows[i + 1..] else rows
  {
    if rows != [] {
      if rows[0].key == key {
        WithoutAbsent(rows[1..], key);
      } else {
        WithoutIsCut(rows[1..], key);
        CutBehindFirst(rows, KeyPos(rows[1..], key));
      }
    }
  }

  lemma CutBehindFirst(rows: seq<Row>, j: nat)
    requires j < |rows|
    ensures j + 1 < |rows| ==> rows[..j + 1] + rows[j + 2..] == [rows[0]] + (rows[1..][..j] + rows[1..][j + 1..])
    ensures rows == [rows[0]] + rows[1..]
  {
  }

  /** The event of one row's update turns exactly that row into the updated one. */
  lemma RowEventReplays(rows: seq<Row>, i: nat, fields: Fields, now: string, columns: seq<string>)
    requires DistinctKeys(rows) && i < |rows|
    ensures Replay(Copy(rows, columns), RowEvents(rows[i], fields, now))
         == Copy(rows[i := UpdatedRow(rows[i], fields, now)], columns)
    ensures Sensible(Copy(rows, columns), RowEvents(rows[i], fields, now))
  {
    var r := rows[i];
    var es := RowEvents(r, fields, now);
    if Changes(r, fields) == map[] {
      assert rows[i := r] == rows;
    } else {
      var p := Patched(rows, r.key, Stamped(r, fields, now));
      assert es[..0] == [];
      assert Replay(Copy(rows, columns), es[..0]) == Copy(rows, columns);
      assert Replay(Copy(rows, columns), es) == Copy(p, columns);
      assert p == rows[i := UpdatedRow(r, fields, now)];
      assert HasRow(rows, r.key);
    }
  }

  /** The first `n` elements already replaced. */
  function Mixed<T>(before: seq<T>, after: seq<T>, n: nat): seq<T>
    requires n <= |before| == |after|
  {
    after[..n] + before[n..]
  }

  lemma MixedStep<T>(before: seq<T>, after: seq<T>, n: nat)
    requires n < |before| == |after|
    ensures Mixed(before, after, n + 1) == Mixed(before, after, n)[n := after[n]]
    ensures Mixed(before, after, n)[n] == before[n]
  {
  }

  lemma MixedEnds<T>(before: seq<T>, after: seq<T>)
    requires |before| == |after|
    ensures Mixed(before, after, 0) == before && Mixed(before, after, |before|) == after
  {
  }

  lemma MixedKeys(before: seq<Row>, after: seq<Row>, n: nat)
    requires n <= |before| == |after| && DistinctKeys(before)
    requires forall i :: 0 <= i < |before| ==> after[i].key == before[i].key
    ensures DistinctKeys(Mixed(before, after, n))
  {
    var h := Mixed(before, after, n);
    forall i, j | 0 <= i < j < |h| ensures h[i].key != h[j].key {
      assert h[i].key == before[i].key && h[j].key == before[j].key;
    }
  }

  lemma UpdateAllEventsStep(rows: seq<Row>, n: nat, fields: Fields, clock: Clock, t: nat)
    requires n < |rows|
    ensures UpdateAllEvents(rows[..n + 1], fields, clock, t)
         == UpdateAllEvents(rows[..n], fields, clock, t) + RowEvents(rows[n], fields, clock(t + n))
  {
    assert rows[..n + 1][..n] == rows[..n];
  }

  lemma OneMoreRow(c: Copy, events: seq<Event>, h: seq<Row>, m: nat, fields: Fields, now: string, columns: seq<string>)
    requires DistinctKeys(h) && m < |h| && Sensible(c, events) && Replay(c, events) == Copy(h, columns)
    ensures var more := events + RowEvents(h[m], fields, now);
      Replay(c, more) == Copy(h[m := UpdatedRow(h[m], fields, now)], columns) && Sensible(c, more)
  {
    RowEventReplays(h, m, fields, now, columns);
    ReplayConcat(c, events, RowEvents(h[m], fields, now));
  }

  lemma {:induction false} AllEventsReplay(rows: seq<Row>, after: seq<Row>, n: nat, fields: Fields, clock: Clock, t: nat, columns: seq<string>)
    requires DistinctKeys(rows) && n <= |rows| && after == UpdateAll(rows, fields, clock, t)
    ensures Replay(Copy(rows, columns), UpdateAllEvents(rows[..n], fields, clock, t)) == Copy(Mixed(rows, after, n), columns)
    ensures Sensible(Copy(rows, columns), UpdateAllEvents(rows[..n], fields, clock, t))
  {
    if n == 0 {
      MixedEnds(rows, after);
    } else {
      var m := n - 1;
      AllEventsReplay(rows, after, m, fields, clock, t, columns);
      var h := MixedRows(rows, after, m, fields, clock, t);
      UpdateAllEventsStep(rows, m, fields, clock, t);
      OneMoreRow(Copy(rows, columns), UpdateAllEvents(rows[..m], fields, clock, t), h, m, fields, clock(t + m), columns);
    }
  }

  lemma MixedRows(rows: seq<Row>, after: seq<Row>, m: nat, fields: Fields, clock: Clock, t: nat) returns (h: seq<Row>)
    requires DistinctKeys(rows) && m < |rows| && after == UpdateAll(rows, fields, clock, t)
    ensures h == Mixed(rows, after, m) && DistinctKeys(h) && |h| == |rows| && h[m] == rows[m]
    ensures Mixed(rows, after, m + 1) == h[m := UpdatedRow(rows[m], fields, clock(t + m))]
  {
    h := Mixed(rows, after, m);
    UpdateAllKeys(rows, fields, clock, t);
    MixedKeys(rows, after, m);
    MixedStep(rows, after, m);
  }

  lemma ReplayOne(c: Copy, e: Event)
    ensures Replay(c, [e]) == Apply(c, e)
    ensures SensibleEvent(c, e) ==> Sensible(c, [e])
  {
    assert [e][..0] == [];
  }

  lemma AddColumnReplays(t: Table, column: string, clock: Clock)
    requires Good(t)
    ensures var s := AddColumn(t, column, clock); Replay(CopyOf(t), s.events) == CopyOf(s.table) && Sensible(CopyOf(t), s.events)
  {
    if column !in t.columns {
      var blank := map[column := ""];
      var es := UpdateAllEvents(t.rows, blank, clock, t.ticks);
      ReplayConcat(CopyOf(t), [NewColumn(column)], es);
      ReplayOne(CopyOf(t), NewColumn(column));
      assert t.rows[..|t.rows|] == t.rows;
      var after := UpdateAll(t.rows, blank, clock, t.ticks);
      AllEventsReplay(t.rows, after, |t.rows|, blank, clock, t.ticks, t.columns + [column]);
      MixedEnds(t.rows, after);
    }
  }

  lemma {:induction false} AddColumnsReplays(t: Table, columns: seq<string>, clock: Clock)
    requires Good(t)
    ensures var s := AddColumns(t, columns, clock); Replay(CopyOf(t), s.events) == CopyOf(s.table) && Sensible(CopyOf(t), s.events)
  {
    if columns != [] {
      var front := columns[..|columns| - 1];
      AddColumnsReplays(t, front, clock);
      AddColumnsGood(t, front, clock);
      var s := AddColumns(t, front, clock);
      AddColumnReplays(s.table, columns[|columns| - 1], clock);
      ReplayConcat(CopyOf(t), s.events, AddColumn(s.table, columns[|columns| - 1], clock).events);
    }
  }

  lemma UpdateRowReplays(t: Table, key: string, fields: Fields, clock: Clock)
    requires Good(t)
    ensures var s := UpdateRow(t, key, fields, clock); Replay(CopyOf(t), s.events) == CopyOf(s.table) && Sensible(CopyOf(t), s.events)
  {
    UpdateRowParts(t, key, fields, clock);
    var names := Ordinary(Listing(fields.Keys));
    var a := AddRow(t, key);
    var b := AddColumns(a.table, names, clock);
    var c := SetFields(b.table, key, fields, clock);
    if !HasRow(t.rows, key) { ReplayOne(CopyOf(t), NewRow(key)); }
    assert Replay(CopyOf(t), a.events) == CopyOf(a.table);
    AddColumnsReplays(a.table, names, clock);
    ReplayConcat(CopyOf(t), a.events, b.events);
    RowEventReplays(b.table.rows, KeyPos(b.table.rows, key), fields, clock(b.table.ticks), b.table.columns);
    ReplayConcat(CopyOf(t), a.events + b.events, c.events);
  }

  lemma DoReplays(t: Table, op: Op, clock: Clock)
    requires Good(t)
    ensures var s := Do(t, op, clock); Replay(CopyOf(t), s.events) == CopyOf(s.table) && Sensible(CopyOf(t), s.events)
  {
    match op
    case Update(key, fields) => UpdateRowReplays(t, key, fields, clock);
    case Columns(columns) => AddColumnsReplays(t, columns, clock);
    case Delete(key) =>
      WithoutIsCut(t.rows, key);
      if HasRow(t.rows, key) { ReplayOne(CopyOf(t), RowRemoved(key)); }
    case Clear => ReplayOne(CopyOf(t), TableCleared);
  }

  /** Over every sequence of operations, replaying all events on a copy of the old table gives
      the new one, the same keys, order, fields and columns; and each event is new and true
      where it occurs. */
  lemma {:induction false} RunReplays(t: Table, ops: seq<Op>, clock: Clock)
    requires Good(t)
    ensures var s := DoAll(t, ops, clock);
      Good(s.table) && Replay(CopyOf(t), s.events) == CopyOf(s.table) && Sensible(CopyOf(t), s.events)
  {
    if ops != [] {
      var front, op := ops[..|ops| - 1], ops[|ops| - 1];
      RunReplays(t, front, clock);
      var s := DoAll(t, front, clock);
      DoReplays(s.table, op, clock);
      DoKeepsGood(s.table, op, clock);
      ReplayConcat(CopyOf(t), s.events, Do(s.table, op, clock).events);
    }
  }
}
